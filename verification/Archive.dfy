/** The content-addressed archive of src/soloscale/casebook_store.py: a file is kept under its digest,
    or under the digest and a counter when that name is taken. */
module Archive {
  import opened PyText
  import opened Utf8

  /** The k-th name tried for a digest: the digest itself, then digest-2, digest-3, ... */
  function Candidate(digest: string, k: nat): (name: string)
    requires k > 0
  {
    if k == 1 then digest else digest + "-" + Decimal(k)
  }

  lemma CandidatesDiffer(digest: string, j: nat, k: nat)
    requires 0 < j < k
    ensures Candidate(digest, j) != Candidate(digest, k)
  {
    hide Decimal;
    if j > 1 && Candidate(digest, j) == Candidate(digest, k) {
      var n := |digest| + 1;
      assert Decimal(j) == Candidate(digest, j)[n..];
      assert Decimal(k) == Candidate(digest, k)[n..];
      DecimalInjective(j, k);
    }
  }

  /** The first k-1 names tried. */
  function Tried(digest: string, k: nat): (names: set<string>)
    requires k > 0
  {
    set j | 1 <= j < k :: Candidate(digest, j)
  }

  lemma {:induction false} TriedSize(digest: string, k: nat)
    requires k > 0
    ensures |Tried(digest, k)| == k - 1
  {
    hide Candidate;
    if k == 1 {
      assert Tried(digest, 1) == {};
    } else {
      TriedSize(digest, k - 1);
      assert Tried(digest, k) == Tried(digest, k - 1) + {Candidate(digest, k - 1)};
      forall j | 1 <= j < k - 1 ensures Candidate(digest, j) != Candidate(digest, k - 1) {
        CandidatesDiffer(digest, j, k - 1);
      }
    }
  }

  lemma SubsetSize<T>(a: set<T>, b: set<T>)
    requires a <= b
    ensures |a| <= |b|
  {
    assert b == a + (b - a);
  }

  /** The name is a candidate, it is free, and every earlier candidate is taken. */
  ghost predicate IsFirstFree(name: string, taken: set<string>, digest: string) {
    name !in taken && exists k: nat :: k > 0 && name == Candidate(digest, k) && Tried(digest, k) <= taken
  }

  /** `_available_hash_filename`: it ends because there are fewer taken names than candidates. */
  method AvailableHashFilename(taken: set<string>, digest: string) returns (candidate: string)
    ensures IsFirstFree(candidate, taken, digest)
  {
    hide Candidate;
    candidate := digest;
    var counter := 2;
    assert candidate == Candidate(digest, 1) by { FirstCandidate(digest); }
    TriedSize(digest, 1);
    while candidate in taken
      invariant counter >= 2 && candidate == Candidate(digest, counter - 1)
      invariant Tried(digest, counter - 1) <= taken
      invariant counter - 2 <= |taken|
      decreases |taken| + 2 - counter
    {
      assert Tried(digest, counter) == Tried(digest, counter - 1) + {candidate};
      TriedSize(digest, counter);
      SubsetSize(Tried(digest, counter), taken);
      candidate := digest + "-" + Decimal(counter);
      assert candidate == Candidate(digest, counter) by { LaterCandidate(digest, counter); }
      counter := counter + 1;
    }
  }

  lemma FirstCandidate(digest: string)
    ensures Candidate(digest, 1) == digest
  {
  }

  lemma LaterCandidate(digest: string, k: nat)
    requires k >= 2
    ensures Candidate(digest, k) == digest + "-" + Decimal(k)
  {
  }

  /** Names made from a digest without slashes have none. */
  lemma CandidateIsPlain(digest: string, k: nat)
    requires k > 0 && '/' !in digest
    ensures '/' !in Candidate(digest, k)
  {
    DecimalIsDigits(k);
  }

  lemma FirstFreeIsPlain(name: string, taken: set<string>, digest: string)
    requires IsFirstFree(name, taken, digest) && '/' !in digest
    ensures '/' !in name
  {
    var k: nat :| k > 0 && name == Candidate(digest, k) && Tried(digest, k) <= taken;
    CandidateIsPlain(digest, k);
  }

  // ----- archiving one source

  type Hash = Bytes -> string

  /** What was archived: its digest, size and file name, and whether the file is new. */
  datatype Archived = Archived(digest: string, size: nat, name: string, isNew: bool)

  /** A directory: file contents by name. */
  type Directory = map<string, Bytes>

  /** The archived file holds content of the recorded digest and size. */
  predicate HoldsContent(hash: Hash, dir: Directory, a: Archived) {
    a.name in dir && hash(dir[a.name]) == a.digest && |dir[a.name]| == a.size
  }

  /** `_archive_file`: always a new file. */
  method ArchiveFile(hash: Hash, dir: Directory, content: Bytes) returns (a: Archived, after: Directory)
    ensures a.isNew && a.digest == hash(content) && a.size == |content|
    ensures a.name !in dir && after == dir[a.name := content] && HoldsContent(hash, after, a)
    ensures '/' !in a.digest ==> '/' !in a.name
  {
    var digest := hash(content);
    var name := AvailableHashFilename(dir.Keys, digest);
    if '/' !in digest { FirstFreeIsPlain(name, dir.Keys, digest); }
    a := Archived(digest, |content|, name, true);
    after := dir[name := content];
  }

  /** The name that is the digest itself is taken by a file with this digest and size. */
  predicate HeldUnderDigest(hash: Hash, dir: Directory, content: Bytes) {
    var digest := hash(content);
    digest in dir && hash(dir[digest]) == digest && |dir[digest]| == |content|
  }

  /** `_archive_file_reusing_identical`: the file under the digest itself is reused when it has the same
      digest and size; otherwise nothing existing is touched and a new file is added. */
  method ArchiveReusingIdentical(hash: Hash, dir: Directory, content: Bytes) returns (a: Archived, after: Directory)
    ensures a.digest == hash(content) && a.size == |content| && HoldsContent(hash, after, a)
    ensures after == if a.isNew then dir[a.name := content] else dir
    ensures a.isNew ==> a.name !in dir
    ensures !a.isNew <==> HeldUnderDigest(hash, dir, content)
    ensures '/' !in a.digest ==> '/' !in a.name
  {
    var digest := hash(content);
    if digest in dir {
      if hash(dir[digest]) == digest && |dir[digest]| == |content| {
        return Archived(digest, |content|, digest, false), dir;
      }
    }
    a, after := ArchiveFile(hash, dir, content);
  }
}
