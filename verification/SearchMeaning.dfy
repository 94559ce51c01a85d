/** What one search of src/soloscale/evidence_agent.py leaves behind: which of its hits are looked at, what
    is kept of each chunk, and when two hits contradict each other. */
module SearchMeaning {
  import opened Wrappers
  import opened PyText
  import opened Sorting
  import opened Retrieval
  import opened QueryBudget
  import opened ContextBuilder

  // ----- a chunk returned several times

  /** The hits of one chunk, in order. */
  function HitsOf(id: string, hits: seq<Hit>): (r: seq<Hit>) {
    Filter(hits, (h: Hit) => h.id == id)
  }

  /** A hit after these hits of the same chunk were merged into it, one by one. */
  function MergeAll(first: Hit, more: seq<Hit>): (r: Hit)
    decreases |more|
  {
    if more == [] then first else MergeAll(MergeHit(first, more[0]), more[1..])
  }

  function AllChannels(hits: seq<Hit>): (r: seq<string>) {
    if hits == [] then [] else hits[0].channels + AllChannels(hits[1..])
  }

  ghost predicate IsBestScore(score: real, hits: seq<Hit>) {
    (forall k :: 0 <= k < |hits| ==> hits[k].score <= score) && exists k :: 0 <= k < |hits| && hits[k].score == score
  }

  /** Merging keeps the first hit's identity, excerpt and role, the best score of all and the distinct
      channels of all. */
  lemma {:induction false} MergeAllKeeps(first: Hit, more: seq<Hit>)
    ensures var r := MergeAll(first, more);
            && r.id == first.id && r.identity == first.identity && r.excerpt == first.excerpt && r.role == first.role
            && IsBestScore(r.score, [first] + more)
            && (forall c :: c in r.channels <==> c in AllChannels([first] + more))
            && (more != [] ==> Distinct(r.channels))
    decreases |more|
  {
    var all := [first] + more;
    assert all[0] == first && all[1..] == more;
    if more == [] {
      assert AllChannels(all) == first.channels + [];
      assert all[0].score == first.score;
    } else {
      var next, rest := MergeHit(first, more[0]), more[1..];
      MergeHitKeeps(first, more[0]);
      MergeAllKeeps(next, rest);
      var later := [next] + rest;
      assert later[0] == next && later[1..] == rest;
      BestOfMerged(first, more[0], next, rest, MergeAll(next, rest).score);
      if rest == [] { assert MergeAll(next, rest) == next; }
    }
  }

  lemma BestOfMerged(a: Hit, b: Hit, m: Hit, rest: seq<Hit>, score: real)
    requires m.score >= a.score && m.score >= b.score && (m.score == a.score || m.score == b.score)
    requires IsBestScore(score, [m] + rest)
    ensures IsBestScore(score, [a, b] + rest)
  {
    var merged, all := [m] + rest, [a, b] + rest;
    forall k | 0 <= k < |all| ensures all[k].score <= score {
      assert merged[0].score <= score;
      if k > 1 { assert all[k] == merged[k - 1]; }
    }
    var k :| 0 <= k < |merged| && merged[k].score == score;
    if k > 0 {
      assert all[k + 1].score == score;
    } else {
      assert all[0].score == score || all[1].score == score;
    }
  }

  /** What is known of a chunk after these hits of it. */
  function MergedWith(known: Option<Hit>, hits: seq<Hit>): (r: Option<Hit>) {
    match known
    case Some(h) => Some(MergeAll(h, hits))
    case None => if hits == [] then None else Some(MergeAll(hits[0], hits[1..]))
  }

  // ----- how far a search looks

  /** The chunks among hits i to j that were not known before. */
  function NewChunks(known: seq<string>, hits: seq<Hit>, i: nat, j: nat): (ids: set<string>)
    requires i <= j <= |hits|
  {
    set k | i <= k < j && hits[k].id !in known :: hits[k].id
  }

  /** The hit is looked at: before it the quota of new chunks was not yet filled. */
  predicate LookedAt(known: seq<string>, hits: seq<Hit>, i: nat, j: nat, quota: nat)
    requires i <= j <= |hits|
  {
    |NewChunks(known, hits, i, j)| < quota
  }

  /** Everything before the c-th hit is looked at, and nothing from there on. */
  ghost predicate StopsAt(known: seq<string>, hits: seq<Hit>, i: nat, c: nat, quota: nat)
    requires i <= c <= |hits|
  {
    (forall j :: i <= j < c ==> LookedAt(known, hits, i, j, quota)) && (c == |hits| || !LookedAt(known, hits, i, c, quota))
  }

  /** The j-th hit has another identity than the chunk's first hit. */
  ghost predicate Contradicts(retrieved: seq<Hit>, hits: seq<Hit>, i: nat, j: nat)
    requires i <= j < |hits|
  {
    var known := Lookup(retrieved + hits[i..j], hits[j].id);
    known.Some? && known.value.identity != hits[j].identity
  }

  lemma KnownFirst(known: seq<string>, hits: seq<Hit>, i: nat, j: nat)
    requires i < j <= |hits| && hits[i].id in known
    ensures NewChunks(known, hits, i, j) == NewChunks(known, hits, i + 1, j)
  {
    forall id ensures id in NewChunks(known, hits, i, j) <==> id in NewChunks(known, hits, i + 1, j) {
      if id in NewChunks(known, hits, i, j) {
        var k :| i <= k < j && hits[k].id !in known && hits[k].id == id;
        assert k > i;
      }
    }
  }

  lemma NewFirst(known: seq<string>, hits: seq<Hit>, i: nat, j: nat)
    requires i < j <= |hits| && hits[i].id !in known
    ensures var id := hits[i].id; var rest := NewChunks(known + [id], hits, i + 1, j);
            id !in rest && NewChunks(known, hits, i, j) == rest + {id}
  {
    var first := hits[i].id;
    var rest := NewChunks(known + [first], hits, i + 1, j);
    forall id ensures id in NewChunks(known, hits, i, j) <==> id in rest + {first} {
      if id in NewChunks(known, hits, i, j) && id != first {
        var k :| i <= k < j && hits[k].id !in known && hits[k].id == id;
        assert k > i && hits[k].id !in known + [first];
      }
    }
  }

  lemma NewChunksStep(st: State, hits: seq<Hit>, i: nat, j: nat, next: seq<string>)
    requires i < j <= |hits| && next == Ids(st.retrieved) + (if IsKnown(st, hits[i]) then [] else [hits[i].id])
    ensures |NewChunks(Ids(st.retrieved), hits, i, j)| == |NewChunks(next, hits, i + 1, j)| + if IsKnown(st, hits[i]) then 0 else 1
  {
    hide Ids;
    hide NewChunks;
    if IsKnown(st, hits[i]) {
      assert next == Ids(st.retrieved);
      KnownFirst(next, hits, i, j);
    } else {
      NewFirst(Ids(st.retrieved), hits, i, j);
    }
  }

  /** Nothing new among no hits. */
  lemma NothingNew(known: seq<string>, hits: seq<Hit>, i: nat)
    requires i <= |hits|
    ensures NewChunks(known, hits, i, i) == {}
  {
  }

  /** Stopping with one hit less to go. */
  lemma StopsStep(st: State, hits: seq<Hit>, i: nat, c: nat, quota: nat, next: seq<string>)
    requires i < c <= |hits| && quota > 0 && next == Ids(st.retrieved) + (if IsKnown(st, hits[i]) then [] else [hits[i].id])
    requires StopsAt(next, hits, i + 1, c, if IsKnown(st, hits[i]) then quota else quota - 1)
    ensures StopsAt(Ids(st.retrieved), hits, i, c, quota)
  {
    hide NewChunks;
    hide Ids;
    forall j | i <= j < c ensures LookedAt(Ids(st.retrieved), hits, i, j, quota) {
      if j == i {
        NothingNew(Ids(st.retrieved), hits, i);
        assert |NewChunks(Ids(st.retrieved), hits, i, i)| == 0;
      } else {
        NewChunksStep(st, hits, i, j, next);
        assert LookedAt(next, hits, i + 1, j, if IsKnown(st, hits[i]) then quota else quota - 1);
      }
    }
    NewChunksStep(st, hits, i, c, next);
  }

  // ----- what is known afterwards

  lemma {:induction false} LookupConcat(a: seq<Hit>, b: seq<Hit>, id: string)
    ensures Lookup(a + b, id) == if Lookup(a, id).Some? then Lookup(a, id) else Lookup(b, id)
  {
    hide Ids;
    if b == [] {
      assert a + b == a;
    } else {
      var n := |b| - 1;
      assert a + b == (a + b[..n]) + [b[n]] && b == b[..n] + [b[n]];
      LookupConcat(a, b[..n], id);
      LookupSnoc(a + b[..n], b[n], id);
      LookupSnoc(b[..n], b[n], id);
    }
  }

  lemma {:induction false} LookupUpdate(hits: seq<Hit>, at: nat, h: Hit, id: string)
    requires at < |hits| && h.id == hits[at].id && at == Position(hits, h.id)
    ensures Lookup(hits[at := h], id) == if id == h.id then Some(h) else Lookup(hits, id)
    decreases |hits|
  {
    hide Ids;
    var changed := hits[at := h];
    if at > 0 {
      assert hits[1..][at - 1] == hits[at];
      assert changed[1..] == hits[1..][at - 1 := h] && changed[0] == hits[0];
      assert hits[0].id != h.id;
      LookupUpdate(hits[1..], at - 1, h, id);
    } else {
      assert changed[1..] == hits[1..];
    }
  }

  /** One hit taken: the chunk's entry is the merged one, all others stay. */
  lemma TakenIs(st: State, hit: Hit, query: string, id: string)
    requires TakeHit(st, hit, query).Ok?
    ensures Lookup(TakeHit(st, hit, query).value.retrieved, id)
         == if id == hit.id then MergedWith(Lookup(st.retrieved, id), [hit]) else Lookup(st.retrieved, id)
  {
    hide Ids;
    hide MergeHit;
    hide AddFocus;
    var at := Position(st.retrieved, hit.id);
    assert [hit][1..] == [];
    if at < |st.retrieved| {
      var merged := MergeHit(st.retrieved[at], hit);
      SameChunk(st.retrieved[at], hit);
      LookupUpdate(st.retrieved, at, merged, id);
      assert MergeAll(st.retrieved[at], [hit]) == MergeAll(merged, []) == merged;
    } else {
      LookupSnoc(st.retrieved, hit, id);
      assert MergeAll(hit, []) == hit;
    }
  }

  lemma SameChunk(existing: Hit, hit: Hit)
    ensures MergeHit(existing, hit).id == existing.id
  {
  }

  lemma MergedStep(known: Option<Hit>, hit: Hit, rest: seq<Hit>)
    ensures MergedWith(MergedWith(known, [hit]), rest) == MergedWith(known, [hit] + rest)
  {
    hide MergeHit;
    var all := [hit] + rest;
    assert all[0] == hit && all[1..] == rest && [hit][0] == hit && [hit][1..] == [];
    match known
    case Some(h) =>
      assert MergeAll(h, [hit]) == MergeAll(MergeHit(h, hit), []) == MergeHit(h, hit);
    case None =>
      assert MergeAll(hit, []) == hit;
  }

  lemma HitsOfCons(id: string, hits: seq<Hit>, i: nat, c: nat)
    requires i < c <= |hits|
    ensures HitsOf(id, hits[i..c]) == (if hits[i].id == id then [hits[i]] else []) + HitsOf(id, hits[i + 1..c])
  {
    assert hits[i..c][0] == hits[i] && hits[i..c][1..] == hits[i + 1..c];
  }

  function FocusOf(st: State, id: string): (queries: seq<string>) {
    if id in st.focus then st.focus[id] else []
  }

  function Repeat(query: string, n: nat): (r: seq<string>) {
    seq(n, _ => query)
  }

  /** Each chunk's entry holds all that was known and looked at of it, and the query is noted once for each
      hit of it. */
  ghost predicate HasTaken(st: State, hits: seq<Hit>, i: nat, c: nat, query: string, after: State)
    requires i <= c <= |hits|
  {
    && (forall id :: Lookup(after.retrieved, id) == MergedWith(Lookup(st.retrieved, id), HitsOf(id, hits[i..c])))
    && (forall id :: FocusOf(after, id) == FocusOf(st, id) + Repeat(query, |HitsOf(id, hits[i..c])|))
  }

  lemma NothingTaken(st: State, hits: seq<Hit>, i: nat, query: string)
    requires i <= |hits|
    ensures HasTaken(st, hits, i, i, query, st)
  {
    forall id ensures Lookup(st.retrieved, id) == MergedWith(Lookup(st.retrieved, id), HitsOf(id, hits[i..i])) {
      assert hits[i..i] == [];
    }
  }

  lemma OneTaken(st: State, hits: seq<Hit>, i: nat, c: nat, query: string, next: State, after: State)
    requires i < c <= |hits| && TakeHit(st, hits[i], query) == Ok(next) && HasTaken(next, hits, i + 1, c, query, after)
    ensures HasTaken(st, hits, i, c, query, after)
  {
    hide Ids;
    hide MergeHit;
    hide Lookup;
    hide MergedWith;
    hide HitsOf;
    forall id ensures Lookup(after.retrieved, id) == MergedWith(Lookup(st.retrieved, id), HitsOf(id, hits[i..c])) {
      TakenIs(st, hits[i], query, id);
      HitsOfCons(id, hits, i, c);
      var rest := HitsOf(id, hits[i + 1..c]);
      MergedStep(Lookup(st.retrieved, id), hits[i], rest);
      assert [] + rest == rest;
    }
    forall id ensures FocusOf(after, id) == FocusOf(st, id) + Repeat(query, |HitsOf(id, hits[i..c])|) {
      HitsOfCons(id, hits, i, c);
      var n := |HitsOf(id, hits[i + 1..c])|;
      assert FocusOf(next, id) == FocusOf(st, id) + if id == hits[i].id then [query] else [];
      if id == hits[i].id {
        assert [query] + Repeat(query, n) == Repeat(query, n + 1);
        Reassociate(FocusOf(st, id), [query], Repeat(query, n));
      } else {
        assert FocusOf(st, id) + [] == FocusOf(st, id);
      }
    }
  }

  /** The identity by which a chunk is known stays the same when one more hit is taken. */
  lemma KnownIdentityStays(st: State, hits: seq<Hit>, i: nat, j: nat, query: string, next: State)
    requires i < j < |hits| && TakeHit(st, hits[i], query) == Ok(next)
    ensures Contradicts(st.retrieved, hits, i, j) <==> Contradicts(next.retrieved, hits, i + 1, j)
  {
    hide Ids;
    hide MergeHit;
    hide Lookup;
    hide TakeHit;
    var id := hits[j].id;
    assert hits[i..j] == [hits[i]] + hits[i + 1..j];
    LookupConcat(st.retrieved, hits[i..j], id);
    LookupConcat([hits[i]], hits[i + 1..j], id);
    LookupConcat(next.retrieved, hits[i + 1..j], id);
    TakenIs(st, hits[i], query, id);
    LookupOne(hits[i], id);
    IdentityOfMerged(Lookup(st.retrieved, id), hits[i]);
  }

  lemma LookupOne(h: Hit, id: string)
    ensures Lookup([h], id) == if h.id == id then Some(h) else None
  {
    assert [] + [h] == [h];
    LookupSnoc([], h, id);
  }

  lemma IdentityOfMerged(known: Option<Hit>, hit: Hit)
    ensures MergedWith(known, [hit]).Some?
    ensures MergedWith(known, [hit]).value.identity == if known.Some? then known.value.identity else hit.identity
  {
    assert [hit][1..] == [];
    match known
    case Some(h) => assert MergeAll(h, [hit]) == MergeAll(MergeHit(h, hit), []) == MergeHit(h, hit);
    case None =>
  }

  lemma ContradictionNow(st: State, hits: seq<Hit>, i: nat, query: string)
    requires i < |hits|
    ensures TakeHit(st, hits[i], query).Err? <==> Contradicts(st.retrieved, hits, i, i)
    ensures TakeHit(st, hits[i], query).Err? ==> TakeHit(st, hits[i], query) == Err(AmbiguousDuplicate)
  {
    hide Ids;
    hide MergeHit;
    hide AddFocus;
    assert st.retrieved + hits[i..i] == st.retrieved;
  }

  /** Some hit that is looked at contradicts what is known of its chunk. */
  ghost predicate HasContradiction(st: State, hits: seq<Hit>, i: nat, quota: nat)
    requires i <= |hits|
  {
    exists j :: i <= j < |hits| && LookedAt(Ids(st.retrieved), hits, i, j, quota) && Contradicts(st.retrieved, hits, i, j)
  }

  lemma ContradictionStep(st: State, hits: seq<Hit>, i: nat, quota: nat, query: string, next: State)
    requires i < |hits| && quota > 0 && TakeHit(st, hits[i], query) == Ok(next)
    ensures HasContradiction(st, hits, i, quota) <==> HasContradiction(next, hits, i + 1, if IsKnown(st, hits[i]) then quota else quota - 1)
  {
    hide Ids;
    hide TakeHit;
    hide NewChunks;
    hide IsKnown;
    hide Contradicts;
    ContradictionNow(st, hits, i, query);
    TakeHitIds(st, hits[i], query);
    var later := if IsKnown(st, hits[i]) then quota else quota - 1;
    forall j | i < j < |hits|
      ensures LookedAt(Ids(st.retrieved), hits, i, j, quota) <==> LookedAt(Ids(next.retrieved), hits, i + 1, j, later)
      ensures Contradicts(st.retrieved, hits, i, j) <==> Contradicts(next.retrieved, hits, i + 1, j)
    {
      NewChunksStep(st, hits, i, j, Ids(next.retrieved));
      KnownIdentityStays(st, hits, i, j, query, next);
    }
    if HasContradiction(st, hits, i, quota) {
      var j :| i <= j < |hits| && LookedAt(Ids(st.retrieved), hits, i, j, quota) && Contradicts(st.retrieved, hits, i, j);
      assert i + 1 <= j;
      assert LookedAt(Ids(next.retrieved), hits, i + 1, j, later) && Contradicts(next.retrieved, hits, i + 1, j);
    }
    if HasContradiction(next, hits, i + 1, later) {
      var j :| i + 1 <= j < |hits| && LookedAt(Ids(next.retrieved), hits, i + 1, j, later) && Contradicts(next.retrieved, hits, i + 1, j);
      assert LookedAt(Ids(st.retrieved), hits, i, j, quota) && Contradicts(st.retrieved, hits, i, j);
    }
  }

  // ----- the order of the chunks

  lemma DedupeKnown(known: seq<string>, id: string, rest: seq<string>)
    requires id in known
    ensures Dedupe(known + [id] + rest) == Dedupe(known + rest)
  {
    DedupeConcat(known + [id], rest);
    DedupeConcat(known, rest);
    assert (known + [id])[..|known|] == known;
  }

  /** The chunks after a search: those known before, then the new ones in the order of their first hits. */
  lemma {:induction false} ChunksInOrder(st: State, hits: seq<Hit>, i: nat, c: nat, quota: nat, query: string)
    requires i <= c <= |hits| && Keyed(st.retrieved) && Accept(st, hits, i, quota, query).Ok?
    requires StopsAt(Ids(st.retrieved), hits, i, c, quota)
    ensures Ids(Accept(st, hits, i, quota, query).value.retrieved) == Dedupe(Ids(st.retrieved) + Ids(hits[i..c]))
    decreases |hits| - i
  {
    hide Ids;
    hide TakeHit;
    hide NewChunks;
    hide IsKnown;
    var known := Ids(st.retrieved);
    if i == |hits| || quota == 0 {
      if i < c { FirstIsLookedAt(known, hits, i, c, quota); }
      assert hits[i..c] == [];
      NoIds();
      assert known + [] == known;
      DedupeOfDistinct(known);
    } else {
      NothingNew(known, hits, i);
      assert |NewChunks(known, hits, i, i)| == 0;
      assert i < c;
      var next := TakeHit(st, hits[i], query).value;
      TakeHitIds(st, hits[i], query);
      TakeKeepsKeyed(st, hits[i], query);
      StopsLater(st, hits, i, c, quota, Ids(next.retrieved));
      ChunksInOrder(next, hits, i + 1, c, if IsKnown(st, hits[i]) then quota else quota - 1, query);
      IdsOfSlice(hits, i, c);
      var rest := Ids(hits[i + 1..c]);
      assert known + ([hits[i].id] + rest) == known + [hits[i].id] + rest;
      if IsKnown(st, hits[i]) {
        IsKnownMeans(st, hits[i]);
        DedupeKnown(known, hits[i].id, rest);
        assert known + [] == known;
      }
    }
  }

  lemma FirstIsLookedAt(known: seq<string>, hits: seq<Hit>, i: nat, c: nat, quota: nat)
    requires i < c <= |hits| && StopsAt(known, hits, i, c, quota)
    ensures quota > 0
  {
    assert LookedAt(known, hits, i, i, quota);
  }

  lemma IsKnownMeans(st: State, hit: Hit)
    ensures IsKnown(st, hit) <==> hit.id in Ids(st.retrieved)
  {
  }

  lemma NoIds()
    ensures Ids([]) == []
  {
  }

  lemma IdsOfSlice(hits: seq<Hit>, i: nat, c: nat)
    requires i < c <= |hits|
    ensures Ids(hits[i..c]) == [hits[i].id] + Ids(hits[i + 1..c])
  {
  }

  lemma TakeKeepsKeyed(st: State, hit: Hit, query: string)
    requires Keyed(st.retrieved) && TakeHit(st, hit, query).Ok?
    ensures Keyed(TakeHit(st, hit, query).value.retrieved)
  {
    hide Ids;
    hide TakeHit;
    TakeHitIds(st, hit, query);
    var known := Ids(st.retrieved);
    IsKnownMeans(st, hit);
    assert known + [] == known;
  }

  lemma StopsLater(st: State, hits: seq<Hit>, i: nat, c: nat, quota: nat, next: seq<string>)
    requires i < c <= |hits| && quota > 0 && next == Ids(st.retrieved) + (if IsKnown(st, hits[i]) then [] else [hits[i].id])
    requires StopsAt(Ids(st.retrieved), hits, i, c, quota)
    ensures StopsAt(next, hits, i + 1, c, if IsKnown(st, hits[i]) then quota else quota - 1)
  {
    hide NewChunks;
    hide Ids;
    hide IsKnown;
    var later := if IsKnown(st, hits[i]) then quota else quota - 1;
    var from := i + 1;
    forall j | from <= j < c ensures LookedAt(next, hits, from, j, later) {
      NewChunksStep(st, hits, i, j, next);
      assert LookedAt(Ids(st.retrieved), hits, i, j, quota);
    }
    NewChunksStep(st, hits, i, c, next);
  }

  // ----- merged metadata

  predicate Says(text: Option<string>) {
    text.Some? && Strip(text.value) != ""
  }

  /** Merged metadata has the stripped texts of both that say something, once when they are the same. */
  lemma MergeTextIs(first: Option<string>, second: Option<string>)
    ensures MergeText(first, second).None? <==> !Says(first) && !Says(second)
    ensures Says(first) && !Says(second) ==> MergeText(first, second) == Some(Strip(first.value))
    ensures Says(second) && !Says(first) ==> MergeText(first, second) == Some(Strip(second.value))
    ensures Says(first) && Says(second) ==>
              var a, b := Strip(first.value), Strip(second.value);
              MergeText(first, second) == Some(if a == b then a else a + " | " + b)
  {
    hide Strip;
  }

  /** Accepting a search's hits: it fails exactly when a hit that is looked at contradicts an earlier hit of
      its chunk, and otherwise every chunk's entry holds what was known and looked at of it. */
  lemma {:induction false} AcceptMeaning(st: State, hits: seq<Hit>, i: nat, quota: nat, query: string) returns (c: nat)
    requires i <= |hits|
    ensures i <= c <= |hits|
    ensures var r := Accept(st, hits, i, quota, query);
            && (r.Err? <==> HasContradiction(st, hits, i, quota)) && (r.Err? ==> r == Err(AmbiguousDuplicate))
            && (r.Ok? ==> StopsAt(Ids(st.retrieved), hits, i, c, quota) && HasTaken(st, hits, i, c, query, r.value))
    decreases |hits| - i
  {
    hide Ids;
    hide TakeHit;
    hide HasTaken;
    hide NewChunks;
    hide IsKnown;
    hide HasContradiction;
    hide Contradicts;
    if i == |hits| || quota == 0 {
      c := i;
      NothingNew(Ids(st.retrieved), hits, i);
      NothingTaken(st, hits, i, query);
      assert !HasContradiction(st, hits, i, quota) by { NothingLookedAt(st, hits, i, quota); }
    } else {
      ContradictionNow(st, hits, i, query);
      var taken := TakeHit(st, hits[i], query);
      if taken.Err? {
        c := i;
        ContradictionAtOnce(st, hits, i, quota);
      } else {
        var next := taken.value;
        TakeHitIds(st, hits[i], query);
        ContradictionStep(st, hits, i, quota, query, next);
        c := AcceptMeaning(next, hits, i + 1, if IsKnown(st, hits[i]) then quota else quota - 1, query);
        if Accept(st, hits, i, quota, query).Ok? {
          StopsStep(st, hits, i, c, quota, Ids(next.retrieved));
          OneTaken(st, hits, i, c, query, next, Accept(st, hits, i, quota, query).value);
        }
      }
    }
  }

  lemma NothingLookedAt(st: State, hits: seq<Hit>, i: nat, quota: nat)
    requires i <= |hits| && (i == |hits| || quota == 0)
    ensures !HasContradiction(st, hits, i, quota)
  {
  }

  lemma ContradictionAtOnce(st: State, hits: seq<Hit>, i: nat, quota: nat)
    requires i < |hits| && quota > 0 && Contradicts(st.retrieved, hits, i, i)
    ensures HasContradiction(st, hits, i, quota)
  {
    NothingNew(Ids(st.retrieved), hits, i);
    assert LookedAt(Ids(st.retrieved), hits, i, i, quota);
  }
}
