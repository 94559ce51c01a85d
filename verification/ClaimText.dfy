/** Claims, truth markers and claim ids in text: src/soloscale/content_models.py and the patterns of
    src/soloscale/content_workspace.py. */
module ClaimText {
  import opened PyText

  datatype Status = Verified | Observed | Hypothesis | Planned

  datatype Claim = Claim(id: string, text: string, status: Status)

  datatype Brief = Brief(claims: seq<Claim>, cta: string)

  function StatusText(status: Status): (s: string) {
    match status
    case Verified => "VERIFIED"
    case Observed => "OBSERVED"
    case Hypothesis => "HYPOTHESIS"
    case Planned => "PLANNED"
  }

  // ----- claim ids

  const ID_PREFIX: string := "CLAIM-"
  const ID_LENGTH: nat := 8

  /** `CLAIM-[0-9]{2}`, the whole string. */
  predicate IsClaimId(s: string) {
    |s| == ID_LENGTH && s[..6] == ID_PREFIX && IsDigit(s[6]) && IsDigit(s[7])
  }

  predicate IsIdChar(c: char) {
    c in ID_PREFIX || IsDigit(c)
  }

  /** The claim ids a text names.  Two ids never overlap, so the pattern's matches are all occurrences. */
  function Mentions(s: string): (ids: set<string>) {
    set i | 0 <= i < |s| && IsClaimId(IdAt(s, i)) :: IdAt(s, i)
  }

  /** The eight characters at i, if there are so many. */
  function IdAt(s: string, i: nat): (id: string) {
    if i + ID_LENGTH <= |s| then s[i..i + ID_LENGTH] else ""
  }

  lemma IdCharsOf(id: string, k: nat)
    requires IsClaimId(id) && k < ID_LENGTH
    ensures IsIdChar(id[k])
  {
    if k < 6 { assert id[k] == id[..6][k]; }
  }

  lemma IsMention(s: string, i: nat)
    requires i + ID_LENGTH <= |s| && IsClaimId(s[i..i + ID_LENGTH])
    ensures s[i..i + ID_LENGTH] in Mentions(s)
  {
    assert IdAt(s, i) in Mentions(s);
  }

  lemma IdAvoids(s: string, i: nat, p: nat)
    requires p < |s| && !IsIdChar(s[p]) && IsClaimId(IdAt(s, i))
    ensures p < i || i + ID_LENGTH <= p
  {
    hide IsClaimId;
    hide IsIdChar;
    if i <= p < i + ID_LENGTH {
      assert IdAt(s, i) != "" by { ClaimIdLength(IdAt(s, i)); }
      assert IdAt(s, i)[p - i] == s[p];
      IdCharsOf(IdAt(s, i), p - i);
    }
  }

  lemma ClaimIdLength(id: string)
    requires IsClaimId(id)
    ensures |id| == ID_LENGTH
  {
  }

  /** A character that no id contains separates the ids of the texts around it. */
  lemma MentionsSplit(a: string, c: char, b: string)
    requires !IsIdChar(c)
    ensures Mentions(a + [c] + b) == Mentions(a) + Mentions(b)
  {
    hide IsClaimId;
    hide IsIdChar;
    var s := a + [c] + b;
    forall id | id in Mentions(s) ensures id in Mentions(a) + Mentions(b) {
      var i :| 0 <= i < |s| && IsClaimId(IdAt(s, i)) && id == IdAt(s, i);
      ClaimIdLength(id);
      if i + ID_LENGTH <= |a| {
        assert a[i..i + ID_LENGTH] == id;
        IsMention(a, i);
      } else {
        assert s[|a|] == c;
        IdAvoids(s, i, |a|);
        var j := i - |a| - 1;
        assert b[j..j + ID_LENGTH] == id;
        IsMention(b, j);
      }
    }
    forall id | id in Mentions(a) ensures id in Mentions(s) {
      var i :| 0 <= i < |a| && IsClaimId(IdAt(a, i)) && id == IdAt(a, i);
      ClaimIdLength(id);
      assert s[i..i + ID_LENGTH] == id;
      IsMention(s, i);
    }
    forall id | id in Mentions(b) ensures id in Mentions(s) {
      var j :| 0 <= j < |b| && IsClaimId(IdAt(b, j)) && id == IdAt(b, j);
      ClaimIdLength(id);
      var i := |a| + 1 + j;
      assert s[i..i + ID_LENGTH] == id;
      IsMention(s, i);
    }
  }

  /** Cutting a text adds no ids. */
  lemma MentionsOfSlice(s: string, a: nat, b: nat)
    requires a <= b <= |s|
    ensures Mentions(s[a..b]) <= Mentions(s)
  {
    var t := s[a..b];
    forall id | id in Mentions(t) ensures id in Mentions(s) {
      var i :| 0 <= i < |t| && IsClaimId(IdAt(t, i)) && id == IdAt(t, i);
      SliceOfSlice(s, a, b, i, i + ID_LENGTH);
      IsMention(s, a + i);
    }
  }

  // ----- occurrences

  /** `m in s`. */
  predicate Occurs(m: string, s: string) {
    exists i :: 0 <= i <= |s| && OccursAt(s, m, i)
  }

  lemma OccursFrom(m: string, s: string, i: nat)
    requires i + |m| <= |s| && s[i..i + |m|] == m
    ensures Occurs(m, s)
  {
    assert OccursAt(s, m, i);
  }

  /** An occurrence stays when text is put around it. */
  lemma OccursWithin(m: string, a: string, s: string, b: string)
    requires Occurs(m, s)
    ensures Occurs(m, a + s + b)
  {
    var i :| 0 <= i <= |s| && OccursAt(s, m, i);
    var t := a + s + b;
    assert t[|a| + i..|a| + i + |m|] == s[i..i + |m|];
    OccursFrom(m, t, |a| + i);
  }

  predicate NonBlankEnds(m: string) {
    m != "" && !IsSpace(m[0]) && !IsSpace(m[|m| - 1])
  }

  /** Stripping keeps every occurrence of a text that starts and ends with something. */
  lemma StripKeepsOccurrence(m: string, s: string)
    requires Occurs(m, s) && NonBlankEnds(m)
    ensures Occurs(m, Strip(s))
  {
    hide IsSpace;
    StripIsSlice(s);
    var a, b := StripStart(s), StripEnd(s);
    var i :| 0 <= i <= |s| && OccursAt(s, m, i);
    assert s[i] == m[0] && s[i + |m| - 1] == m[|m| - 1];
    assert a <= i && i + |m| <= b;
    SliceOfSlice(s, a, b, i - a, i - a + |m|);
    OccursFrom(m, Strip(s), i - a);
  }

  /** Stripping a text that ends with something leaves that end. */
  lemma StripKeepsEnd(a: string, m: string)
    requires m != "" && Strip(m) == m
    ensures Occurs(m, Strip(a + m))
  {
    StripIsSlice(m);
    OccursFrom(m, a + m, |a|) by { assert (a + m)[|a|..|a| + |m|] == m; }
    StripKeepsOccurrence(m, a + m);
  }

  lemma OccurrenceAvoids(m: string, s: string, i: nat, p: nat)
    requires OccursAt(s, m, i) && p < |s| && s[p] !in m
    ensures p < i || i + |m| <= p
  {
    if i <= p < i + |m| { InSlice(s, i, i + |m|, p); }
  }

  lemma InSlice(s: string, i: nat, j: nat, p: nat)
    requires i <= p < j <= |s|
    ensures s[p] in s[i..j]
  {
    assert s[i..j][p - i] == s[p];
  }

  /** A text without c occurs in a + c + b exactly when it occurs in a or in b. */
  lemma OccursSplit(m: string, a: string, c: char, b: string)
    requires m != "" && c !in m
    ensures Occurs(m, a + [c] + b) <==> Occurs(m, a) || Occurs(m, b)
  {
    var s := a + [c] + b;
    if Occurs(m, a) {
      OccursWithin(m, "", a, [c] + b);
      assert "" + a + ([c] + b) == s;
    }
    if Occurs(m, b) {
      OccursWithin(m, a + [c], b, "");
      assert a + [c] + b + "" == s;
    }
    if Occurs(m, s) {
      var i :| 0 <= i <= |s| && OccursAt(s, m, i);
      if i + |m| <= |a| {
        OccursFrom(m, a, i);
      } else {
        assert s[|a|] == c;
        OccurrenceAvoids(m, s, i, |a|);
        var j := i - |a| - 1;
        SuffixSlice(a + [c], b, j, j + |m|);
        OccursFrom(m, b, j);
      }
    }
  }

  // ----- markers and lines

  /** `f"{claim.status.value} · {claim.id}"`. */
  function MarkerOf(c: Claim): (m: string) {
    StatusText(c.status) + " \U{B7} " + c.id
  }

  /** The marker and the claim's text. */
  function LineOf(c: Claim): (line: string) {
    MarkerOf(c) + " \U{2014} " + c.text
  }

  lemma MarkerEndsWithSomething(c: Claim)
    requires IsClaimId(c.id)
    ensures NonBlankEnds(MarkerOf(c)) && '\n' !in MarkerOf(c)
  {
    var m := MarkerOf(c);
    assert m[0] == StatusText(c.status)[0];
    assert m[|m| - 1] == c.id[7];
    forall k | 0 <= k < |c.id| ensures c.id[k] != '\n' { IdCharsOf(c.id, k); }
    assert '\n' !in StatusText(c.status) && '\n' !in " \U{B7} ";
  }

  lemma LineHasMarker(c: Claim)
    ensures Occurs(MarkerOf(c), LineOf(c))
  {
    hide MarkerOf;
    var line := LineOf(c);
    assert line[0..|MarkerOf(c)|] == MarkerOf(c);
    OccursFrom(MarkerOf(c), line, 0);
  }

  /** A text with a claim's marker names the claim. */
  lemma MarkerNamesClaim(c: Claim, s: string)
    requires IsClaimId(c.id) && Occurs(MarkerOf(c), s)
    ensures c.id in Mentions(s)
  {
    var m := MarkerOf(c);
    var i :| 0 <= i <= |s| && OccursAt(s, m, i);
    var j := |m| - ID_LENGTH;
    assert m[j..j + ID_LENGTH] == c.id;
    SliceOfSlice(s, i, i + |m|, j, j + ID_LENGTH);
    IsMention(s, i + j);
  }

  lemma NothingMentioned(s: string)
    requires |s| < ID_LENGTH
    ensures Mentions(s) == {}
  {
  }

  lemma StatusNamesNothing(status: Status)
    ensures Mentions(StatusText(status)) == {}
  {
    var s := StatusText(status);
    forall i | 0 <= i < |s| ensures !IsClaimId(IdAt(s, i)) {
      assert ID_PREFIX[0] == 'C';
      assert IdAt(s, i) != "" ==> IdAt(s, i)[..6][0] == s[i] != 'C';
    }
  }

  /** A line names its claim and what the claim's text names. */
  lemma LineMentions(c: Claim)
    requires IsClaimId(c.id)
    ensures Mentions(LineOf(c)) == {c.id} + Mentions(c.text)
  {
    hide Mentions;
    var head, dot, dash := StatusText(c.status), " \U{B7}", "\U{2014} ";
    assert LineOf(c) == (head + dot + " " + c.id) + " " + (dash + c.text);
    MentionsSplit(head + dot + " " + c.id, ' ', dash + c.text);
    MentionsSplit(head + dot, ' ', c.id);
    MentionsSplit(head, ' ', "\U{B7}");
    assert head + dot == head + " " + "\U{B7}";
    MentionsSplit("\U{2014}", ' ', c.text);
    assert dash + c.text == "\U{2014}" + " " + c.text;
    StatusNamesNothing(c.status);
    NothingMentioned("\U{B7}");
    NothingMentioned("\U{2014}");
    IdNamesItself(c.id);
  }

  lemma IdNamesItself(id: string)
    requires IsClaimId(id)
    ensures Mentions(id) == {id}
  {
    assert id[0..ID_LENGTH] == id;
    IsMention(id, 0);
  }

  // ----- a brief whose own texts name only its claims

  function AllowedIds(b: Brief): (ids: set<string>) {
    set c | c in b.claims :: c.id
  }

  /** The brief's claims have claim ids. */
  predicate HasClaimIds(b: Brief) {
    forall k :: 0 <= k < |b.claims| ==> IsClaimId(b.claims[k].id)
  }

  /** No claim text and no call to action names a foreign claim; the call to action is one trimmed line. */
  predicate SafeBrief(b: Brief) {
    && HasClaimIds(b) && b.claims != []
    && (forall k :: 0 <= k < |b.claims| ==> Mentions(b.claims[k].text) <= AllowedIds(b))
    && Mentions(b.cta) <= AllowedIds(b)
    && b.cta != "" && Strip(b.cta) == b.cta && '\n' !in b.cta
  }

  /** What the validator asks of a text: exactly the brief's claim ids, every marker, and the call to action. */
  predicate ValidArtifact(b: Brief, value: string) {
    && Mentions(value) == AllowedIds(b)
    && (forall k :: 0 <= k < |b.claims| ==> Occurs(MarkerOf(b.claims[k]), value))
    && Occurs(b.cta, value)
  }
}
