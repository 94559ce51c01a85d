/** Focus spans of src/soloscale/evidence_agent.py: folding a text for accent- and case-insensitive
    search, finding query terms in the folded text, and merging the matches into separated spans of
    the original text. */
module FocusSpans {
  import opened PyText
  import opened Sorting

  const MAX_FOCUS_MATCH_SPANS: nat := 128

  /** Positions [start, end) of a text. */
  datatype Span = Span(start: nat, end: nat)

  /** Case folding followed by canonical decomposition of one character, and the test for combining
      marks.  Any Unicode tables will do. */
  datatype Folding = Folding(normalize: char -> string, combining: char -> bool)

  // ----- folding

  function WithoutMarks(f: Folding, s: string): (r: string) {
    if s == "" then ""
    else
      var n := |s| - 1;
      WithoutMarks(f, s[..n]) + if f.combining(s[n]) then "" else [s[n]]
  }

  function FoldChar(f: Folding, c: char): (r: string) {
    WithoutMarks(f, f.normalize(c))
  }

  function Folded(f: Folding, text: string): (r: string) {
    if text == "" then ""
    else var n := |text| - 1; Folded(f, text[..n]) + FoldChar(f, text[n])
  }

  /** For each folded character, the index of the original character it came from. */
  function FoldIndex(f: Folding, text: string): (r: seq<nat>)
    ensures |r| == |Folded(f, text)|
  {
    if text == "" then []
    else
      var n := |text| - 1;
      FoldIndex(f, text[..n]) + seq(|FoldChar(f, text[n])|, _ => n)
  }

  method FoldedFocusText(f: Folding, text: string) returns (folded: string, indexes: seq<nat>)
    ensures folded == Folded(f, text) && indexes == FoldIndex(f, text)
  {
    folded, indexes := "", [];
    for i := 0 to |text|
      invariant folded == Folded(f, text[..i]) && indexes == FoldIndex(f, text[..i])
    {
      var normalized := f.normalize(text[i]);
      ghost var before, indexesBefore := folded, indexes;
      for j := 0 to |normalized|
        invariant folded == before + WithoutMarks(f, normalized[..j])
        invariant indexes == indexesBefore + seq(|WithoutMarks(f, normalized[..j])|, _ => i)
      {
        assert normalized[..j + 1][..j] == normalized[..j];
        if f.combining(normalized[j]) {
          continue;
        }
        folded := folded + [normalized[j]];
        indexes := indexes + [i];
      }
      assert normalized[..|normalized|] == normalized;
      assert text[..i + 1][..i] == text[..i];
    }
    assert text[..|text|] == text;
  }

  lemma {:induction false} FoldedAppend(f: Folding, s: string, t: string)
    ensures Folded(f, s + t) == Folded(f, s) + Folded(f, t)
  {
    if t == "" {
      assert s + t == s;
    } else {
      var n := |t| - 1;
      assert (s + t)[..|s| + n] == s + t[..n];
      FoldedAppend(f, s, t[..n]);
    }
  }

  /** How many folded characters the first i characters produce. */
  function FoldOffset(f: Folding, text: string, i: nat): (k: nat)
    requires i <= |text|
  {
    |Folded(f, text[..i])|
  }

  lemma FoldOffsetMonotone(f: Folding, text: string, i: nat, j: nat)
    requires i <= j <= |text|
    ensures FoldOffset(f, text, i) <= FoldOffset(f, text, j)
  {
    assert text[..j] == text[..i] + text[i..j];
    FoldedAppend(f, text[..i], text[i..j]);
  }

  /** Folded position k comes from character i exactly when it lies among the characters i produces. */
  lemma {:induction false} FoldIndexCorrect(f: Folding, text: string, k: nat)
    requires k < |Folded(f, text)|
    ensures var i := FoldIndex(f, text)[k];
            i < |text| && FoldOffset(f, text, i) <= k < FoldOffset(f, text, i + 1)
  {
    var n := |text| - 1;
    var before := Folded(f, text[..n]);
    assert text[..n + 1] == text;
    if k < |before| {
      FoldIndexCorrect(f, text[..n], k);
      var i := FoldIndex(f, text[..n])[k];
      assert FoldIndex(f, text)[k] == i;
      assert text[..n][..i] == text[..i] && text[..n][..i + 1] == text[..i + 1];
    }
  }

  lemma FoldIndexMonotone(f: Folding, text: string, j: nat, k: nat)
    requires j <= k < |Folded(f, text)|
    ensures FoldIndex(f, text)[j] <= FoldIndex(f, text)[k] < |text|
  {
    FoldIndexCorrect(f, text, j);
    FoldIndexCorrect(f, text, k);
    var a, b := FoldIndex(f, text)[j], FoldIndex(f, text)[k];
    if b < a {
      FoldOffsetMonotone(f, text, b + 1, a);
    }
  }

  // ----- searching

  /** `str.find`: the first occurrence at or after `from`, or -1. */
  function Find(hay: string, needle: string, from: nat): (at: int)
    ensures at == -1 || from <= at <= |hay| - |needle|
    decreases |hay| - from
  {
    if from + |needle| > |hay| then -1
    else if OccursAt(hay, needle, from) then from
    else Find(hay, needle, from + 1)
  }

  lemma {:induction false} FindIsFirst(hay: string, needle: string, from: nat)
    ensures Find(hay, needle, from) >= 0 ==> OccursAt(hay, needle, Find(hay, needle, from))
    ensures forall p :: from <= p && OccursAt(hay, needle, p) ==> 0 <= Find(hay, needle, from) <= p
    decreases |hay| - from
  {
    if from + |needle| <= |hay| && !OccursAt(hay, needle, from) {
      FindIsFirst(hay, needle, from + 1);
    }
  }

  /** An occurrence in the folded text. */
  datatype Match = Match(at: nat, length: nat)

  predicate InRange(n: nat, matches: seq<Match>) {
    forall i :: 0 <= i < |matches| ==> matches[i].length > 0 && matches[i].at + matches[i].length <= n
  }

  /** Successive non-overlapping occurrences of a needle, at most `room` of them. */
  function Occurrences(hay: string, needle: string, from: nat, room: nat): (matches: seq<Match>)
    requires needle != ""
    ensures |matches| <= room && InRange(|hay|, matches)
    decreases room
  {
    if room == 0 then []
    else
      var p := Find(hay, needle, from);
      if p < 0 then [] else [Match(p, |needle|)] + Occurrences(hay, needle, p + |needle|, room - 1)
  }

  /** The occurrences of all terms, term by term, at most `room` of them. */
  function AllMatches(f: Folding, hay: string, terms: seq<string>, room: nat): (matches: seq<Match>)
    ensures |matches| <= room && InRange(|hay|, matches)
  {
    if terms == [] then []
    else
      var needle := Folded(f, terms[0]);
      if needle == "" then AllMatches(f, hay, terms[1..], room)
      else
        var found := Occurrences(hay, needle, 0, room);
        found + AllMatches(f, hay, terms[1..], room - |found|)
  }

  /** From the original character of the first matched folded character to that of the last. */
  function SpanOf(indexes: seq<nat>, m: Match): (s: Span)
    requires m.length > 0 && m.at + m.length <= |indexes|
  {
    Span(indexes[m.at], indexes[m.at + m.length - 1] + 1)
  }

  function SpansOf(indexes: seq<nat>, matches: seq<Match>): (spans: seq<Span>)
    requires InRange(|indexes|, matches)
  {
    seq(|matches|, i requires 0 <= i < |matches| => SpanOf(indexes, matches[i]))
  }

  /** Longer terms first, then alphabetically. */
  predicate TermLe(a: string, b: string) {
    |a| > |b| || (|a| == |b| && TextLe(a, b))
  }

  lemma {:induction false} OccurrencesAreNeedles(hay: string, needle: string, from: nat, room: nat)
    requires needle != ""
    ensures forall m :: m in Occurrences(hay, needle, from, room) ==>
              m.length == |needle| && OccursAt(hay, needle, m.at)
    decreases room
  {
    if room > 0 && Find(hay, needle, from) >= 0 {
      FindIsFirst(hay, needle, from);
      OccurrencesAreNeedles(hay, needle, Find(hay, needle, from) + |needle|, room - 1);
    }
  }

  /** The match is an occurrence of the folded term. */
  predicate Matches(f: Folding, hay: string, t: string, m: Match) {
    Folded(f, t) != "" && m.length == |Folded(f, t)| && OccursAt(hay, Folded(f, t), m.at)
  }

  /** Every match reported is an occurrence of some folded term. */
  lemma {:induction false} MatchesAreTerms(f: Folding, hay: string, terms: seq<string>, room: nat, m: Match)
    requires m in AllMatches(f, hay, terms, room)
    ensures exists t :: t in terms && Matches(f, hay, t, m)
  {
    var needle := Folded(f, terms[0]);
    if needle == "" {
      MatchesAreTerms(f, hay, terms[1..], room, m);
    } else {
      var found := Occurrences(hay, needle, 0, room);
      OccurrencesAreNeedles(hay, needle, 0, room);
      if m in found {
        assert Matches(f, hay, terms[0], m);
      } else {
        MatchesAreTerms(f, hay, terms[1..], room - |found|, m);
      }
    }
  }

  /** Two occurrences share a folded position. */
  predicate Touch(a: Match, b: Match) {
    a.at < b.at + b.length && b.at < a.at + a.length
  }

  ghost predicate Touched(matches: seq<Match>, m: Match) {
    exists i :: 0 <= i < |matches| && Touch(matches[i], m)
  }

  lemma TouchedInConcat(a: seq<Match>, b: seq<Match>, m: Match)
    requires Touched(a, m) || Touched(b, m)
    ensures Touched(a + b, m)
  {
    if Touched(a, m) {
      var i :| 0 <= i < |a| && Touch(a[i], m);
      assert (a + b)[i] == a[i];
    } else {
      var i :| 0 <= i < |b| && Touch(b[i], m);
      assert (a + b)[|a| + i] == b[i];
    }
  }

  lemma {:induction false} OccurrencesComplete(hay: string, needle: string, from: nat, room: nat, p: nat)
    requires needle != "" && from <= p && OccursAt(hay, needle, p)
    requires |Occurrences(hay, needle, from, room)| < room
    ensures Touched(Occurrences(hay, needle, from, room), Match(p, |needle|))
    decreases room
  {
    FindIsFirst(hay, needle, from);
    var q := Find(hay, needle, from);
    var first := [Match(q, |needle|)];
    var rest := Occurrences(hay, needle, q + |needle|, room - 1);
    if q + |needle| <= p {
      OccurrencesComplete(hay, needle, q + |needle|, room - 1, p);
    } else {
      assert Touch(first[0], Match(p, |needle|));
    }
    TouchedInConcat(first, rest, Match(p, |needle|));
  }

  /** Below the cap no occurrence of any term is missed: each shares a position with a match. */
  lemma {:induction false} MatchesComplete(f: Folding, hay: string, terms: seq<string>, room: nat, t: string, m: Match)
    requires |AllMatches(f, hay, terms, room)| < room && t in terms && Matches(f, hay, t, m)
    ensures Touched(AllMatches(f, hay, terms, room), m)
  {
    hide Occurrences;
    hide Touched;
    var needle := Folded(f, terms[0]);
    if needle == "" {
      MatchesComplete(f, hay, terms[1..], room, t, m);
    } else {
      var found := Occurrences(hay, needle, 0, room);
      if t == terms[0] {
        OccurrencesComplete(hay, needle, 0, room, m.at);
      } else {
        MatchesComplete(f, hay, terms[1..], room - |found|, t, m);
      }
      TouchedInConcat(found, AllMatches(f, hay, terms[1..], room - |found|), m);
    }
  }

  // ----- merging

  predicate SpanLe(a: Span, b: Span) {
    a.start < b.start || (a.start == b.start && a.end <= b.end)
  }

  function MergeStep(merged: seq<Span>, s: Span): (r: seq<Span>) {
    var n := |merged|;
    if n == 0 || s.start > merged[n - 1].end then merged + [s]
    else merged[n - 1 := Span(merged[n - 1].start, Max(merged[n - 1].end, s.end))]
  }

  /** The first i spans merged, taken in the order given. */
  function MergeUpTo(spans: seq<Span>, i: nat): (r: seq<Span>)
    requires i <= |spans|
  {
    if i == 0 then [] else MergeStep(MergeUpTo(spans, i - 1), spans[i - 1])
  }

  function Merged(spans: seq<Span>): (r: seq<Span>) {
    var sorted := Sort(spans, SpanLe);
    MergeUpTo(sorted, |sorted|)
  }

  method MergeSpans(spans: seq<Span>) returns (merged: seq<Span>)
    ensures merged == Merged(spans)
  {
    merged := [];
    var sorted := Sort(spans, SpanLe);
    for i := 0 to |sorted|
      invariant merged == MergeUpTo(sorted, i)
    {
      var s := sorted[i];
      if merged == [] || s.start > merged[|merged| - 1].end {
        merged := merged + [s];
        continue;
      }
      var previous := merged[|merged| - 1];
      merged := merged[|merged| - 1 := Span(previous.start, Max(previous.end, s.end))];
    }
  }

  ghost predicate Proper(spans: seq<Span>) {
    forall i :: 0 <= i < |spans| ==> spans[i].start < spans[i].end
  }

  /** In order, with a gap after each span. */
  ghost predicate Separated(spans: seq<Span>) {
    && Proper(spans)
    && forall i, j :: 0 <= i < j < |spans| ==> spans[i].end < spans[j].start
  }

  /** Position x lies in one of the spans. */
  ghost predicate Inside(spans: seq<Span>, x: int) {
    exists i :: 0 <= i < |spans| && spans[i].start <= x < spans[i].end
  }

  lemma InsideConcat(a: seq<Span>, b: seq<Span>, x: int)
    ensures Inside(a + b, x) <==> Inside(a, x) || Inside(b, x)
  {
    if Inside(a, x) {
      var i :| 0 <= i < |a| && a[i].start <= x < a[i].end;
      assert (a + b)[i] == a[i];
    }
    if Inside(b, x) {
      var i :| 0 <= i < |b| && b[i].start <= x < b[i].end;
      assert (a + b)[|a| + i] == b[i];
    }
  }

  lemma InsideOne(s: Span, x: int)
    ensures Inside([s], x) <==> s.start <= x < s.end
  {
    assert [s][0] == s;
  }

  lemma MergeStepCovers(merged: seq<Span>, s: Span, x: int)
    requires merged != [] ==> merged[|merged| - 1].start <= s.start
    ensures Inside(MergeStep(merged, s), x) <==> Inside(merged, x) || s.start <= x < s.end
  {
    var n, r := |merged|, MergeStep(merged, s);
    if n == 0 || s.start > merged[n - 1].end {
      InsideConcat(merged, [s], x);
      InsideOne(s, x);
    } else {
      if Inside(merged, x) {
        var i :| 0 <= i < n && merged[i].start <= x < merged[i].end;
        assert r[i].start <= x < r[i].end;
      }
      if s.start <= x < s.end {
        assert r[n - 1].start <= x < r[n - 1].end;
      }
      if Inside(r, x) && !Inside(merged, x) {
        var i :| 0 <= i < n && r[i].start <= x < r[i].end;
        assert i == n - 1;
      }
    }
  }

  lemma MergeStepSeparated(merged: seq<Span>, s: Span)
    requires Separated(merged) && s.start < s.end
    requires merged != [] ==> merged[|merged| - 1].start <= s.start
    ensures Separated(MergeStep(merged, s))
    ensures var r := MergeStep(merged, s); r != [] && r[|r| - 1].start <= s.start
  {
    var n, r := |merged|, MergeStep(merged, s);
    forall i, j | 0 <= i < j < |r| ensures r[i].end < r[j].start {
      if j < n {
        assert r[i] == merged[i] && r[j].start == merged[j].start;
      } else if i < n - 1 {
        assert merged[i].end < merged[n - 1].start;
      }
    }
  }

  lemma {:induction false} MergeUpToSeparated(spans: seq<Span>, i: nat)
    requires i <= |spans| && Sorted(spans, SpanLe) && Proper(spans)
    ensures Separated(MergeUpTo(spans, i))
    ensures i > 0 ==> MergeUpTo(spans, i) != [] && MergeUpTo(spans, i)[|MergeUpTo(spans, i)| - 1].start <= spans[i - 1].start
  {
    if i > 0 {
      MergeUpToSeparated(spans, i - 1);
      if i > 1 { assert SpanLe(spans[i - 2], spans[i - 1]); }
      MergeStepSeparated(MergeUpTo(spans, i - 1), spans[i - 1]);
    }
  }

  lemma {:induction false} MergeUpToCovers(spans: seq<Span>, i: nat, x: int)
    requires i <= |spans| && Sorted(spans, SpanLe) && Proper(spans)
    ensures Inside(MergeUpTo(spans, i), x) <==> InsideUpTo(spans, i, x)
  {
    hide MergeStep;
    hide Inside;
    hide Separated;
    if i > 0 {
      MergeUpToCovers(spans, i - 1, x);
      MergeUpToSeparated(spans, i - 1);
      if i > 1 { assert SpanLe(spans[i - 2], spans[i - 1]); }
      MergeStepCovers(MergeUpTo(spans, i - 1), spans[i - 1], x);
    } else {
      assert !Inside([], x) by { NothingInside(x); }
    }
  }

  lemma NothingInside(x: int)
    ensures !Inside([], x)
  {
  }

  ghost predicate InsideUpTo(spans: seq<Span>, i: nat, x: int)
    requires i <= |spans|
  {
    exists k :: 0 <= k < i && spans[k].start <= x < spans[k].end
  }

  /** Merging gives separated spans that cover exactly the same positions. */
  lemma MergedCorrect(spans: seq<Span>)
    requires Proper(spans)
    ensures Separated(Merged(spans))
    ensures forall x :: Inside(Merged(spans), x) <==> Inside(spans, x)
  {
    var sorted := Sort(spans, SpanLe);
    SortSorted(spans, SpanLe);
    SortKeepsMembers(spans, SpanLe);
    forall i | 0 <= i < |sorted| ensures sorted[i].start < sorted[i].end {
      assert sorted[i] in spans;
    }
    MergeUpToSeparated(sorted, |sorted|);
    forall x ensures Inside(Merged(spans), x) <==> Inside(spans, x) {
      MergeUpToCovers(sorted, |sorted|, x);
      SameMembersSameInside(sorted, spans, x);
      SameMembersSameInside(spans, sorted, x);
    }
  }

  lemma SameMembersSameInside(a: seq<Span>, b: seq<Span>, x: int)
    requires forall s :: s in a ==> s in b
    ensures Inside(a, x) ==> Inside(b, x)
  {
    if Inside(a, x) {
      var i :| 0 <= i < |a| && a[i].start <= x < a[i].end;
      assert a[i] in b;
    }
  }

  // ----- the focus spans of a text

  /** The matches of a term list in a text, before merging. */
  function TextMatches(f: Folding, text: string, terms: seq<string>): (matches: seq<Match>)
    ensures InRange(|FoldIndex(f, text)|, matches)
  {
    AllMatches(f, Folded(f, text), Sort(terms, TermLe), MAX_FOCUS_MATCH_SPANS)
  }

  function TextSpans(f: Folding, text: string, terms: seq<string>): (spans: seq<Span>) {
    AllTermSpans(f, Folded(f, text), FoldIndex(f, text), Sort(terms, TermLe), MAX_FOCUS_MATCH_SPANS)
  }

  function FocusSpansOf(f: Folding, text: string, terms: seq<string>): (spans: seq<Span>) {
    Merged(TextSpans(f, text, terms))
  }

  /** The spans of successive occurrences of one needle, at most `room` of them. */
  function TermSpans(hay: string, indexes: seq<nat>, needle: string, from: nat, room: nat): (spans: seq<Span>)
    requires needle != "" && |indexes| == |hay|
    ensures |spans| <= room
    decreases room
  {
    if room == 0 then []
    else
      var p := Find(hay, needle, from);
      if p < 0 then []
      else [Span(indexes[p], indexes[p + |needle| - 1] + 1)] + TermSpans(hay, indexes, needle, p + |needle|, room - 1)
  }

  /** The spans of all terms, term by term, at most `room` of them. */
  function AllTermSpans(f: Folding, hay: string, indexes: seq<nat>, terms: seq<string>, room: nat): (spans: seq<Span>)
    requires |indexes| == |hay|
    ensures |spans| <= room
  {
    if terms == [] then []
    else
      var needle := Folded(f, terms[0]);
      if needle == "" then AllTermSpans(f, hay, indexes, terms[1..], room)
      else
        var here := TermSpans(hay, indexes, needle, 0, room);
        here + AllTermSpans(f, hay, indexes, terms[1..], room - |here|)
  }

  lemma {:induction false} TermSpansAreMatches(hay: string, indexes: seq<nat>, needle: string, from: nat, room: nat)
    requires needle != "" && |indexes| == |hay|
    ensures TermSpans(hay, indexes, needle, from, room) == SpansOf(indexes, Occurrences(hay, needle, from, room))
    decreases room
  {
    if room > 0 && Find(hay, needle, from) >= 0 {
      var p := Find(hay, needle, from);
      TermSpansAreMatches(hay, indexes, needle, p + |needle|, room - 1);
      SpansOfConcat(indexes, [Match(p, |needle|)], Occurrences(hay, needle, p + |needle|, room - 1));
    }
  }

  lemma {:induction false} AllTermSpansAreMatches(f: Folding, hay: string, indexes: seq<nat>, terms: seq<string>, room: nat)
    requires |indexes| == |hay|
    ensures AllTermSpans(f, hay, indexes, terms, room) == SpansOf(indexes, AllMatches(f, hay, terms, room))
  {
    hide TermSpans;
    hide Occurrences;
    hide Folded;
    if terms != [] {
      var needle := Folded(f, terms[0]);
      if needle == "" {
        AllTermSpansAreMatches(f, hay, indexes, terms[1..], room);
      } else {
        var here := Occurrences(hay, needle, 0, room);
        TermSpansAreMatches(hay, indexes, needle, 0, room);
        AllTermSpansAreMatches(f, hay, indexes, terms[1..], room - |here|);
        SpansOfConcat(indexes, here, AllMatches(f, hay, terms[1..], room - |here|));
      }
    }
  }

  /** The search for one term, continuing the list of spans found so far. */
  method FindTerm(hay: string, indexes: seq<nat>, needle: string, before: seq<Span>) returns (found: seq<Span>)
    requires needle != "" && |indexes| == |hay| && |before| <= MAX_FOCUS_MATCH_SPANS
    ensures found == before + TermSpans(hay, indexes, needle, 0, MAX_FOCUS_MATCH_SPANS - |before|)
  {
    hide Find;
    found := before;
    var searchFrom: nat := 0;
    ghost var all := before + TermSpans(hay, indexes, needle, 0, MAX_FOCUS_MATCH_SPANS - |before|);
    ghost var rest := TermSpans(hay, indexes, needle, 0, MAX_FOCUS_MATCH_SPANS - |before|);
    while |found| < MAX_FOCUS_MATCH_SPANS
      invariant |found| <= MAX_FOCUS_MATCH_SPANS
      invariant rest == TermSpans(hay, indexes, needle, searchFrom, MAX_FOCUS_MATCH_SPANS - |found|)
      invariant all == found + rest
      decreases MAX_FOCUS_MATCH_SPANS - |found|
    {
      var position := Find(hay, needle, searchFrom);
      if position < 0 {
        return;
      }
      var span := Span(indexes[position], indexes[position + |needle| - 1] + 1);
      rest := TermSpans(hay, indexes, needle, position + |needle|, MAX_FOCUS_MATCH_SPANS - |found| - 1);
      Reassociate(found, [span], rest);
      found := found + [span];
      searchFrom := position + |needle|;
    }
  }

  method FocusMatchSpans(f: Folding, text: string, terms: seq<string>) returns (spans: seq<Span>)
    ensures spans == FocusSpansOf(f, text, terms)
  {
    var sortedTerms := Sort(terms, TermLe);
    var hay, indexes := FoldedFocusText(f, text);
    var found := FindTerms(f, hay, indexes, sortedTerms);
    spans := MergeSpans(found);
  }

  method FindTerms(f: Folding, hay: string, indexes: seq<nat>, sortedTerms: seq<string>) returns (found: seq<Span>)
    requires |indexes| == |hay|
    ensures found == AllTermSpans(f, hay, indexes, sortedTerms, MAX_FOCUS_MATCH_SPANS)
  {
    hide TermSpans;
    hide Folded;
    found := [];
    ghost var rest := AllTermSpans(f, hay, indexes, sortedTerms, MAX_FOCUS_MATCH_SPANS);
    ghost var all := rest;
    var i := 0;
    while i < |sortedTerms|
      invariant 0 <= i <= |sortedTerms| && |found| <= MAX_FOCUS_MATCH_SPANS
      invariant rest == AllTermSpans(f, hay, indexes, sortedTerms[i..], MAX_FOCUS_MATCH_SPANS - |found|)
      invariant all == found + rest
    {
      var needle, _ := FoldedFocusText(f, sortedTerms[i]);
      assert sortedTerms[i..][1..] == sortedTerms[i + 1..];
      i := i + 1;
      if needle == "" {
        continue;
      }
      ghost var here := TermSpans(hay, indexes, needle, 0, MAX_FOCUS_MATCH_SPANS - |found|);
      rest := AllTermSpans(f, hay, indexes, sortedTerms[i..], MAX_FOCUS_MATCH_SPANS - |found| - |here|);
      Reassociate(found, here, rest);
      found := FindTerm(hay, indexes, needle, found);
      if |found| >= MAX_FOCUS_MATCH_SPANS {
        return;
      }
    }
  }

  lemma SpansOfConcat(indexes: seq<nat>, a: seq<Match>, b: seq<Match>)
    requires InRange(|indexes|, a) && InRange(|indexes|, b)
    ensures InRange(|indexes|, a + b) && SpansOf(indexes, a + b) == SpansOf(indexes, a) + SpansOf(indexes, b)
  {
  }

  /** The text under a match folds to something that contains the matched term. */
  lemma MatchIsInSlice(f: Folding, text: string, t: string, m: Match)
    requires Matches(f, Folded(f, text), t, m)
    ensures var s := SpanOf(FoldIndex(f, text), m);
            s.start < s.end <= |text| && Find(Folded(f, text[s.start..s.end]), Folded(f, t), 0) >= 0
  {
    hide Find;
    hide Folded;
    hide FoldIndex;
    var last := m.at + m.length - 1;
    FoldIndexMonotone(f, text, m.at, last);
    FoldIndexCorrect(f, text, m.at);
    FoldIndexCorrect(f, text, last);
    OccurrenceSurvivesSlice(f, text, Folded(f, t), m.at, FoldIndex(f, text)[m.at], FoldIndex(f, text)[last] + 1);
  }

  lemma OccurrenceSurvivesSlice(f: Folding, text: string, needle: string, p: nat, a: nat, b: nat)
    requires a <= b <= |text| && OccursAt(Folded(f, text), needle, p)
    requires FoldOffset(f, text, a) <= p && p + |needle| <= FoldOffset(f, text, b)
    ensures Find(Folded(f, text[a..b]), needle, 0) >= 0
  {
    FoldedSlices(f, text, a, b);
    var u, v, w := Folded(f, text[..a]), Folded(f, text[a..b]), Folded(f, text[b..]);
    SliceOfMiddle(u, v, w, p, p + |needle|);
    assert OccursAt(v, needle, p - |u|);
    FindIsFirst(v, needle, 0);
  }

  lemma FoldedSlices(f: Folding, text: string, a: nat, b: nat)
    requires a <= b <= |text|
    ensures Folded(f, text) == Folded(f, text[..a]) + Folded(f, text[a..b]) + Folded(f, text[b..])
    ensures FoldOffset(f, text, b) == |Folded(f, text[..a])| + |Folded(f, text[a..b])|
  {
    assert text[..b] == text[..a] + text[a..b] && text == text[..b] + text[b..];
    FoldedAppend(f, text[..b], text[b..]);
    FoldedAppend(f, text[..a], text[a..b]);
  }

  lemma SliceOfMiddle(u: string, v: string, w: string, i: nat, j: nat)
    requires |u| <= i <= j <= |u| + |v|
    ensures (u + v + w)[i..j] == v[i - |u|..j - |u|]
  {
  }

  lemma TextSpansProper(f: Folding, text: string, terms: seq<string>)
    ensures Proper(TextSpans(f, text, terms))
    ensures forall i :: 0 <= i < |TextSpans(f, text, terms)| ==> TextSpans(f, text, terms)[i].end <= |text|
  {
    var matches := TextMatches(f, text, terms);
    AllTermSpansAreMatches(f, Folded(f, text), FoldIndex(f, text), Sort(terms, TermLe), MAX_FOCUS_MATCH_SPANS);
    forall i | 0 <= i < |matches|
      ensures TextSpans(f, text, terms)[i].start < TextSpans(f, text, terms)[i].end <= |text|
    {
      MatchesAreTerms(f, Folded(f, text), Sort(terms, TermLe), MAX_FOCUS_MATCH_SPANS, matches[i]);
      var t :| Matches(f, Folded(f, text), t, matches[i]);
      MatchIsInSlice(f, text, t, matches[i]);
    }
  }

  /** The focus spans lie in the text, are separated, and cover exactly the matches found. */
  lemma FocusSpansCorrect(f: Folding, text: string, terms: seq<string>)
    ensures Separated(FocusSpansOf(f, text, terms))
    ensures forall i :: 0 <= i < |FocusSpansOf(f, text, terms)| ==> FocusSpansOf(f, text, terms)[i].end <= |text|
    ensures forall x :: Inside(FocusSpansOf(f, text, terms), x) <==> Inside(TextSpans(f, text, terms), x)
  {
    var found, spans := TextSpans(f, text, terms), FocusSpansOf(f, text, terms);
    TextSpansProper(f, text, terms);
    MergedCorrect(found);
    forall i | 0 <= i < |spans| ensures spans[i].end <= |text| {
      assert Inside(spans, spans[i].end - 1);
      assert Inside(found, spans[i].end - 1);
    }
  }

  /** Below the match cap, every occurrence of every usable term has at least one of its original
      characters inside a focus span. */
  lemma NoOccurrenceMissed(f: Folding, text: string, terms: seq<string>, t: string, m: Match)
    requires |TextMatches(f, text, terms)| < MAX_FOCUS_MATCH_SPANS
    requires t in terms && Matches(f, Folded(f, text), t, m)
    ensures exists x :: Inside(FocusSpansOf(f, text, terms), x)
                     && SpanOf(FoldIndex(f, text), m).start <= x < SpanOf(FoldIndex(f, text), m).end
  {
    var indexes, matches := FoldIndex(f, text), TextMatches(f, text, terms);
    SortKeepsMembers(terms, TermLe);
    MatchesComplete(f, Folded(f, text), Sort(terms, TermLe), MAX_FOCUS_MATCH_SPANS, t, m);
    var i :| 0 <= i < |matches| && Touch(matches[i], m);
    var r := Max(matches[i].at, m.at);
    PositionInSpan(f, text, matches[i], r);
    PositionInSpan(f, text, m, r);
    FocusSpansCorrect(f, text, terms);
    AllTermSpansAreMatches(f, Folded(f, text), indexes, Sort(terms, TermLe), MAX_FOCUS_MATCH_SPANS);
    assert TextSpans(f, text, terms)[i] == SpanOf(indexes, matches[i]);
    assert Inside(TextSpans(f, text, terms), indexes[r]);
    assert Inside(FocusSpansOf(f, text, terms), indexes[r]);
  }

  lemma PositionInSpan(f: Folding, text: string, m: Match, r: nat)
    requires m.at <= r < m.at + m.length <= |Folded(f, text)|
    ensures SpanOf(FoldIndex(f, text), m).start <= FoldIndex(f, text)[r] < SpanOf(FoldIndex(f, text), m).end
  {
    FoldIndexMonotone(f, text, m.at, r);
    FoldIndexMonotone(f, text, r, m.at + m.length - 1);
  }
}
