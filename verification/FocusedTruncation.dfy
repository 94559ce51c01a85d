/** `_focused_truncate_utf8` of src/soloscale/evidence_agent.py: an excerpt of at most a given number
    of bytes, cut around the query matches when there are any. */
module FocusedTruncation {
  import opened PyText
  import opened Utf8
  import opened FocusSpans
  import opened FocusWindows
  import opened WindowMeaning

  /** The start of the middle piece when no query matches: half the slack, moved to a character start. */
  function MiddleStart(encoded: Bytes, middleBytes: nat): (k: nat)
    requires middleBytes <= |encoded|
    ensures k <= |encoded|
  {
    SkipContinuation(encoded, (|encoded| - middleBytes) / 2, |encoded|)
  }

  /** Head, middle and tail of a text, as decoded byte slices; Python clips a slice end to the length. */
  function Pieces(encoded: Bytes, head: nat, from: nat, to: nat, tail: nat): (r: string)
    requires head <= |encoded| && from <= |encoded| && from <= to && tail <= |encoded|
  {
    DecodeIgnore(encoded[..head]) + SEPARATOR
    + DecodeIgnore(encoded[from..Min(to, |encoded|)]) + SEPARATOR
    + DecodeIgnore(encoded[tail..])
  }

  /** The pieces of a text that is too long and matches no query: a third of the budget each, the
      tail getting what is left over. */
  function ThreePieces(text: string, maxBytes: nat): (r: string)
    requires SEPARATOR_BYTES * 2 + 3 < maxBytes < |Encode(text)|
  {
    var encoded := Encode(text);
    var available := maxBytes - SEPARATOR_BYTES * 2;
    var third := available / 3;
    var middle := MiddleStart(encoded, third);
    Pieces(encoded, third, middle, middle + third, |encoded| - (available - third - third))
  }

  function Unfocused(text: string, maxBytes: nat): (r: string)
    requires maxBytes < |Encode(text)|
  {
    if maxBytes <= SEPARATOR_BYTES * 2 + 3 then TruncateUtf8(text, maxBytes) else ThreePieces(text, maxBytes)
  }

  function FocusedTruncate(f: Folding, text: string, maxBytes: nat, terms: seq<string>): (r: string) {
    if |Encode(text)| <= maxBytes then text
    else
      FocusSpansWithin(f, text, terms);
      var spans := FocusSpansOf(f, text, terms);
      var focused := if spans == [] then "" else FitFocusedWindows(text, spans, maxBytes);
      if focused != "" then focused else Unfocused(text, maxBytes)
  }

  lemma FocusSpansWithin(f: Folding, text: string, terms: seq<string>)
    ensures Separated(FocusSpansOf(f, text, terms)) && Within(FocusSpansOf(f, text, terms), |text|)
  {
    FocusSpansCorrect(f, text, terms);
  }

  method TruncateFocused(f: Folding, text: string, maxBytes: nat, terms: seq<string>) returns (r: string)
    ensures r == FocusedTruncate(f, text, maxBytes, terms)
  {
    if |Encode(text)| <= maxBytes {
      return text;
    }
    var spans := FocusMatchSpans(f, text, terms);
    FocusSpansWithin(f, text, terms);
    if spans != [] {
      var focused := FitWindows(text, spans, maxBytes);
      if focused != "" {
        return focused;
      }
    }
    r := TruncateUnfocused(text, maxBytes);
  }

  method TruncateUnfocused(text: string, maxBytes: nat) returns (r: string)
    requires maxBytes < |Encode(text)|
    ensures r == Unfocused(text, maxBytes)
  {
    hide Encode;
    hide Pieces;
    hide MiddleStart;
    if maxBytes <= SEPARATOR_BYTES * 2 + 3 {
      return TruncateUtf8(text, maxBytes);
    }
    var encoded := Encode(text);
    var available := maxBytes - SEPARATOR_BYTES * 2;
    var headBytes, middleBytes := available / 3, available / 3;
    var tailBytes := available - headBytes - middleBytes;
    var middleStart := FindMiddle(encoded, middleBytes);
    r := Pieces(encoded, headBytes, middleStart, middleStart + middleBytes, |encoded| - tailBytes);
  }

  method FindMiddle(encoded: Bytes, middleBytes: nat) returns (middleStart: nat)
    requires middleBytes <= |encoded|
    ensures middleStart == MiddleStart(encoded, middleBytes)
  {
    middleStart := (|encoded| - middleBytes) / 2;
    while middleStart < |encoded| && IsContinuation(encoded[middleStart])
      invariant middleStart <= |encoded|
      invariant SkipContinuation(encoded, middleStart, |encoded|) == MiddleStart(encoded, middleBytes)
    {
      middleStart := middleStart + 1;
    }
  }

  // ----- the pieces do not overlap

  /** The middle piece starts after the head and ends before the tail. */
  lemma MiddleIsBetween(text: string, maxBytes: nat)
    requires SEPARATOR_BYTES * 2 + 3 < maxBytes < |Encode(text)|
    ensures var available := maxBytes - SEPARATOR_BYTES * 2;
            var third := available / 3;
            var middle := MiddleStart(Encode(text), third);
            third <= middle && middle + third <= |Encode(text)| - (available - third - third)
  {
    hide Encode;
    hide ByteLength;
    hide SkipContinuation;
    EncodeLength(text);
    var n := |Encode(text)|;
    var available := maxBytes - SEPARATOR_BYTES * 2;
    var third := available / 3;
    var from := (n - third) / 2;
    BoundaryNearby(text, from);
    EndsAreBoundaries(text);
    SkipContinuationCorrect(text, from, n);
    var b: nat :| from <= b < from + 4 && IsBoundary(text, b);
    assert MiddleStart(Encode(text), third) <= b;
  }

  /** A decoded byte slice is a slice of the text, no longer in bytes. */
  lemma DecodedSlice(text: string, a: nat, b: nat)
    requires a <= b <= |Encode(text)|
    ensures DecodeIgnore(Encode(text)[a..b]) == text[Ceil(text, a)..Max(Ceil(text, a), Floor(text, b))]
    ensures ByteLength(DecodeIgnore(Encode(text)[a..b])) <= b - a
  {
    DecodeIgnoreSlice(text, a, b);
    DecodeIgnoreSliceLength(text, a, b);
  }

  lemma FloorBeforeCeil(text: string, a: nat, b: nat)
    requires a <= b <= |Encode(text)|
    ensures Floor(text, a) <= Ceil(text, b) && Ceil(text, a) <= Ceil(text, b)
  {
    EncodeLength(text);
    FloorCorrect(text, a);
    CeilCorrect(text, a);
    CeilCorrect(text, b);
    if Ceil(text, b) < Floor(text, a) {
      OffsetIncreasing(text, Ceil(text, b), Floor(text, a));
    }
  }

  lemma EndsDecode(text: string)
    ensures Ceil(text, 0) == 0 && Floor(text, |Encode(text)|) == |text|
  {
    EncodeLength(text);
    FloorCorrect(text, |Encode(text)|);
    assert text[..|text|] == text;
    assert Offset(text, |text|) == |Encode(text)|;
  }

  ghost predicate IsThreePieces(text: string, h: nat, m: nat, n: nat, t: nat, r: string) {
    h <= m <= n <= t <= |text| && r == text[..h] + SEPARATOR + text[m..n] + SEPARATOR + text[t..]
  }

  /** The excerpt is three disjoint slices of the text, in order, with separators between them. */
  ghost predicate InThreePieces(text: string, r: string) {
    exists h: nat, m: nat, n: nat, t: nat :: IsThreePieces(text, h, m, n, t, r)
  }

  lemma PiecesCorrect(text: string, head: nat, from: nat, to: nat, tail: nat)
    requires head <= from <= to <= tail <= |Encode(text)|
    ensures InThreePieces(text, Pieces(Encode(text), head, from, to, tail))
    ensures ByteLength(Pieces(Encode(text), head, from, to, tail))
         <= head + (to - from) + (|Encode(text)| - tail) + SEPARATOR_BYTES * 2
  {
    var encoded := Encode(text);
    assert encoded[..head] == encoded[0..head] && encoded[tail..] == encoded[tail..|encoded|];
    DecodedSlice(text, 0, head);
    DecodedSlice(text, from, to);
    DecodedSlice(text, tail, |encoded|);
    EndsDecode(text);
    FloorBeforeCeil(text, head, from);
    FloorBeforeCeil(text, from, tail);
    FloorBeforeCeil(text, to, tail);
    var h, m, t := Floor(text, head), Ceil(text, from), Ceil(text, tail);
    var n := Max(m, Floor(text, to));
    assert text[..h] == text[0..h] && text[t..] == text[t..|text|];
    JoinThree(text[..h], text[m..n], text[t..]);
    assert IsThreePieces(text, h, m, n, t, Pieces(encoded, head, from, to, tail));
  }

  lemma JoinThree(a: string, b: string, c: string)
    ensures ByteLength(a + SEPARATOR + b + SEPARATOR + c)
         == ByteLength(a) + ByteLength(b) + ByteLength(c) + SEPARATOR_BYTES * 2
  {
    SeparatorLength();
    ByteLengthAppend(a, SEPARATOR);
    ByteLengthAppend(a + SEPARATOR, b);
    ByteLengthAppend(a + SEPARATOR + b, SEPARATOR);
    ByteLengthAppend(a + SEPARATOR + b + SEPARATOR, c);
  }

  /** Without a match, for budgets above 13 bytes: head, middle and tail are disjoint pieces of the
      text, in order, and the whole fits. */
  lemma ThreePiecesCorrect(text: string, maxBytes: nat)
    requires SEPARATOR_BYTES * 2 + 3 < maxBytes < |Encode(text)|
    ensures InThreePieces(text, ThreePieces(text, maxBytes))
    ensures ByteLength(ThreePieces(text, maxBytes)) <= maxBytes
  {
    hide Encode;
    hide ByteLength;
    hide Pieces;
    hide MiddleStart;
    hide InThreePieces;
    var available := maxBytes - SEPARATOR_BYTES * 2;
    var third := available / 3;
    var middle := MiddleStart(Encode(text), third);
    MiddleIsBetween(text, maxBytes);
    PiecesCorrect(text, third, middle, middle + third, |Encode(text)| - (available - third - third));
  }

  /** Any text, any budget, any queries: the result fits, and is the text itself when that fits. */
  lemma FocusedTruncateFits(f: Folding, text: string, maxBytes: nat, terms: seq<string>)
    ensures ByteLength(FocusedTruncate(f, text, maxBytes, terms)) <= maxBytes
    ensures ByteLength(text) <= maxBytes ==> FocusedTruncate(f, text, maxBytes, terms) == text
  {
    EncodeLength(text);
    if maxBytes < |Encode(text)| {
      var spans := FocusSpansOf(f, text, terms);
      FocusSpansWithin(f, text, terms);
      if spans != [] { FocusedExcerptCorrect(text, spans, maxBytes); }
      if maxBytes <= SEPARATOR_BYTES * 2 + 3 {
        TruncateIsLongestPrefix(text, maxBytes);
      } else {
        ThreePiecesCorrect(text, maxBytes);
      }
    }
  }

  // ----- what the excerpt is

  /** The last character boundary at or before byte k. */
  ghost predicate IsLastWithin(text: string, k: int, i: nat) {
    i <= |text| && Offset(text, i) <= k && forall j :: i < j <= |text| ==> Offset(text, j) > k
  }

  /** The first character boundary at or after byte k. */
  ghost predicate IsFirstFrom(text: string, k: int, i: nat) {
    i <= |text| && Offset(text, i) >= k && forall j :: 0 <= j < i ==> Offset(text, j) < k
  }

  /** Head, middle and tail of whole characters, each within its third of the bytes that the separators
      leave, the tail with the remainder; the middle one starts where half of the rest lies before it. */
  ghost predicate IsThirds(text: string, maxBytes: nat, h: nat, m: nat, n: nat, t: nat, r: string) {
    var available := maxBytes - 2 * ByteLength(SEPARATOR);
    var third := available / 3;
    && IsThreePieces(text, h, m, n, t, r)
    && IsLastWithin(text, third, h)
    && IsFirstFrom(text, (ByteLength(text) - third) / 2, m) && IsLastWithin(text, Offset(text, m) + third, n)
    && IsFirstFrom(text, ByteLength(text) - (available - 2 * third), t)
  }

  ghost predicate InThirds(text: string, maxBytes: nat, r: string) {
    exists h: nat, m: nat, n: nat, t: nat :: IsThirds(text, maxBytes, h, m, n, t, r)
  }

  lemma BoundaryIsOffset(text: string, from: nat, k: nat)
    requires from <= k <= ByteLength(text) && IsBoundary(text, k) && forall b :: from <= b < k ==> !IsBoundary(text, b)
    ensures IsFirstFrom(text, from, Ceil(text, k)) && Offset(text, Ceil(text, k)) == k
  {
    CeilCorrect(text, k);
    var i :| 0 <= i <= |text| && Offset(text, i) == k;
    var c := Ceil(text, k);
    if c < i { OffsetIncreasing(text, c, i); }
    forall j | 0 <= j < c ensures Offset(text, j) < from {
      OffsetIncreasing(text, j, c);
      assert IsBoundary(text, Offset(text, j));
    }
  }

  lemma FloorIsLast(text: string, k: nat)
    ensures IsLastWithin(text, k, Floor(text, k))
  {
    FloorCorrect(text, k);
  }

  lemma CeilIsFirst(text: string, k: nat)
    requires k <= ByteLength(text)
    ensures IsFirstFrom(text, k, Ceil(text, k))
  {
    CeilCorrect(text, k);
  }

  lemma MiddleIsFirst(text: string, middleBytes: nat)
    requires middleBytes <= |Encode(text)|
    ensures var k := MiddleStart(Encode(text), middleBytes);
            IsFirstFrom(text, (ByteLength(text) - middleBytes) / 2, Ceil(text, k)) && Offset(text, Ceil(text, k)) == k
  {
    hide Encode;
    hide ByteLength;
    hide SkipContinuation;
    EncodeLength(text);
    var from := (|Encode(text)| - middleBytes) / 2;
    EndsAreBoundaries(text);
    SkipContinuationCorrect(text, from, |Encode(text)|);
    BoundaryIsOffset(text, from, MiddleStart(Encode(text), middleBytes));
  }

  lemma BoundariesOfThirds(text: string, third: nat, from: nat, tail: nat)
    requires third <= from && from + third <= tail <= ByteLength(text) && Offset(text, Ceil(text, from)) == from
    ensures IsLastWithin(text, third, Floor(text, third)) && IsLastWithin(text, from + third, Floor(text, from + third))
    ensures IsFirstFrom(text, tail, Ceil(text, tail))
    ensures Floor(text, third) <= Ceil(text, from) <= Floor(text, from + third) <= Ceil(text, tail)
  {
    hide Encode;
    hide ByteLength;
    EncodeLength(text);
    FloorIsLast(text, third);
    FloorIsLast(text, from + third);
    CeilIsFirst(text, tail);
    FloorCorrect(text, from + third);
    FloorBeforeCeil(text, third, from);
    FloorBeforeCeil(text, from + third, tail);
  }

  /** Without a match and above 13 bytes the excerpt is made of thirds. */
  lemma ThreePiecesAreThirds(text: string, maxBytes: nat)
    requires SEPARATOR_BYTES * 2 + 3 < maxBytes < |Encode(text)|
    ensures InThirds(text, maxBytes, ThreePieces(text, maxBytes))
  {
    hide Encode;
    hide ByteLength;
    hide MiddleStart;
    hide Pieces;
    hide Floor;
    hide Ceil;
    hide Offset;
    hide IsLastWithin;
    hide IsFirstFrom;
    EncodeLength(text);
    SeparatorLength();
    var encoded := Encode(text);
    var available := maxBytes - SEPARATOR_BYTES * 2;
    var third := available / 3;
    var from, tail := MiddleStart(encoded, third), |encoded| - (available - third - third);
    MiddleIsBetween(text, maxBytes);
    MiddleIsFirst(text, third);
    BoundariesOfThirds(text, third, from, tail);
    PiecesAre(text, third, from, from + third, tail);
    assert Min(from + third, |encoded|) == from + third;
    assert IsThirds(text, maxBytes, Floor(text, third), Ceil(text, from), Floor(text, from + third), Ceil(text, tail), ThreePieces(text, maxBytes));
  }

  lemma PiecesAre(text: string, head: nat, from: nat, to: nat, tail: nat)
    requires head <= from <= to <= tail <= |Encode(text)| && Ceil(text, from) <= Floor(text, to)
    ensures var h, m, n, t := Floor(text, head), Ceil(text, from), Floor(text, to), Ceil(text, tail);
            Pieces(Encode(text), head, from, to, tail) == text[..h] + SEPARATOR + text[m..n] + SEPARATOR + text[t..]
  {
    hide ByteLength;
    var encoded := Encode(text);
    assert encoded[..head] == encoded[0..head] && encoded[tail..] == encoded[tail..|encoded|];
    DecodedSlice(text, 0, head);
    DecodedSlice(text, from, to);
    DecodedSlice(text, tail, |encoded|);
    EndsDecode(text);
    CeilIsFirst(text, tail) by { EncodeLength(text); }
    assert text[..Floor(text, head)] == text[0..Floor(text, head)] && text[Ceil(text, tail)..] == text[Ceil(text, tail)..|text|];
  }

  /** The excerpt is the longest prefix within the bytes. */
  ghost predicate IsLongestPrefix(text: string, maxBytes: nat, r: string) {
    r <= text && ByteLength(r) <= maxBytes && forall i :: |r| < i <= |text| ==> ByteLength(text[..i]) > maxBytes
  }

  /** What is shown without a match. */
  ghost predicate IsUnfocused(text: string, maxBytes: nat, r: string) {
    if maxBytes <= 2 * ByteLength(SEPARATOR) + 3 then IsLongestPrefix(text, maxBytes, r) else InThirds(text, maxBytes, r)
  }

  lemma UnfocusedCorrect(text: string, maxBytes: nat)
    requires maxBytes < |Encode(text)|
    ensures IsUnfocused(text, maxBytes, Unfocused(text, maxBytes))
  {
    SeparatorLength();
    if maxBytes <= SEPARATOR_BYTES * 2 + 3 {
      TruncateIsLongestPrefix(text, maxBytes);
    } else {
      ThreePiecesAreThirds(text, maxBytes);
    }
  }

  /** What is shown around these spans: the largest even choice of them that fits, in centred windows. */
  ghost predicate IsFocused(text: string, spans: seq<Span>, maxBytes: nat, selected: seq<Span>, r: string)
    requires Within(spans, |text|)
  {
    && IsLargestFitting(text, spans, selected, Min(|spans|, MAX_FOCUSED_WINDOWS), maxBytes) && IsEvenChoice(spans, selected)
    && exists windows :: IsCentredExcerpt(text, selected, maxBytes, windows, r)
  }

  ghost predicate IsFocusedSomehow(text: string, spans: seq<Span>, maxBytes: nat, r: string)
    requires Within(spans, |text|)
  {
    exists selected :: IsFocused(text, spans, maxBytes, selected, r)
  }

  /** What is shown when not even one span fits: the text from the middle span on, as far as it fits, or,
      when not a single character does, as without a match. */
  ghost predicate IsFromMiddle(text: string, spans: seq<Span>, maxBytes: nat, r: string)
    requires spans != [] && Within(spans, |text|)
  {
    var rest := text[spans[|spans| / 2].start..];
    if exists p :: p != "" && IsLongestPrefix(rest, maxBytes, p) then IsLongestPrefix(rest, maxBytes, r)
    else IsUnfocused(text, maxBytes, r)
  }

  /** What is shown of a text: all of it if it fits; otherwise what its focus spans allow. */
  ghost predicate IsTruncation(f: Folding, text: string, maxBytes: nat, terms: seq<string>, r: string) {
    var spans := FocusSpansOf(f, text, terms);
    && Within(spans, |text|)
    && if ByteLength(text) <= maxBytes then r == text
       else if spans == [] then IsUnfocused(text, maxBytes, r)
       else if SomeCountFits(text, spans, maxBytes) then IsFocusedSomehow(text, spans, maxBytes, r)
       else IsFromMiddle(text, spans, maxBytes, r)
  }

  /** The excerpt of any text, for any terms and budget. */
  lemma TruncationCorrect(f: Folding, text: string, maxBytes: nat, terms: seq<string>)
    ensures IsTruncation(f, text, maxBytes, terms, FocusedTruncate(f, text, maxBytes, terms))
  {
    hide Encode;
    hide IsUnfocused;
    hide IsFocusedSomehow;
    hide IsFromMiddle;
    hide FitFocusedWindows;
    hide SomeCountFits;
    hide Unfocused;
    EncodeLength(text);
    FocusSpansWithin(f, text, terms);
    var spans := FocusSpansOf(f, text, terms);
    hide FocusSpansOf;
    if maxBytes < |Encode(text)| {
      UnfocusedCorrect(text, maxBytes);
      if spans != [] {
        if SomeCountFits(text, spans, maxBytes) {
          FocusedIsShown(text, spans, maxBytes);
        } else {
          MiddleIsShown(text, spans, maxBytes);
        }
      }
    }
  }

  lemma FocusedIsShown(text: string, spans: seq<Span>, maxBytes: nat)
    requires spans != [] && Separated(spans) && Within(spans, |text|) && SomeCountFits(text, spans, maxBytes)
    ensures FitFocusedWindows(text, spans, maxBytes) != ""
    ensures IsFocusedSomehow(text, spans, maxBytes, FitFocusedWindows(text, spans, maxBytes))
  {
    hide IsEvenChoice;
    hide FitFocusedWindows;
    hide Selected;
    hide SomeCountFits;
    hide CountFits;
    var selected, r := Selected(text, spans, maxBytes), FitFocusedWindows(text, spans, maxBytes);
    SelectedCorrect(text, spans, maxBytes);
    DistributedIsEven(spans, |selected|);
    ExcerptIsCentred(text, spans, maxBytes);
    var windows :| IsCentredExcerpt(text, selected, maxBytes, windows, r);
    ExcerptIsSomething(text, selected, TextWindows(text, windows), r);
    assert IsFocused(text, spans, maxBytes, selected, r);
  }

  lemma ExcerptIsSomething(text: string, selected: seq<Span>, cuts: seq<Span>, r: string)
    requires selected != [] && Separated(selected) && IsExcerptOf(text, selected, cuts, r)
    ensures r != ""
  {
    assert Held(cuts, selected[0]);
    var i :| 0 <= i < |cuts| && cuts[i].start <= selected[0].start && selected[0].end <= cuts[i].end;
    JoinIsSomething(text, cuts, |cuts|, i);
  }

  lemma {:induction false} JoinIsSomething(text: string, cuts: seq<Span>, n: nat, i: nat)
    requires i < n <= |cuts| && Within(cuts, |text|) && cuts[i].start < cuts[i].end
    ensures JoinSlices(text, cuts, n) != ""
  {
    if i < n - 1 { JoinIsSomething(text, cuts, n - 1, i); }
  }

  lemma MiddleIsShown(text: string, spans: seq<Span>, maxBytes: nat)
    requires maxBytes < |Encode(text)| && spans != [] && Separated(spans) && Within(spans, |text|)
    requires !SomeCountFits(text, spans, maxBytes)
    ensures var p := FitFocusedWindows(text, spans, maxBytes);
            IsFromMiddle(text, spans, maxBytes, if p != "" then p else Unfocused(text, maxBytes))
  {
    hide Encode;
    hide IsUnfocused;
    hide FitFocusedWindows;
    hide Unfocused;
    hide SomeCountFits;
    UnfocusedCorrect(text, maxBytes);
    FocusedExcerptCorrect(text, spans, maxBytes);
    var rest := text[spans[|spans| / 2].start..];
    TruncateIsLongestPrefix(rest, maxBytes);
    var p := TruncateUtf8(rest, maxBytes);
    assert IsLongestPrefix(rest, maxBytes, p);
    forall q | IsLongestPrefix(rest, maxBytes, q) ensures q == p { OneLongestPrefix(rest, maxBytes, p, q); }
  }

  lemma OneLongestPrefix(text: string, maxBytes: nat, p: string, q: string)
    requires IsLongestPrefix(text, maxBytes, p) && IsLongestPrefix(text, maxBytes, q)
    ensures p == q
  {
    hide ByteLength;
    assert text[..|p|] == p && text[..|q|] == q;
  }
}
