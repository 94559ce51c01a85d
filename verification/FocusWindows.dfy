/** Cutting a text to windows around its focus spans: `_distributed_spans`, `_fit_focused_windows`
    and `_focused_truncate_utf8` of src/soloscale/evidence_agent.py. */
module FocusWindows {
  import opened PyText
  import opened Utf8
  import opened FocusSpans

  const MAX_FOCUSED_WINDOWS: nat := 8
  const SEPARATOR: string := " \U{2026} "
  /** The separator in bytes: two spaces and one three-byte character. */
  const SEPARATOR_BYTES: nat := 5

  // ----- choosing evenly spread spans

  function SpreadIndex(k: nat, last: nat, count: nat): (i: nat)
    requires count > 1
  {
    (k * last) / (count - 1)
  }

  function Distributed(spans: seq<Span>, count: nat): (selected: seq<Span>)
    requires 1 <= count <= |spans|
    ensures |selected| == count
  {
    if count == 1 then [spans[|spans| / 2]]
    else
      SpreadInRange(|spans| - 1, count);
      seq(count, k requires 0 <= k < count => spans[SpreadIndex(k, |spans| - 1, count)])
  }

  lemma DivideAtLeast(a: nat, q: nat, d: nat)
    requires d > 0 && a >= q * d
    ensures a / d >= q
  {
    var r := a / d;
    assert a < (r + 1) * d;
    if r + 1 <= q {
      MultiplyMonotone(r + 1, q, d);
    }
  }

  lemma MultiplyMonotone(a: nat, b: nat, d: nat)
    requires a <= b
    ensures a * d <= b * d
  {
  }

  lemma DivideStep(a: nat, b: nat, d: nat)
    requires d > 0 && b >= d
    ensures (a + b) / d >= a / d + 1
  {
    var q := a / d;
    assert q * d <= a;
    assert (q + 1) * d == q * d + d;
    DivideAtLeast(a + b, q + 1, d);
  }

  lemma SpreadStep(last: nat, count: nat, k: nat)
    requires 1 < count <= last + 1
    ensures SpreadIndex(k, last, count) < SpreadIndex(k + 1, last, count)
  {
    assert (k + 1) * last == k * last + last;
    DivideStep(k * last, last, count - 1);
  }

  lemma SpreadEnds(last: nat, count: nat)
    requires 1 < count
    ensures SpreadIndex(0, last, count) == 0 && SpreadIndex(count - 1, last, count) == last
  {
    var d := count - 1;
    assert d * last == last * d;
    DivideAtLeast(d * last, last, d);
    if (d * last) / d > last {
      MultiplyMonotone(last + 1, (d * last) / d, d);
    }
  }

  /** The chosen indices strictly increase. */
  lemma {:induction false} SpreadIncreases(last: nat, count: nat, j: nat, k: nat)
    requires 1 < count <= last + 1 && j < k
    ensures SpreadIndex(j, last, count) < SpreadIndex(k, last, count)
    decreases k
  {
    SpreadStep(last, count, k - 1);
    if j < k - 1 {
      SpreadIncreases(last, count, j, k - 1);
    }
  }

  lemma SpreadInRange(last: nat, count: nat)
    requires 1 < count <= last + 1
    ensures forall k :: 0 <= k < count ==> SpreadIndex(k, last, count) <= last
  {
    SpreadEnds(last, count);
    forall k | 0 <= k < count ensures SpreadIndex(k, last, count) <= last {
      if k < count - 1 {
        SpreadIncreases(last, count, k, count - 1);
      }
    }
  }

  /** Evenly spread spans of a separated list are separated spans of the list, and include both ends
      when several are chosen. */
  lemma DistributedCorrect(spans: seq<Span>, count: nat)
    requires Separated(spans) && 1 <= count <= |spans|
    ensures Separated(Distributed(spans, count))
    ensures forall i :: 0 <= i < count ==> Distributed(spans, count)[i] in spans
    ensures count > 1 ==> Distributed(spans, count)[0] == spans[0]
    ensures count > 1 ==> Distributed(spans, count)[count - 1] == spans[|spans| - 1]
  {
    if count > 1 {
      var last := |spans| - 1;
      SpreadInRange(last, count);
      SpreadEnds(last, count);
      var selected := Distributed(spans, count);
      forall j, k | 0 <= j < k < count ensures selected[j].end < selected[k].start {
        SpreadIncreases(last, count, j, k);
      }
    }
  }

  // ----- selecting how many spans fit

  ghost predicate Within(spans: seq<Span>, n: nat) {
    forall i :: 0 <= i < |spans| ==> spans[i].start <= spans[i].end <= n
  }

  lemma DistributedWithin(spans: seq<Span>, count: nat, n: nat)
    requires 1 <= count <= |spans| && Within(spans, n)
    ensures Within(Distributed(spans, count), n)
  {
    if count > 1 { SpreadInRange(|spans| - 1, count); }
  }

  /** The byte offsets of text positions. */
  function ByteSpan(text: string, s: Span): (b: Span)
    requires s.start <= s.end <= |text|
  {
    Span(Offset(text, s.start), Offset(text, s.end))
  }

  function ByteSpans(text: string, spans: seq<Span>): (bytes: seq<Span>)
    requires Within(spans, |text|)
    ensures |bytes| == |spans|
  {
    seq(|spans|, i requires 0 <= i < |spans| => ByteSpan(text, spans[i]))
  }

  /** The bytes of the first i spans. */
  function TotalLength(spans: seq<Span>, i: nat): (n: int)
    requires i <= |spans|
  {
    if i == 0 then 0 else TotalLength(spans, i - 1) + (spans[i - 1].end - spans[i - 1].start)
  }

  lemma {:induction false} TotalLengthAgrees(a: seq<Span>, b: seq<Span>, i: nat)
    requires i <= |a| && i <= |b| && forall k :: 0 <= k < i ==> a[k] == b[k]
    ensures TotalLength(a, i) == TotalLength(b, i)
  {
    if i > 0 { TotalLengthAgrees(a, b, i - 1); }
  }

  /** What the spans need once a separator stands between neighbours. */
  function RequiredBytes(spans: seq<Span>): (n: int) {
    TotalLength(spans, |spans|) + SEPARATOR_BYTES * (|spans| - 1)
  }

  /** The selected spans and the separators between them fit the budget. */
  predicate Fits(text: string, selected: seq<Span>, maxBytes: nat)
    requires Within(selected, |text|)
  {
    RequiredBytes(ByteSpans(text, selected)) <= maxBytes
  }

  /** The largest selection, of at most `count` spans, whose bytes fit; none if none does. */
  function Select(text: string, spans: seq<Span>, count: nat, maxBytes: nat): (selected: seq<Span>)
    requires count <= |spans| && Within(spans, |text|)
    ensures |selected| <= count
  {
    if count == 0 then []
    else
      DistributedWithin(spans, count, |text|);
      if Fits(text, Distributed(spans, count), maxBytes) then Distributed(spans, count)
      else Select(text, spans, count - 1, maxBytes)
  }

  function Selected(text: string, spans: seq<Span>, maxBytes: nat): (selected: seq<Span>)
    requires Within(spans, |text|)
  {
    Select(text, spans, Min(|spans|, MAX_FOCUSED_WINDOWS), maxBytes)
  }

  lemma {:induction false} SelectCorrect(text: string, spans: seq<Span>, count: nat, maxBytes: nat)
    requires count <= |spans| && Within(spans, |text|)
    ensures var selected := Select(text, spans, count, maxBytes);
            && Within(selected, |text|)
            && (selected != [] ==> Fits(text, selected, maxBytes))
            && (Separated(spans) ==> Separated(selected))
  {
    hide Distributed;
    hide Fits;
    if count > 0 {
      SelectCorrect(text, spans, count - 1, maxBytes);
      DistributedWithin(spans, count, |text|);
      if Separated(spans) { DistributedCorrect(spans, count); }
    }
  }

  /** Whether the evenly spread choice of so many spans fits. */
  predicate CountFits(text: string, spans: seq<Span>, count: nat, maxBytes: nat)
    requires 1 <= count <= |spans| && Within(spans, |text|)
  {
    DistributedWithin(spans, count, |text|);
    Fits(text, Distributed(spans, count), maxBytes)
  }

  ghost predicate SomeCountFits(text: string, spans: seq<Span>, maxBytes: nat)
    requires Within(spans, |text|)
  {
    exists count :: 1 <= count <= Min(|spans|, MAX_FOCUSED_WINDOWS) && CountFits(text, spans, count, maxBytes)
  }

  /** The evenly spread choice of the largest count, up to `most`, that fits; nothing when none does. */
  ghost predicate IsLargestFitting(text: string, spans: seq<Span>, selected: seq<Span>, most: nat, maxBytes: nat)
    requires most <= |spans| && Within(spans, |text|)
  {
    && |selected| <= most
    && (selected != [] ==> selected == Distributed(spans, |selected|) && CountFits(text, spans, |selected|, maxBytes))
    && (forall count :: |selected| < count <= most ==> !CountFits(text, spans, count, maxBytes))
  }

  lemma {:induction false} SelectIsLargest(text: string, spans: seq<Span>, count: nat, maxBytes: nat)
    requires count <= |spans| && Within(spans, |text|)
    ensures IsLargestFitting(text, spans, Select(text, spans, count, maxBytes), count, maxBytes)
  {
    hide Distributed;
    hide Fits;
    if count > 0 && !CountFits(text, spans, count, maxBytes) {
      SelectIsLargest(text, spans, count - 1, maxBytes);
    }
  }

  /** The selection is the evenly spread choice of the largest count that fits; there is one exactly when
      some count fits. */
  lemma SelectedCorrect(text: string, spans: seq<Span>, maxBytes: nat)
    requires Within(spans, |text|)
    ensures var selected := Selected(text, spans, maxBytes);
            && IsLargestFitting(text, spans, selected, Min(|spans|, MAX_FOCUSED_WINDOWS), maxBytes)
            && (selected != [] <==> SomeCountFits(text, spans, maxBytes))
            && Within(selected, |text|)
            && (selected != [] ==> Fits(text, selected, maxBytes))
            && (Separated(spans) ==> Separated(selected))
  {
    hide CountFits;
    hide Fits;
    hide Select;
    var most := Min(|spans|, MAX_FOCUSED_WINDOWS);
    SelectIsLargest(text, spans, most, maxBytes);
    SelectCorrect(text, spans, most, maxBytes);
  }

  lemma ByteSpansCorrect(text: string, spans: seq<Span>)
    requires Within(spans, |text|)
    ensures Within(ByteSpans(text, spans), |Encode(text)|)
    ensures Separated(spans) ==> Ordered(ByteSpans(text, spans))
  {
    EncodeLength(text);
    forall i | 0 <= i < |spans|
      ensures ByteSpans(text, spans)[i].start <= ByteSpans(text, spans)[i].end <= |Encode(text)|
    {
      OffsetIncreasing(text, spans[i].start, spans[i].end);
    }
    if Separated(spans) {
      forall i, j | 0 <= i < j < |spans|
        ensures ByteSpans(text, spans)[i].end <= ByteSpans(text, spans)[j].start
      {
        OffsetIncreasing(text, spans[i].end, spans[j].start);
      }
    }
  }

  // ----- widening a selection to windows

  /** The window around one focus span, given its share of the spare bytes. */
  function WindowFor(length: nat, focus: Span, context: nat): (w: Span)
    requires focus.start <= focus.end <= length
    ensures w.start <= focus.start && focus.end <= w.end <= length
    ensures w.end - w.start <= focus.end - focus.start + context
  {
    var before := context / 2;
    var after := context - before;
    var start := Max(0, focus.start - before);
    var end := Min(length, focus.end + after);
    var missing := focus.end - focus.start + context - (end - start);
    if missing > 0 then
      var left := Min(start, missing);
      Span(start - left, Min(length, end + (missing - left)))
    else Span(start, end)
  }

  /** The spare bytes split evenly, the first spans getting one more. */
  function Shares(spare: nat, count: nat): (shares: seq<nat>)
    requires count > 0
    ensures |shares| == count
  {
    seq(count, i => spare / count + if i < spare % count then 1 else 0)
  }

  /** The first i shares. */
  function Sum(shares: seq<nat>, i: nat): (n: nat)
    requires i <= |shares|
  {
    if i == 0 then 0 else Sum(shares, i - 1) + shares[i - 1]
  }

  /** The shares use up exactly the spare bytes. */
  lemma SharesAddUp(spare: nat, count: nat)
    requires count > 0
    ensures Sum(Shares(spare, count), count) == spare
  {
    SharesAddUpTo(Shares(spare, count), spare / count, spare % count, count);
    assert spare == count * (spare / count) + spare % count;
  }

  lemma {:induction false} SharesAddUpTo(shares: seq<nat>, each: nat, extra: nat, i: nat)
    requires i <= |shares| && forall k :: 0 <= k < |shares| ==> shares[k] == each + if k < extra then 1 else 0
    ensures Sum(shares, i) == i * each + Min(i, extra)
  {
    if i > 0 {
      SharesAddUpTo(shares, each, extra, i - 1);
      assert i * each == (i - 1) * each + each;
    }
  }

  /** The window of each focus span, before merging. */
  function RawWindows(length: nat, focus: seq<Span>, shares: seq<nat>): (raw: seq<Span>)
    requires |focus| == |shares| && Within(focus, length)
    ensures |raw| == |focus|
  {
    seq(|focus|, i requires 0 <= i < |focus| => WindowFor(length, focus[i], shares[i]))
  }

  /** Each window holds its focus span, stays in the text, and is no longer than the span and its share. */
  ghost predicate Widened(length: nat, focus: seq<Span>, shares: seq<nat>, raw: seq<Span>) {
    && |focus| == |shares| == |raw|
    && forall i :: 0 <= i < |focus| ==>
         && raw[i].start <= focus[i].start <= focus[i].end <= raw[i].end <= length
         && raw[i].end - raw[i].start <= focus[i].end - focus[i].start + shares[i]
  }

  lemma {:induction false} MergeUpToWithin(raw: seq<Span>, length: nat, i: nat)
    requires i <= |raw| && Within(raw, length)
    ensures Within(MergeUpTo(raw, i), length)
  {
    if i > 0 {
      MergeUpToWithin(raw, length, i - 1);
    }
  }

  /** Windows in order, each ending before the next begins. */
  ghost predicate Gapped(windows: seq<Span>) {
    && (forall i :: 0 <= i < |windows| ==> windows[i].start <= windows[i].end)
    && forall i, j :: 0 <= i < j < |windows| ==> windows[i].end < windows[j].start
  }

  /** The span lies inside one of the windows. */
  ghost predicate Held(windows: seq<Span>, s: Span) {
    exists i :: 0 <= i < |windows| && windows[i].start <= s.start && s.end <= windows[i].end
  }

  ghost predicate HoldsAll(windows: seq<Span>, focus: seq<Span>) {
    forall i :: 0 <= i < |focus| ==> Held(windows, focus[i])
  }

  /** Merging the next window keeps the windows apart, holds the new focus span, and costs no more
      bytes than the new window, even when the window reaches further left than the last one. */
  lemma MergeWindow(windows: seq<Span>, w: Span, focus: Span)
    requires Gapped(windows) && w.start <= focus.start <= focus.end <= w.end
    requires windows != [] ==> windows[|windows| - 1].start <= focus.start
    ensures var r := MergeStep(windows, w);
            && Gapped(r) && 0 < |r| <= |windows| + 1
            && r[|r| - 1].start <= focus.start && focus.end <= r[|r| - 1].end
            && TotalLength(r, |r|) <= TotalLength(windows, |windows|) + (w.end - w.start)
  {
    var n, r := |windows|, MergeStep(windows, w);
    TotalLengthAgrees(r, windows, if n < |r| then n else n - 1);
    forall i, j | 0 <= i < j < |r| ensures r[i].end < r[j].start {
      if j < n {
        assert windows[i].end < windows[j].start;
      } else if i < n - 1 {
        assert windows[i].end < windows[n - 1].start;
      }
    }
  }

  lemma MergeKeepsHeld(windows: seq<Span>, w: Span, s: Span)
    requires Held(windows, s)
    ensures Held(MergeStep(windows, w), s)
  {
    var i :| 0 <= i < |windows| && windows[i].start <= s.start && s.end <= windows[i].end;
    var r := MergeStep(windows, w);
    assert r[i].start <= s.start && s.end <= r[i].end;
  }

  ghost predicate Ordered(focus: seq<Span>) {
    forall a, b :: 0 <= a < b < |focus| ==> focus[a].end <= focus[b].start
  }

  /** Merging the windows of the first i focus spans, in order. */
  lemma {:induction false} WindowsGapped(length: nat, focus: seq<Span>, shares: seq<nat>, raw: seq<Span>, i: nat)
    requires 0 < i <= |focus| && Widened(length, focus, shares, raw) && Ordered(focus)
    ensures var windows := MergeUpTo(raw, i);
            && Gapped(windows) && 0 < |windows| <= i
            && windows[|windows| - 1].start <= focus[i - 1].start && focus[i - 1].end <= windows[|windows| - 1].end
            && TotalLength(windows, |windows|) <= TotalLength(focus, i) + Sum(shares, i)
  {
    if i > 1 {
      WindowsGapped(length, focus, shares, raw, i - 1);
      assert focus[i - 2].end <= focus[i - 1].start;
    }
    MergeWindow(MergeUpTo(raw, i - 1), raw[i - 1], focus[i - 1]);
  }

  lemma {:induction false} WindowsHold(length: nat, focus: seq<Span>, shares: seq<nat>, raw: seq<Span>, i: nat, j: nat)
    requires j < i <= |focus| && Widened(length, focus, shares, raw) && Ordered(focus)
    ensures Held(MergeUpTo(raw, i), focus[j])
  {
    if j == i - 1 {
      WindowsGapped(length, focus, shares, raw, i);
    } else {
      WindowsHold(length, focus, shares, raw, i - 1, j);
      MergeKeepsHeld(MergeUpTo(raw, i - 1), raw[i - 1], focus[j]);
    }
  }

  // ----- joining the decoded windows

  function DecodeWindow(encoded: Bytes, w: Span): (s: string)
    requires w.start <= w.end <= |encoded|
  {
    DecodeIgnore(encoded[w.start..w.end])
  }

  /** The decoded first i windows joined by the separator. */
  function JoinWindows(encoded: Bytes, windows: seq<Span>, i: nat): (s: string)
    requires i <= |windows| && Within(windows, |encoded|)
  {
    if i == 0 then ""
    else if i == 1 then DecodeWindow(encoded, windows[0])
    else JoinWindows(encoded, windows, i - 1) + SEPARATOR + DecodeWindow(encoded, windows[i - 1])
  }

  lemma SeparatorLength()
    ensures ByteLength(SEPARATOR) == SEPARATOR_BYTES
  {
    assert SEPARATOR == [' '] + ['\U{2026}'] + [' '];
    assert ByteLength([' ']) == 1 && ByteLength(['\U{2026}']) == 3;
    ByteLengthAppend([' '], ['\U{2026}']);
    ByteLengthAppend([' '] + ['\U{2026}'], [' ']);
  }

  lemma {:induction false} JoinLength(text: string, windows: seq<Span>, i: nat)
    requires i <= |windows| && Within(windows, |Encode(text)|)
    ensures ByteLength(JoinWindows(Encode(text), windows, i))
         <= TotalLength(windows, i) + SEPARATOR_BYTES * Max(0, i - 1)
  {
    if i > 0 {
      DecodeIgnoreSliceLength(text, windows[i - 1].start, windows[i - 1].end);
      if i > 1 {
        JoinLength(text, windows, i - 1);
        SeparatorLength();
        ByteLengthAppend(JoinWindows(Encode(text), windows, i - 1), SEPARATOR);
        ByteLengthAppend(JoinWindows(Encode(text), windows, i - 1) + SEPARATOR, DecodeWindow(Encode(text), windows[i - 1]));
      }
    }
  }

  function Joined(text: string, windows: seq<Span>): (s: string)
    requires Within(windows, |Encode(text)|)
  {
    JoinWindows(Encode(text), windows, |windows|)
  }

  // ----- fitting windows

  /** The merged windows of the focus spans when `remaining` bytes are left to share out. */
  function Widen(length: nat, focus: seq<Span>, remaining: nat): (windows: seq<Span>)
    requires focus != [] && Within(focus, length)
    ensures Within(windows, length)
  {
    var raw := RawWindows(length, focus, Shares(remaining, |focus|));
    MergeUpToWithin(raw, length, |raw|);
    MergeUpTo(raw, |raw|)
  }

  function JoinedWindows(text: string, focus: seq<Span>, maxBytes: nat): (r: string)
    requires focus != [] && Within(focus, |Encode(text)|) && RequiredBytes(focus) <= maxBytes
  {
    Joined(text, Widen(|Encode(text)|, focus, maxBytes - RequiredBytes(focus)))
  }

  function FitFocusedWindows(text: string, spans: seq<Span>, maxBytes: nat): (r: string)
    requires spans != [] && Within(spans, |text|)
  {
    SelectedCorrect(text, spans, maxBytes);
    var selected := Selected(text, spans, maxBytes);
    ByteSpansCorrect(text, selected);
    if selected == [] then TruncateUtf8(text[spans[|spans| / 2].start..], maxBytes)
    else JoinedWindows(text, ByteSpans(text, selected), maxBytes)
  }

  /** The search for the largest selection that fits. */
  method SelectSpans(text: string, spans: seq<Span>, maxBytes: nat) returns (selected: seq<Span>)
    requires Within(spans, |text|)
    ensures selected == Selected(text, spans, maxBytes)
  {
    hide Distributed;
    hide Fits;
    var count := Min(|spans|, MAX_FOCUSED_WINDOWS);
    ghost var goal := Selected(text, spans, maxBytes);
    while count > 0
      invariant 0 <= count <= |spans|
      invariant goal == Select(text, spans, count, maxBytes)
    {
      DistributedWithin(spans, count, |text|);
      selected := Distributed(spans, count);
      if Fits(text, selected, maxBytes) {
        return;
      }
      count := count - 1;
    }
    return [];
  }

  /** Widening and merging, span by span. */
  method WidenSpans(length: nat, focus: seq<Span>, remaining: nat) returns (windows: seq<Span>)
    requires focus != [] && Within(focus, length)
    ensures windows == Widen(length, focus, remaining)
  {
    hide WindowFor;
    var shared, remainder := remaining / |focus|, remaining % |focus|;
    ghost var shares := Shares(remaining, |focus|);
    ghost var raw := RawWindows(length, focus, shares);
    windows := [];
    for i := 0 to |focus|
      invariant windows == MergeUpTo(raw, i)
    {
      var context := shared + if i < remainder then 1 else 0;
      assert context == shares[i];
      var w := WindowFor(length, focus[i], context);
      assert w == raw[i];
      if windows != [] && w.start <= windows[|windows| - 1].end {
        var previous := windows[|windows| - 1];
        windows := windows[|windows| - 1 := Span(previous.start, Max(previous.end, w.end))];
      } else {
        windows := windows + [w];
      }
    }
  }

  method JoinFocus(text: string, focus: seq<Span>, maxBytes: nat) returns (r: string)
    requires focus != [] && Within(focus, |Encode(text)|) && RequiredBytes(focus) <= maxBytes
    ensures r == JoinedWindows(text, focus, maxBytes)
  {
    hide Encode;
    hide DecodeIgnore;
    var windows := WidenSpans(|Encode(text)|, focus, maxBytes - RequiredBytes(focus));
    r := Joined(text, windows);
  }

  method FitWindows(text: string, spans: seq<Span>, maxBytes: nat) returns (r: string)
    requires spans != [] && Within(spans, |text|)
    ensures r == FitFocusedWindows(text, spans, maxBytes)
  {
    var selected := SelectSpans(text, spans, maxBytes);
    SelectedCorrect(text, spans, maxBytes);
    ByteSpansCorrect(text, selected);
    if selected == [] {
      return TruncateUtf8(text[spans[|spans| / 2].start..], maxBytes);
    }
    r := JoinFocus(text, ByteSpans(text, selected), maxBytes);
  }

  lemma RawWindowsWiden(length: nat, focus: seq<Span>, shares: seq<nat>)
    requires |focus| == |shares| && Within(focus, length)
    ensures Widened(length, focus, shares, RawWindows(length, focus, shares))
  {
  }

  lemma WidenBudget(length: nat, focus: seq<Span>, spare: nat)
    requires focus != [] && Within(focus, length) && Ordered(focus)
    ensures var windows := Widen(length, focus, spare);
            && Gapped(windows) && 0 < |windows| <= |focus|
            && TotalLength(windows, |windows|) <= TotalLength(focus, |focus|) + spare
            && HoldsAll(windows, focus)
  {
    var shares := Shares(spare, |focus|);
    var raw := RawWindows(length, focus, shares);
    RawWindowsWiden(length, focus, shares);
    WindowsGapped(length, focus, shares, raw, |focus|);
    SharesAddUp(spare, |focus|);
    forall i | 0 <= i < |focus| ensures Held(MergeUpTo(raw, |focus|), focus[i]) {
      WindowsHold(length, focus, shares, raw, |focus|, i);
    }
  }

  lemma JoinFits(text: string, windows: seq<Span>, count: nat, total: int, maxBytes: int)
    requires Within(windows, |Encode(text)|) && 0 < |windows| <= count
    requires TotalLength(windows, |windows|) <= total && total + SEPARATOR_BYTES * (count - 1) <= maxBytes
    ensures ByteLength(Joined(text, windows)) <= maxBytes
  {
    JoinLength(text, windows, |windows|);
    assert SEPARATOR_BYTES * (|windows| - 1) <= SEPARATOR_BYTES * (count - 1);
  }

  lemma WidenCorrect(text: string, focus: seq<Span>, spare: nat, maxBytes: int)
    requires focus != [] && Within(focus, |Encode(text)|) && Ordered(focus)
    requires RequiredBytes(focus) + spare <= maxBytes
    ensures var windows := Widen(|Encode(text)|, focus, spare);
            && Gapped(windows) && ByteLength(Joined(text, windows)) <= maxBytes
            && HoldsAll(windows, focus)
  {
    var length := |Encode(text)|;
    WidenBudget(length, focus, spare);
    JoinFits(text, Widen(length, focus, spare), |focus|, TotalLength(focus, |focus|) + spare, maxBytes);
  }

  // ----- what the windowed excerpt promises

  /** The excerpt is the separator-joined texts of windows of the text: whole characters inside each
      window, in text order, disjoint. */
  lemma WindowsAreSlices(text: string, windows: seq<Span>, i: nat, j: nat)
    requires Within(windows, |Encode(text)|) && Gapped(windows) && i < j < |windows|
    ensures DecodeWindow(Encode(text), windows[i]) == Snippet(text, windows[i])
    ensures DecodeWindow(Encode(text), windows[j]) == Snippet(text, windows[j])
    ensures Floor(text, windows[i].end) <= Ceil(text, windows[j].start)
  {
    DecodeIgnoreSlice(text, windows[i].start, windows[i].end);
    DecodeIgnoreSlice(text, windows[j].start, windows[j].end);
    EncodeLength(text);
    FloorCorrect(text, windows[i].end);
    CeilCorrect(text, windows[j].start);
    if Ceil(text, windows[j].start) < Floor(text, windows[i].end) {
      OffsetIncreasing(text, Ceil(text, windows[j].start), Floor(text, windows[i].end));
    }
  }

  /** The characters wholly inside a byte window. */
  function Snippet(text: string, w: Span): (s: string) {
    WholeCharacters(text, w.start, w.end)
  }

  /** A window that holds a span's bytes shows the span's text verbatim. */
  lemma HeldSpanIsShown(text: string, s: Span, w: Span)
    requires s.start < s.end <= |text| && w.end <= |Encode(text)|
    requires w.start <= Offset(text, s.start) && Offset(text, s.end) <= w.end
    ensures w.start <= w.end
    ensures Ceil(text, w.start) <= s.start && s.end <= Floor(text, w.end)
    ensures DecodeIgnore(Encode(text)[w.start..w.end]) == text[Ceil(text, w.start)..Floor(text, w.end)]
  {
    EncodeLength(text);
    OffsetIncreasing(text, s.start, s.end);
    CeilCorrect(text, w.start);
    FloorCorrect(text, w.end);
    DecodeIgnoreSlice(text, w.start, w.end);
  }

  lemma ExcerptHasWindows(text: string, spans: seq<Span>, maxBytes: nat)
    requires spans != [] && Separated(spans) && Within(spans, |text|)
    requires Selected(text, spans, maxBytes) != []
    ensures exists windows :: IsFocusedExcerpt(text, Selected(text, spans, maxBytes), windows, FitFocusedWindows(text, spans, maxBytes))
    ensures ByteLength(FitFocusedWindows(text, spans, maxBytes)) <= maxBytes
  {
    hide IsLargestFitting;
    hide SomeCountFits;
    hide Selected;
    hide Widen;
    hide Joined;
    var selected := Selected(text, spans, maxBytes);
    SelectedCorrect(text, spans, maxBytes);
    ByteSpansCorrect(text, selected);
    var focus := ByteSpans(text, selected);
    var spare := maxBytes - RequiredBytes(focus);
    WidenCorrect(text, focus, spare, maxBytes);
    assert IsFocusedExcerpt(text, selected, Widen(|Encode(text)|, focus, spare), FitFocusedWindows(text, spans, maxBytes));
  }

  ghost predicate IsFocusedExcerpt(text: string, selected: seq<Span>, windows: seq<Span>, r: string) {
    && Within(selected, |text|) && Within(windows, |Encode(text)|)
    && Gapped(windows) && r == Joined(text, windows)
    && HoldsAll(windows, ByteSpans(text, selected))
  }

  // ----- the same in characters

  /** The text positions a byte window shows. */
  function TextWindow(text: string, w: Span): (cut: Span) {
    Span(Ceil(text, w.start), Max(Ceil(text, w.start), Floor(text, w.end)))
  }

  function TextWindows(text: string, windows: seq<Span>): (cuts: seq<Span>) {
    seq(|windows|, i requires 0 <= i < |windows| => TextWindow(text, windows[i]))
  }

  /** The first i slices of the text, joined by the separator. */
  function JoinSlices(text: string, cuts: seq<Span>, i: nat): (s: string)
    requires i <= |cuts| && Within(cuts, |text|)
  {
    if i == 0 then ""
    else if i == 1 then text[cuts[0].start..cuts[0].end]
    else JoinSlices(text, cuts, i - 1) + SEPARATOR + text[cuts[i - 1].start..cuts[i - 1].end]
  }

  /** The excerpt joins slices of the text, disjoint and in order, and each selected span lies within one. */
  ghost predicate IsExcerptOf(text: string, selected: seq<Span>, cuts: seq<Span>, r: string) {
    && Within(cuts, |text|) && Ordered(cuts) && r == JoinSlices(text, cuts, |cuts|)
    && forall k :: 0 <= k < |selected| ==> Held(cuts, selected[k])
  }

  lemma TextWindowsOrdered(text: string, windows: seq<Span>)
    requires Within(windows, |Encode(text)|) && Gapped(windows)
    ensures Within(TextWindows(text, windows), |text|) && Ordered(TextWindows(text, windows))
  {
    var cuts := TextWindows(text, windows);
    EncodeLength(text);
    forall i, j | 0 <= i < j < |cuts| ensures cuts[i].end <= cuts[j].start {
      WindowsAreSlices(text, windows, i, j);
      CeilCorrect(text, windows[i].start);
      CeilCorrect(text, windows[j].start);
    }
  }

  lemma {:induction false} JoinedAreSlices(text: string, windows: seq<Span>, i: nat)
    requires Within(windows, |Encode(text)|) && i <= |windows| && Within(TextWindows(text, windows), |text|)
    ensures JoinWindows(Encode(text), windows, i) == JoinSlices(text, TextWindows(text, windows), i)
  {
    if i > 0 {
      DecodeIgnoreSlice(text, windows[i - 1].start, windows[i - 1].end);
      JoinedAreSlices(text, windows, i - 1);
    }
  }

  /** A span held by a byte window is held by the window's text positions. */
  lemma HeldInText(text: string, windows: seq<Span>, s: Span)
    requires s.start < s.end <= |text| && Within(windows, |Encode(text)|) && Held(windows, ByteSpan(text, s))
    ensures Held(TextWindows(text, windows), s)
  {
    var b := ByteSpan(text, s);
    var i :| 0 <= i < |windows| && windows[i].start <= b.start && b.end <= windows[i].end;
    HeldSpanIsShown(text, s, windows[i]);
    assert TextWindows(text, windows)[i].start <= s.start && s.end <= TextWindows(text, windows)[i].end;
  }

  /** The whole promise of the windowed excerpt, for separated spans of which some count fits: at most
      maxBytes, made of disjoint slices of the text in order, with every selected span verbatim inside one
      of them.  When no count fits, it is the longest prefix within the budget of the text from the middle
      span on. */
  lemma FocusedExcerptCorrect(text: string, spans: seq<Span>, maxBytes: nat)
    requires spans != [] && Separated(spans) && Within(spans, |text|)
    ensures var r := FitFocusedWindows(text, spans, maxBytes);
            && ByteLength(r) <= maxBytes
            && (if SomeCountFits(text, spans, maxBytes) then exists cuts :: IsExcerptOf(text, Selected(text, spans, maxBytes), cuts, r)
                else r == TruncateUtf8(text[spans[|spans| / 2].start..], maxBytes))
  {
    hide JoinWindows;
    hide Fits;
    hide CountFits;
    var selected, r := Selected(text, spans, maxBytes), FitFocusedWindows(text, spans, maxBytes);
    SelectedCorrect(text, spans, maxBytes);
    if selected == [] {
      TruncateIsLongestPrefix(text[spans[|spans| / 2].start..], maxBytes);
    } else {
      ExcerptHasWindows(text, spans, maxBytes);
      var windows :| IsFocusedExcerpt(text, selected, windows, r);
      var cuts := TextWindows(text, windows);
      TextWindowsOrdered(text, windows);
      JoinedAreSlices(text, windows, |windows|);
      forall k | 0 <= k < |selected| ensures Held(cuts, selected[k]) {
        assert Held(windows, ByteSpans(text, selected)[k]);
        HeldInText(text, windows, selected[k]);
      }
      assert IsExcerptOf(text, selected, cuts, r);
    }
  }
}
