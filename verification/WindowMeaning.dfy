/** What the windows of a focused excerpt in src/soloscale/evidence_agent.py are, said without the steps
    that compute them: evenly spread spans, even shares, centred windows. */
module WindowMeaning {
  import opened PyText
  import opened Utf8
  import opened FocusSpans
  import opened FocusWindows

  // ----- evenly spread spans

  /** The index is the k-th of count - 1 equal parts of the way to the last one, rounded down. */
  predicate IsSpread(last: nat, count: nat, k: nat, index: nat)
    requires count > 1
  {
    index * (count - 1) <= k * last < (index + 1) * (count - 1)
  }

  lemma SpreadIsEven(last: nat, count: nat, k: nat)
    requires count > 1
    ensures IsSpread(last, count, k, SpreadIndex(k, last, count))
  {
    var a, d := k * last, count - 1;
    var q := a / d;
    assert q * d <= a;
    assert (q + 1) * d == q * d + d;
  }

  /** One span is taken from the middle, several are taken at equal steps. */
  ghost predicate IsEvenChoice(spans: seq<Span>, selected: seq<Span>) {
    && 1 <= |selected| <= |spans|
    && (|selected| == 1 ==> exists m :: 0 <= m < |spans| && selected[0] == spans[m] && 0 <= m - (|spans| - 1 - m) <= 1)
    && (|selected| > 1 ==> forall k :: 0 <= k < |selected| ==> IsAtSpread(spans, |selected|, k, selected[k]))
  }

  ghost predicate IsAtSpread(spans: seq<Span>, count: nat, k: nat, s: Span)
    requires count > 1
  {
    exists index: nat :: index < |spans| && IsSpread(|spans| - 1, count, k, index) && s == spans[index]
  }

  lemma DistributedIsEven(spans: seq<Span>, count: nat)
    requires 1 <= count <= |spans|
    ensures IsEvenChoice(spans, Distributed(spans, count))
  {
    var selected := Distributed(spans, count);
    if count == 1 {
      var m := |spans| / 2;
      assert selected[0] == spans[m] && 0 <= m - (|spans| - 1 - m) <= 1;
    } else {
      SpreadInRange(|spans| - 1, count);
      forall k | 0 <= k < count ensures IsAtSpread(spans, count, k, selected[k]) {
        SpreadIsEven(|spans| - 1, count, k);
        assert selected[k] == spans[SpreadIndex(k, |spans| - 1, count)];
      }
    }
  }

  // ----- when a choice fits

  lemma {:induction false} BytesOfSlices(text: string, spans: seq<Span>, i: nat)
    requires 0 < i <= |spans| && Within(spans, |text|)
    ensures ByteLength(JoinSlices(text, spans, i)) == TotalLength(ByteSpans(text, spans), i) + SEPARATOR_BYTES * (i - 1)
  {
    hide ByteLength;
    var s := text[spans[i - 1].start..spans[i - 1].end];
    ByteLengthSlice(text, spans[i - 1].start, spans[i - 1].end);
    if i > 1 {
      BytesOfSlices(text, spans, i - 1);
      SeparatorLength();
      ByteLengthAppend(JoinSlices(text, spans, i - 1), SEPARATOR);
      ByteLengthAppend(JoinSlices(text, spans, i - 1) + SEPARATOR, s);
    }
  }

  /** A choice fits exactly when its spans' texts, joined by separators, fit. */
  lemma FitsIff(text: string, selected: seq<Span>, maxBytes: nat)
    requires selected != [] && Within(selected, |text|)
    ensures Fits(text, selected, maxBytes) <==> ByteLength(JoinSlices(text, selected, |selected|)) <= maxBytes
  {
    BytesOfSlices(text, selected, |selected|);
  }

  // ----- even shares

  /** The shares use up the spare bytes, and earlier ones are at most one larger than later ones. */
  ghost predicate AreEvenShares(spare: nat, shares: seq<nat>) {
    && Sum(shares, |shares|) == spare
    && forall i, j :: 0 <= i < j < |shares| ==> shares[j] <= shares[i] <= shares[j] + 1
  }

  lemma SharesAreEven(spare: nat, count: nat)
    requires count > 0
    ensures AreEvenShares(spare, Shares(spare, count))
  {
    SharesAddUp(spare, count);
  }

  // ----- centred windows

  /** The window has its share of context, half of it before the span; at an end of the text what is missing
      there is added on the other side. */
  predicate IsCentred(length: nat, focus: Span, context: nat, w: Span) {
    var before := context / 2;
    var size := focus.end - focus.start + context;
    if before <= focus.start && focus.end + (context - before) <= length
    then w == Span(focus.start - before, focus.end + (context - before))
    else if focus.start < before then w == Span(0, Min(length, size))
    else w == Span(Max(0, length - size), length)
  }

  lemma WindowIsCentred(length: nat, focus: Span, context: nat)
    requires focus.start <= focus.end <= length
    ensures IsCentred(length, focus, context, WindowFor(length, focus, context))
  {
  }

  // ----- merged windows

  /** The position lies in the i-th window, and no earlier window starts behind it. */
  ghost predicate ReachedBy(raw: seq<Span>, i: nat, x: int)
    requires i < |raw|
  {
    raw[i].start <= x < raw[i].end && forall k :: 0 <= k < i ==> raw[k].start <= x
  }

  /** The merged windows show positions of the given windows only, and every position of one of them that no
      earlier window starts behind. */
  ghost predicate ShowsWindows(windows: seq<Span>, raw: seq<Span>) {
    && (forall x :: Inside(windows, x) ==> Inside(raw, x))
    && (forall i, x :: 0 <= i < |raw| && ReachedBy(raw, i, x) ==> Inside(windows, x))
  }

  ghost predicate StartsAreOf(windows: seq<Span>, raw: seq<Span>, i: nat)
    requires i <= |raw|
  {
    forall j :: 0 <= j < |windows| ==> exists k :: 0 <= k < i && windows[j].start == raw[k].start
  }

  lemma {:induction false} MergedShow(raw: seq<Span>, i: nat)
    requires i <= |raw|
    ensures var windows := MergeUpTo(raw, i);
            && ShowsWindows(windows, raw[..i]) && StartsAreOf(windows, raw, i)
    decreases i
  {
    if i > 0 {
      MergedShow(raw, i - 1);
      var before, w := MergeUpTo(raw, i - 1), raw[i - 1];
      var after := MergeStep(before, w);
      assert raw[..i] == raw[..i - 1] + [w];
      MergeStarts(before, raw, i);
      forall x | Inside(after, x) ensures Inside(raw[..i], x) {
        StepShowsNothingElse(before, w, x);
        InsideConcat(raw[..i - 1], [w], x);
        InsideOne(w, x);
      }
      forall j, x | 0 <= j < i && ReachedBy(raw[..i], j, x) ensures Inside(after, x) {
        if j < i - 1 {
          assert ReachedBy(raw[..i - 1], j, x);
          StepKeeps(before, w, x);
        } else {
          StepReaches(before, raw, i, x);
        }
      }
    }
  }

  lemma MergeStarts(before: seq<Span>, raw: seq<Span>, i: nat)
    requires 0 < i <= |raw| && StartsAreOf(before, raw, i - 1)
    ensures StartsAreOf(MergeStep(before, raw[i - 1]), raw, i)
  {
    var after := MergeStep(before, raw[i - 1]);
    forall j | 0 <= j < |after| ensures exists k :: 0 <= k < i && after[j].start == raw[k].start {
      if j < |before| {
        var k :| 0 <= k < i - 1 && before[j].start == raw[k].start;
        assert after[j].start == raw[k].start;
      } else {
        assert after[j].start == raw[i - 1].start;
      }
    }
  }

  lemma StepShowsNothingElse(before: seq<Span>, w: Span, x: int)
    requires Inside(MergeStep(before, w), x)
    ensures Inside(before, x) || w.start <= x < w.end
  {
    var after := MergeStep(before, w);
    var i :| 0 <= i < |after| && after[i].start <= x < after[i].end;
    if i < |before| && x < before[i].end {
      assert before[i].start <= x < before[i].end;
    }
  }

  lemma StepKeeps(before: seq<Span>, w: Span, x: int)
    requires Inside(before, x)
    ensures Inside(MergeStep(before, w), x)
  {
    var i :| 0 <= i < |before| && before[i].start <= x < before[i].end;
    var after := MergeStep(before, w);
    assert after[i].start <= x < after[i].end;
  }

  lemma StepReaches(before: seq<Span>, raw: seq<Span>, i: nat, x: int)
    requires 0 < i <= |raw| && StartsAreOf(before, raw, i - 1) && ReachedBy(raw[..i], i - 1, x)
    ensures Inside(MergeStep(before, raw[i - 1]), x)
  {
    var w := raw[i - 1];
    var n, after := |before|, MergeStep(before, w);
    if n == 0 || w.start > before[n - 1].end {
      assert after[n].start <= x < after[n].end;
    } else {
      var k :| 0 <= k < i - 1 && before[n - 1].start == raw[k].start;
      assert raw[..i][k] == raw[k];
      assert after[n - 1].start <= x < after[n - 1].end;
    }
  }

  // ----- the windows of an excerpt

  /** Every span has a centred window with an even share of the spare bytes; these are what is shown. */
  ghost predicate ShowsCentred(length: nat, focus: seq<Span>, spare: nat, windows: seq<Span>) {
    exists shares: seq<nat>, raw: seq<Span> ::
      && |shares| == |raw| == |focus| && AreEvenShares(spare, shares)
      && (forall i :: 0 <= i < |focus| ==> IsCentred(length, focus[i], shares[i], raw[i]))
      && ShowsWindows(windows, raw)
  }

  lemma WidenShowsCentred(length: nat, focus: seq<Span>, spare: nat)
    requires focus != [] && Within(focus, length)
    ensures ShowsCentred(length, focus, spare, Widen(length, focus, spare))
  {
    var shares := Shares(spare, |focus|);
    var raw := RawWindows(length, focus, shares);
    SharesAreEven(spare, |focus|);
    MergedShow(raw, |raw|);
    assert raw[..|raw|] == raw;
    forall i | 0 <= i < |focus| ensures IsCentred(length, focus[i], shares[i], raw[i]) {
      WindowIsCentred(length, focus[i], shares[i]);
    }
  }

  /** The excerpt shows the whole characters of centred windows around the selected spans, in order and
      disjoint, joined by separators, and so each selected span verbatim. */
  ghost predicate IsCentredExcerpt(text: string, selected: seq<Span>, maxBytes: nat, windows: seq<Span>, r: string) {
    && selected != [] && Within(selected, |text|) && Within(windows, |Encode(text)|) && Gapped(windows)
    && var cost := ByteLength(JoinSlices(text, selected, |selected|));
       && cost <= maxBytes && ShowsCentred(|Encode(text)|, ByteSpans(text, selected), maxBytes - cost, windows)
       && Within(TextWindows(text, windows), |text|)
       && IsExcerptOf(text, selected, TextWindows(text, windows), r)
  }

  lemma AllHeldInText(text: string, selected: seq<Span>, windows: seq<Span>)
    requires Within(selected, |text|) && Within(windows, |Encode(text)|) && Separated(selected)
    requires HoldsAll(windows, ByteSpans(text, selected))
    ensures forall k :: 0 <= k < |selected| ==> Held(TextWindows(text, windows), selected[k])
  {
    hide Held;
    hide Encode;
    hide TextWindows;
    forall k | 0 <= k < |selected| ensures Held(TextWindows(text, windows), selected[k]) {
      assert Held(windows, ByteSpans(text, selected)[k]);
      HeldInText(text, windows, selected[k]);
    }
  }

  lemma WindowsAreCentredExcerpt(text: string, selected: seq<Span>, maxBytes: nat)
    requires selected != [] && Separated(selected) && Within(selected, |text|) && Fits(text, selected, maxBytes)
    requires Within(ByteSpans(text, selected), |Encode(text)|) && Ordered(ByteSpans(text, selected))
    ensures var focus := ByteSpans(text, selected);
            var windows := Widen(|Encode(text)|, focus, maxBytes - RequiredBytes(focus));
            IsCentredExcerpt(text, selected, maxBytes, windows, Joined(text, windows))
  {
    hide Widen;
    hide JoinWindows;
    hide ShowsCentred;
    hide ByteLength;
    hide Encode;
    hide Held;
    hide TextWindows;
    var focus := ByteSpans(text, selected);
    var spare := maxBytes - RequiredBytes(focus);
    var windows := Widen(|Encode(text)|, focus, spare);
    BytesOfSlices(text, selected, |selected|);
    WidenCorrect(text, focus, spare, maxBytes);
    WidenShowsCentred(|Encode(text)|, focus, spare);
    TextWindowsOrdered(text, windows);
    JoinedAreSlices(text, windows, |windows|);
    AllHeldInText(text, selected, windows);
    assert |TextWindows(text, windows)| == |windows| by { SameNumber(text, windows); }
  }

  lemma SameNumber(text: string, windows: seq<Span>)
    ensures |TextWindows(text, windows)| == |windows|
  {
  }

  /** The windowed excerpt, when some count of spans fits. */
  lemma ExcerptIsCentred(text: string, spans: seq<Span>, maxBytes: nat)
    requires spans != [] && Separated(spans) && Within(spans, |text|) && Selected(text, spans, maxBytes) != []
    ensures exists windows :: IsCentredExcerpt(text, Selected(text, spans, maxBytes), maxBytes, windows, FitFocusedWindows(text, spans, maxBytes))
  {
    hide IsCentredExcerpt;
    hide IsLargestFitting;
    hide SomeCountFits;
    hide Selected;
    hide Widen;
    hide Joined;
    hide Encode;
    var selected := Selected(text, spans, maxBytes);
    SelectedCorrect(text, spans, maxBytes);
    ByteSpansCorrect(text, selected);
    WindowsAreCentredExcerpt(text, selected, maxBytes);
    var focus := ByteSpans(text, selected);
    var windows := Widen(|Encode(text)|, focus, maxBytes - RequiredBytes(focus));
    assert IsCentredExcerpt(text, selected, maxBytes, windows, FitFocusedWindows(text, spans, maxBytes));
  }
}
