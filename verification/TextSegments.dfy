/** `_text_segments` of src/soloscale/conversation_intake.py: cutting a long message into
    overlapping retrieval units of at most 1200 bytes without splitting a character. */
module TextSegments {
  import opened Wrappers
  import opened Utf8
  import opened PyText

  const MAX_CHUNK_BYTES: nat := 1200
  const OVERLAP_BYTES: nat := 200

  /** A byte range [start, end) of the encoded text. */
  datatype Window = Window(start: nat, end: nat)

  datatype SegmentError = CouldNotSegment | InvalidUtf8

  /** Moves the end of a window back off continuation bytes. */
  function PullBack(bytes: Bytes, start: nat, end: nat): (r: nat)
    requires start <= end <= |bytes|
    ensures start <= r <= end
    decreases end
  {
    if end < |bytes| && end > start && IsContinuation(bytes[end]) then PullBack(bytes, start, end - 1) else end
  }

  function WindowEnd(bytes: Bytes, start: nat): (end: nat)
    requires start < |bytes|
    ensures start <= end <= |bytes|
  {
    PullBack(bytes, start, Min(start + MAX_CHUNK_BYTES, |bytes|))
  }

  function NextStart(bytes: Bytes, start: nat): (next: nat)
    requires start < |bytes| && start < WindowEnd(bytes, start)
    ensures start < next <= WindowEnd(bytes, start)
  {
    var end := WindowEnd(bytes, start);
    var next := SkipContinuation(bytes, Max(start, end - OVERLAP_BYTES), end);
    if next <= start then end else next
  }

  /** The windows from byte `start` on, or None when a window would be empty. */
  function Windows(bytes: Bytes, start: nat): (windows: Option<seq<Window>>)
    requires start < |bytes|
    decreases |bytes| - start
  {
    var end := WindowEnd(bytes, start);
    if end <= start then None
    else if end >= |bytes| then Some([Window(start, end)])
    else
      var next := NextStart(bytes, start);
      match Windows(bytes, next)
      case None => None
      case Some(rest) => Some([Window(start, end)] + rest)
  }

  /** The stripped texts of the windows, blank ones dropped; an undecodable window is an error. */
  function WindowTexts(bytes: Bytes, windows: seq<Window>): (texts: Option<seq<string>>)
    requires forall w :: w in windows ==> w.start <= w.end <= |bytes|
  {
    if windows == [] then Some([])
    else match (Decode(bytes[windows[0].start..windows[0].end]), WindowTexts(bytes, windows[1..]))
      case (Some(text), Some(rest)) => Some(NonBlank(text) + rest)
      case _ => None
  }

  ghost predicate GoodWindow(s: string, w: Window) {
    && IsBoundary(s, w.start) && IsBoundary(s, w.end)
    && 0 < w.end - w.start <= MAX_CHUNK_BYTES
  }

  /** What one window and the next have to do with each other. */
  ghost predicate Linked(w: Window, v: Window) {
    && 197 <= w.end - v.start <= OVERLAP_BYTES
    && 997 <= v.start - w.start
    && w.end < v.end
  }

  ghost predicate Chain(s: string, windows: seq<Window>) {
    && |windows| > 0 && windows[|windows| - 1].end == ByteLength(s)
    && (forall i :: 0 <= i < |windows| ==> GoodWindow(s, windows[i]))
    && (forall i :: 0 <= i < |windows| - 1 ==> Linked(windows[i], windows[i + 1]))
  }

  method EndOfWindow(bytes: Bytes, start: nat) returns (end: nat)
    requires start < |bytes|
    ensures end == WindowEnd(bytes, start)
  {
    end := Min(start + MAX_CHUNK_BYTES, |bytes|);
    while end < |bytes| && end > start && IsContinuation(bytes[end])
      invariant start <= end <= |bytes|
      invariant PullBack(bytes, start, end) == WindowEnd(bytes, start)
      decreases end
    {
      end := end - 1;
    }
  }

  method StartOfNextWindow(bytes: Bytes, start: nat, end: nat) returns (next: nat)
    requires start < |bytes| && start < WindowEnd(bytes, start) == end
    ensures next == NextStart(bytes, start)
  {
    next := Max(start, end - OVERLAP_BYTES);
    while next < end && IsContinuation(bytes[next])
      invariant start <= next <= end
      invariant SkipContinuation(bytes, next, end) == SkipContinuation(bytes, Max(start, end - OVERLAP_BYTES), end)
    {
      next := next + 1;
    }
    next := if next <= start then end else next;
  }

  /** The segments from byte `start` on, with the source's two error exits. */
  function SegmentsFrom(bytes: Bytes, start: nat): (r: Result<seq<string>, SegmentError>)
    requires start < |bytes|
    decreases |bytes| - start
  {
    var end := WindowEnd(bytes, start);
    if end <= start then Err(CouldNotSegment)
    else
      var decoded := Decode(bytes[start..end]);
      if decoded.None? then Err(InvalidUtf8)
      else if end >= |bytes| then Ok(NonBlank(decoded.value))
      else Prepend(NonBlank(decoded.value), SegmentsFrom(bytes, NextStart(bytes, start)))
  }

  function NonBlank(text: string): (r: seq<string>) {
    if Strip(text) == "" then [] else [Strip(text)]
  }

  /** The main loop, on any bytes. */
  method SegmentBytes(encoded: Bytes) returns (r: Result<seq<string>, SegmentError>)
    requires encoded != []
    ensures r == SegmentsFrom(encoded, 0)
  {
    var segments: seq<string> := [];
    var start := 0;
    PrependTwice([], [], SegmentsFrom(encoded, 0));
    while true
      invariant start < |encoded|
      invariant SegmentsFrom(encoded, 0) == Prepend(segments, SegmentsFrom(encoded, start))
      decreases |encoded| - start
    {
      var end := EndOfWindow(encoded, start);
      if end <= start {
        return Err(CouldNotSegment);
      }
      var decoded := Decode(encoded[start..end]);
      if decoded.None? {
        return Err(InvalidUtf8);
      }
      ghost var before := segments;
      var segment := Strip(decoded.value);
      if segment != "" {
        segments := segments + [segment];
      }
      assert segments == before + NonBlank(decoded.value);
      if end >= |encoded| {
        return Ok(segments);
      }
      PrependTwice(before, NonBlank(decoded.value), SegmentsFrom(encoded, NextStart(encoded, start)));
      start := StartOfNextWindow(encoded, start, end);
    }
  }

  /** Never takes an error exit; a short text is its own segment, a long one is cut into the
      stripped texts of its windows. */
  method Segments(text: string) returns (r: Result<seq<string>, SegmentError>)
    ensures r.Ok? && IsSegmentation(text, r.value)
  {
    var normalized := Strip(text);
    if normalized == "" {
      return Ok([]);
    }
    var encoded := Encode(normalized);
    EncodeLength(normalized);
    if |encoded| <= MAX_CHUNK_BYTES {
      return Ok([normalized]);
    }
    EndsAreBoundaries(normalized);
    WindowsChain(normalized, 0);
    WindowsDecode(normalized, Windows(encoded, 0).value);
    SegmentsAreWindowTexts(normalized, 0);
    r := SegmentBytes(encoded);
  }

  /** The segments are the non-blank stripped texts of the windows of the encoded text. */
  ghost predicate CutsAs(s: string, segments: seq<string>) {
    var bytes := Encode(s);
    && bytes != [] && Windows(bytes, 0).Some?
    && InRange(bytes, Windows(bytes, 0).value)
    && WindowTexts(bytes, Windows(bytes, 0).value) == Some(segments)
  }

  /** Nothing, the stripped text as one segment, or what its windows give. */
  ghost predicate IsSegmentation(text: string, segments: seq<string>) {
    var s := Strip(text);
    if s == "" then segments == []
    else if ByteLength(s) <= MAX_CHUNK_BYTES then segments == [s]
    else CutsAs(s, segments)
  }

  ghost predicate InRange(bytes: Bytes, windows: seq<Window>) {
    forall w :: w in windows ==> w.start <= w.end <= |bytes|
  }

  /** On an encoded text the loop takes no error exit. */
  lemma {:induction false} SegmentsAreWindowTexts(s: string, start: nat)
    requires start < |Encode(s)| && IsBoundary(s, start)
    ensures Windows(Encode(s), start).Some? && InRange(Encode(s), Windows(Encode(s), start).value)
    ensures WindowTexts(Encode(s), Windows(Encode(s), start).value).Some?
    ensures SegmentsFrom(Encode(s), start)
         == Ok(WindowTexts(Encode(s), Windows(Encode(s), start).value).value)
    decreases |Encode(s)| - start
  {
    WindowEndFacts(s, start);
    WindowsChain(s, start);
    var end := WindowEnd(Encode(s), start);
    var windows := Windows(Encode(s), start).value;
    WindowsDecode(s, windows);
    var i, j := WindowIsSlice(s, Window(start, end));
    if end < |Encode(s)| {
      NextWindowFacts(s, start);
      SegmentsAreWindowTexts(s, NextStart(Encode(s), start));
      assert windows[1..] == Windows(Encode(s), NextStart(Encode(s), start)).value;
    } else {
      assert windows[1..] == [];
      assert NonBlank(s[i..j]) + [] == NonBlank(s[i..j]);
    }
  }

  // ----- the windows

  lemma {:induction false} PullBackCorrect(s: string, start: nat, end: nat)
    requires start <= end <= |Encode(s)| && IsBoundary(s, start)
    ensures IsBoundary(s, PullBack(Encode(s), start, end))
    ensures forall k :: PullBack(Encode(s), start, end) < k <= end ==> !IsBoundary(s, k)
    decreases end
  {
    if end < |Encode(s)| {
      ContinuationIsInside(s, end);
      if end > start && IsContinuation(Encode(s)[end]) {
        PullBackCorrect(s, start, end - 1);
      }
    } else {
      EncodeLength(s);
      ByteLengthSlice(s, 0, |s|);
    }
  }

  lemma WindowEndFacts(s: string, start: nat)
    requires start < |Encode(s)| && IsBoundary(s, start)
    ensures var end := WindowEnd(Encode(s), start);
            && IsBoundary(s, end) && start < end <= start + MAX_CHUNK_BYTES
            && (end < |Encode(s)| ==> start + 1197 <= end)
  {
    EncodeLength(s);
    var limit := Min(start + MAX_CHUNK_BYTES, |Encode(s)|);
    PullBackCorrect(s, start, limit);
    BoundaryNearby(s, limit);
    if limit == |Encode(s)| {
      ByteLengthSlice(s, 0, |s|);
      assert IsBoundary(s, limit);
    }
  }

  lemma NextWindowFacts(s: string, start: nat)
    requires start < |Encode(s)| && IsBoundary(s, start)
    requires start < WindowEnd(Encode(s), start) < |Encode(s)|
    ensures var next := NextStart(Encode(s), start); var end := WindowEnd(Encode(s), start);
            && IsBoundary(s, next) && next < |Encode(s)|
            && 197 <= end - next <= OVERLAP_BYTES && 997 <= next - start
            && end < WindowEnd(Encode(s), next)
  {
    EncodeLength(s);
    WindowEndFacts(s, start);
    var end := WindowEnd(Encode(s), start);
    SkipContinuationCorrect(s, end - OVERLAP_BYTES, end);
    BoundaryNearby(s, end - OVERLAP_BYTES);
    WindowEndFacts(s, NextStart(Encode(s), start));
  }

  lemma ChainCons(s: string, w: Window, rest: seq<Window>)
    requires GoodWindow(s, w) && Chain(s, rest) && Linked(w, rest[0])
    ensures Chain(s, [w] + rest)
  {
    var all := [w] + rest;
    forall i | 0 <= i < |all| - 1 ensures Linked(all[i], all[i + 1]) {
      if i > 0 { assert Linked(rest[i - 1], rest[i - 1 + 1]); }
    }
  }

  lemma {:induction false} WindowsChain(s: string, start: nat)
    requires start < |Encode(s)| && IsBoundary(s, start)
    ensures Windows(Encode(s), start).Some?
    ensures Chain(s, Windows(Encode(s), start).value)
    ensures Windows(Encode(s), start).value[0] == Window(start, WindowEnd(Encode(s), start))
    decreases |Encode(s)| - start
  {
    WindowEndFacts(s, start);
    var end := WindowEnd(Encode(s), start);
    if end < |Encode(s)| {
      NextWindowFacts(s, start);
      WindowsChain(s, NextStart(Encode(s), start));
      ChainCons(s, Window(start, end), Windows(Encode(s), NextStart(Encode(s), start)).value);
    } else {
      EncodeLength(s);
    }
  }

  lemma WindowIsSlice(s: string, w: Window) returns (i: nat, j: nat)
    requires IsBoundary(s, w.start) && IsBoundary(s, w.end) && w.start < w.end
    ensures i < j <= |s| && Offset(s, i) == w.start && Offset(s, j) == w.end
    ensures w.end <= |Encode(s)| && Decode(Encode(s)[w.start..w.end]) == Some(s[i..j])
  {
    i :| 0 <= i <= |s| && Offset(s, i) == w.start;
    j :| 0 <= j <= |s| && Offset(s, j) == w.end;
    if j <= i { OffsetIncreasing(s, j, i); }
    EncodeSlice(s, i, j);
    DecodeEncode(s[i..j]);
  }

  ghost predicate WithinText(s: string, windows: seq<Window>) {
    forall k :: 0 <= k < |windows| ==>
      IsBoundary(s, windows[k].start) && IsBoundary(s, windows[k].end) && windows[k].start < windows[k].end
  }

  ghost predicate Fit(texts: seq<string>) {
    forall k :: 0 <= k < |texts| ==> ByteLength(texts[k]) <= MAX_CHUNK_BYTES
  }

  lemma WindowsInRange(s: string, windows: seq<Window>)
    requires WithinText(s, windows)
    ensures forall w :: w in windows ==> w.start <= w.end <= |Encode(s)|
  {
    forall w | w in windows ensures w.start <= w.end <= |Encode(s)| {
      var i, j := WindowIsSlice(s, w);
    }
  }

  lemma StripNotLonger(s: string)
    ensures ByteLength(Strip(s)) <= ByteLength(s)
  {
    SliceNotLonger(s, StripStart(s), StripEnd(s));
  }

  lemma WindowTextsCons(s: string, windows: seq<Window>)
    requires WithinText(s, windows) && windows != [] && InRange(Encode(s), windows)
    requires WindowTexts(Encode(s), windows[1..]).Some?
    ensures WindowTexts(Encode(s), windows).Some?
    ensures exists t :: (ByteLength(t) <= windows[0].end - windows[0].start
                && WindowTexts(Encode(s), windows).value == NonBlank(t) + WindowTexts(Encode(s), windows[1..]).value)
  {
    var i, j := WindowIsSlice(s, windows[0]);
    ByteLengthSlice(s, i, j);
  }

  lemma {:induction false} WindowsDecode(s: string, windows: seq<Window>)
    requires WithinText(s, windows)
    requires forall k :: 0 <= k < |windows| ==> windows[k].end - windows[k].start <= MAX_CHUNK_BYTES
    ensures forall w :: w in windows ==> w.start <= w.end <= |Encode(s)|
    ensures WindowTexts(Encode(s), windows).Some? && Fit(WindowTexts(Encode(s), windows).value)
  {
    WindowsInRange(s, windows);
    if windows != [] {
      WindowsDecode(s, windows[1..]);
      WindowTextsCons(s, windows);
      var t :| ByteLength(t) <= windows[0].end - windows[0].start
        && WindowTexts(Encode(s), windows).value == NonBlank(t) + WindowTexts(Encode(s), windows[1..]).value;
      StripNotLonger(t);
    }
  }

  // ----- nothing is lost

  /** The concatenation of the windows, each without the bytes it shares with its predecessor. */
  function WithoutOverlaps(bytes: Bytes, windows: seq<Window>, from: nat): (joined: Bytes)
    requires forall w :: w in windows ==> w.end <= |bytes|
  {
    if windows == [] then []
    else
      (if from <= windows[0].end then bytes[from..windows[0].end] else [])
      + WithoutOverlaps(bytes, windows[1..], windows[0].end)
  }

  lemma ChainTail(s: string, windows: seq<Window>)
    requires Chain(s, windows) && |windows| > 1
    ensures Chain(s, windows[1..])
  {
    forall i | 0 <= i < |windows[1..]| - 1 ensures Linked(windows[1..][i], windows[1..][i + 1]) {
      assert Linked(windows[i + 1], windows[i + 1 + 1]);
    }
  }

  lemma {:induction false} WindowsRebuildText(s: string, windows: seq<Window>, from: nat)
    requires Chain(s, windows) && windows[0].start <= from <= windows[0].end
    ensures forall w :: w in windows ==> w.end <= |Encode(s)|
    ensures WithoutOverlaps(Encode(s), windows, from) == Encode(s)[from..]
    decreases |windows|
  {
    WindowsInRange(s, windows);
    EncodeLength(s);
    if |windows| > 1 {
      assert Linked(windows[0], windows[0 + 1]);
      ChainTail(s, windows);
      WindowsRebuildText(s, windows[1..], windows[0].end);
      assert WithoutOverlaps(Encode(s), windows, from)
          == Encode(s)[from..windows[0].end] + Encode(s)[windows[0].end..];
    } else {
      assert windows[1..] == [];
    }
  }

  /** Character c of s lies in one of the texts, which are slices of s. */
  ghost predicate Kept(s: string, texts: seq<string>, c: nat) {
    exists k: nat, a: nat, b: nat :: k < |texts| && a <= c < b <= |s| && texts[k] == s[a..b]
  }

  lemma StripKeeps(s: string, i: nat, j: nat, c: nat)
    requires i <= c < j <= |s| && !IsSpace(s[c])
    ensures exists a: nat, b: nat :: a <= c < b <= |s| && Strip(s[i..j]) == s[a..b]
    ensures Strip(s[i..j]) != ""
  {
    var piece := s[i..j];
    StripIsSlice(piece);
    assert piece[c - i] == s[c];
    SliceOfSlice(s, i, j, StripStart(piece), StripEnd(piece));
  }

  lemma KeptByLaterText(s: string, first: seq<string>, rest: seq<string>, c: nat)
    requires Kept(s, rest, c)
    ensures Kept(s, first + rest, c)
  {
    var k: nat, a: nat, b: nat :| k < |rest| && a <= c < b <= |s| && rest[k] == s[a..b];
    assert (first + rest)[|first| + k] == s[a..b];
  }

  /** Every non-blank character of a long message survives in some segment. */
  lemma {:induction false} NoCharacterLost(s: string, windows: seq<Window>, c: nat)
    requires Chain(s, windows) && c < |s| && !IsSpace(s[c])
    requires windows[0].start <= Offset(s, c)
    requires forall w :: w in windows ==> w.start <= w.end <= |Encode(s)|
    requires WindowTexts(Encode(s), windows).Some?
    ensures Kept(s, WindowTexts(Encode(s), windows).value, c)
    decreases |windows|
  {
    var i, j := WindowIsSlice(s, windows[0]);
    var texts := WindowTexts(Encode(s), windows).value;
    if c < j {
      if c < i { OffsetIncreasing(s, c, i); }
      StripKeeps(s, i, j, c);
      assert texts[0] == Strip(s[i..j]);
    } else {
      OffsetIncreasing(s, j, c);
      OffsetIncreasing(s, c, c + 1);
      assert Linked(windows[0], windows[0 + 1]);
      ChainTail(s, windows);
      NoCharacterLost(s, windows[1..], c);
      KeptByLaterText(s, texts[..|texts| - |WindowTexts(Encode(s), windows[1..]).value|],
                      WindowTexts(Encode(s), windows[1..]).value, c);
    }
  }

  // ----- the segments come in the order of their windows

  predicate IsBlankWindow(bytes: Bytes, w: Window)
    requires w.start <= w.end <= |bytes|
  {
    var text := Decode(bytes[w.start..w.end]);
    text.Some? && Strip(text.value) == ""
  }

  /** The segments are the stripped texts of the windows at these positions, in order; all other windows
      are blank. */
  ghost predicate FollowsWindows(bytes: Bytes, windows: seq<Window>, segments: seq<string>, kept: seq<nat>)
    requires InRange(bytes, windows)
  {
    && |kept| == |segments| && (forall i, j :: 0 <= i < j < |kept| ==> kept[i] < kept[j])
    && (forall k :: 0 <= k < |kept| ==> kept[k] < |windows| && IsStrippedText(bytes, windows[kept[k]], segments[k]))
    && (forall i :: 0 <= i < |windows| && i !in kept ==> IsBlankWindow(bytes, windows[i]))
  }

  ghost predicate IsStrippedText(bytes: Bytes, w: Window, segment: string) {
    w.start <= w.end <= |bytes| && segment != ""
    && Decode(bytes[w.start..w.end]).Some? && segment == Strip(Decode(bytes[w.start..w.end]).value)
  }

  function Moved(positions: seq<nat>): (r: seq<nat>) {
    seq(|positions|, k requires 0 <= k < |positions| => positions[k] + 1)
  }

  lemma {:induction false} SegmentsInOrder(bytes: Bytes, windows: seq<Window>) returns (kept: seq<nat>)
    requires InRange(bytes, windows) && WindowTexts(bytes, windows).Some?
    ensures FollowsWindows(bytes, windows, WindowTexts(bytes, windows).value, kept)
  {
    hide Decode;
    hide Strip;
    hide FollowsWindows;
    if windows == [] {
      kept := [];
      assert FollowsWindows(bytes, [], [], []) by { NothingFollowsNothing(bytes); }
    } else {
      var rest := WindowTexts(bytes, windows[1..]).value;
      var later := SegmentsInOrder(bytes, windows[1..]);
      var text := Decode(bytes[windows[0].start..windows[0].end]).value;
      if Strip(text) == "" {
        kept := Moved(later);
        BlankWindowFirst(bytes, windows, rest, later);
        assert NonBlank(text) + rest == rest;
      } else {
        kept := [0] + Moved(later);
        MovedPositions(bytes, windows, rest, later);
        KeptWindowFirst(bytes, windows, Strip(text), rest, Moved(later));
      }
    }
  }

  lemma NothingFollowsNothing(bytes: Bytes)
    ensures FollowsWindows(bytes, [], [], [])
  {
  }

  lemma MovedPositions(bytes: Bytes, windows: seq<Window>, rest: seq<string>, later: seq<nat>)
    requires windows != [] && InRange(bytes, windows) && FollowsWindows(bytes, windows[1..], rest, later)
    ensures |later| == |rest|
    ensures forall i, j :: 0 <= i < j < |later| ==> Moved(later)[i] < Moved(later)[j]
    ensures forall k :: 0 <= k < |later| ==> 0 < Moved(later)[k] < |windows| && IsStrippedText(bytes, windows[Moved(later)[k]], rest[k])
    ensures forall i :: 0 < i < |windows| && i !in Moved(later) ==> IsBlankWindow(bytes, windows[i])
  {
    hide IsBlankWindow;
    hide IsStrippedText;
    var moved := Moved(later);
    forall k | 0 <= k < |moved| ensures 0 < moved[k] < |windows| && IsStrippedText(bytes, windows[moved[k]], rest[k]) {
      assert windows[1..][later[k]] == windows[moved[k]];
    }
    forall i | 0 < i < |windows| && i !in moved ensures IsBlankWindow(bytes, windows[i]) {
      assert windows[1..][i - 1] == windows[i];
      assert forall k :: 0 <= k < |later| ==> moved[k] != i;
    }
  }

  lemma BlankWindowFirst(bytes: Bytes, windows: seq<Window>, rest: seq<string>, later: seq<nat>)
    requires windows != [] && InRange(bytes, windows) && FollowsWindows(bytes, windows[1..], rest, later)
    requires IsBlankWindow(bytes, windows[0])
    ensures FollowsWindows(bytes, windows, rest, Moved(later))
  {
    hide IsBlankWindow;
    hide IsStrippedText;
    MovedPositions(bytes, windows, rest, later);
  }

  lemma KeptWindowFirst(bytes: Bytes, windows: seq<Window>, first: string, rest: seq<string>, moved: seq<nat>)
    requires windows != [] && InRange(bytes, windows) && |moved| == |rest| && IsStrippedText(bytes, windows[0], first)
    requires forall i, j :: 0 <= i < j < |moved| ==> moved[i] < moved[j]
    requires forall k :: 0 <= k < |moved| ==> 0 < moved[k] < |windows| && IsStrippedText(bytes, windows[moved[k]], rest[k])
    requires forall i :: 0 < i < |windows| && i !in moved ==> IsBlankWindow(bytes, windows[i])
    ensures FollowsWindows(bytes, windows, [first] + rest, [0] + moved)
  {
    hide IsBlankWindow;
    hide IsStrippedText;
    var kept, segments := [0] + moved, [first] + rest;
    forall k | 0 <= k < |kept| ensures kept[k] < |windows| && IsStrippedText(bytes, windows[kept[k]], segments[k]) {
      if k > 0 { assert kept[k] == moved[k - 1] && segments[k] == rest[k - 1]; }
    }
    forall i, j | 0 <= i < j < |kept| ensures kept[i] < kept[j] {
      assert kept[j] == moved[j - 1];
      if i > 0 { assert kept[i] == moved[i - 1]; }
    }
    assert kept[0] == 0 && forall x :: x in moved ==> x in kept;
  }

  /** A text that is cut: each segment fits the byte limit, the windows without their overlaps are the
      stripped text again, and no non-blank character is lost. */
  lemma CutIsLossless(text: string)
    requires ByteLength(Strip(text)) > MAX_CHUNK_BYTES
    ensures var s := Strip(text); var bytes := Encode(s);
            && |bytes| == ByteLength(s) && Windows(bytes, 0).Some?
            && var windows := Windows(bytes, 0).value;
            && Chain(s, windows) && windows[0].start == 0
            && (forall w :: w in windows ==> w.start <= w.end <= |bytes|)
            && WithoutOverlaps(bytes, windows, 0) == bytes
            && WindowTexts(bytes, windows).Some?
            && Fit(WindowTexts(bytes, windows).value)
            && (forall c :: 0 <= c < |s| && !IsSpace(s[c]) ==> Kept(s, WindowTexts(bytes, windows).value, c))
  {
    var s := Strip(text);
    EncodeLength(s);
    EndsAreBoundaries(s);
    WindowsChain(s, 0);
    var windows := Windows(Encode(s), 0).value;
    WindowsDecode(s, windows);
    WindowsRebuildText(s, windows, 0);
    forall c | 0 <= c < |s| && !IsSpace(s[c])
      ensures Kept(s, WindowTexts(Encode(s), windows).value, c)
    {
      NoCharacterLost(s, windows, c);
    }
  }

  /** The published guarantee, on every text: each segment fits the byte limit, no non-blank character is
      lost, and the windows of a text that is cut are the stripped text again without their overlaps; the
      segments are their stripped texts in order, without the blank ones. */
  lemma SegmentationIsLossless(text: string, segments: seq<string>)
    requires IsSegmentation(text, segments)
    ensures var s := Strip(text); var bytes := Encode(s);
            && Fit(segments)
            && (forall c :: 0 <= c < |s| && !IsSpace(s[c]) ==> Kept(s, segments, c))
            && (ByteLength(s) > MAX_CHUNK_BYTES ==>
                  && Windows(bytes, 0).Some? && Chain(s, Windows(bytes, 0).value) && InRange(bytes, Windows(bytes, 0).value)
                  && WithoutOverlaps(bytes, Windows(bytes, 0).value, 0) == bytes
                  && exists kept :: FollowsWindows(bytes, Windows(bytes, 0).value, segments, kept))
  {
    hide Chain;
    hide Windows;
    hide WindowTexts;
    hide WithoutOverlaps;
    hide Strip;
    hide Encode;
    var s := Strip(text);
    if ByteLength(s) > MAX_CHUNK_BYTES {
      CutIsLossless(text);
      var kept := SegmentsInOrder(Encode(s), Windows(Encode(s), 0).value);
    } else {
      forall c | 0 <= c < |s| && !IsSpace(s[c]) ensures Kept(s, segments, c) { assert segments[0] == s[0..|s|]; }
    }
  }
}
