/** The X thread as text: printed by src/soloscale/editorial_workspace.py, split at its N/Total marker
    lines by `_parse_x_thread` of src/soloscale/editorial_publishing_handoff.py. */
module XThread {
  import opened Wrappers
  import opened PyText

  const MAX_POSTS: nat := 12

  datatype Marker = Marker(number: nat, total: nat)

  datatype ThreadError = MalformedThread

  // ----- markers

  function DigitsEnd(s: string, i: nat): (j: nat)
    requires i <= |s|
    ensures i <= j <= |s|
    ensures forall k :: i <= k < j ==> IsDigit(s[k])
    ensures j < |s| ==> !IsDigit(s[j])
    decreases |s| - i
  {
    if i < |s| && IsDigit(s[i]) then DigitsEnd(s, i + 1) else i
  }

  /** Where the digits of the number and of the total end, when a marker stands at i: at the start of
      a line, number and total without leading zeros, then whitespace or the end. */
  function MarkerEnds(s: string, i: nat): (ends: Option<(nat, nat)>)
    requires i <= |s|
    ensures ends.Some? ==> i < ends.value.0 < ends.value.1 <= |s|
  {
    if i > 0 && s[i - 1] != '\n' then None
    else
      var a := DigitsEnd(s, i);
      if a == i || s[i] == '0' || a == |s| || s[a] != '/' then None
      else
        var b := DigitsEnd(s, a + 1);
        if b == a + 1 || s[a + 1] == '0' || (b < |s| && !IsSpace(s[b])) then None else Some((a, b))
  }

  function MarkerAt(s: string, i: nat): (m: Option<Marker>)
    requires i <= |s|
    ensures m.Some? ==> i < |s|
  {
    match MarkerEnds(s, i)
    case None => None
    case Some((a, b)) =>
      assert a == DigitsEnd(s, i) && b == DigitsEnd(s, a + 1);
      Some(Marker(DigitsValue(s[i..a]), DigitsValue(s[a + 1..b])))
  }

  /** The starts of the markers at or after i: `finditer`, whose matches never reach past their line. */
  function Starts(s: string, i: nat): (starts: seq<nat>)
    requires i <= |s|
    ensures forall k :: 0 <= k < |starts| ==> i <= starts[k] < |s| && MarkerAt(s, starts[k]).Some?
    ensures forall j, k :: 0 <= j < k < |starts| ==> starts[j] < starts[k]
    decreases |s| - i
  {
    if i == |s| then []
    else (if MarkerAt(s, i).Some? then [i] else []) + Starts(s, i + 1)
  }

  // ----- parsing

  function DropNewlines(s: string): (r: string)
    ensures r <= s
    ensures forall k :: |r| <= k < |s| ==> s[k] == '\n'
    ensures r != "" ==> r[|r| - 1] != '\n'
  {
    if s != "" && s[|s| - 1] == '\n' then DropNewlines(s[..|s| - 1]) else s
  }

  function EndOf(text: string, starts: seq<nat>, k: nat): (e: nat)
    requires k < |starts|
  {
    if k + 1 < |starts| then starts[k + 1] else |text|
  }

  /** The text from the k-th marker up to the next one. */
  function Slice(text: string, k: nat): (s: string)
    requires k < |Starts(text, 0)|
  {
    var starts := Starts(text, 0);
    text[starts[k]..EndOf(text, starts, k)]
  }

  function PartsOf(text: string): (parts: seq<string>) {
    seq(|Starts(text, 0)|, k requires 0 <= k < |Starts(text, 0)| => DropNewlines(Slice(text, k)))
  }

  /** The markers are 1/N to N/N in order, N at most 12, and nothing but whitespace precedes them. */
  predicate Accepted(text: string) {
    var starts := Starts(text, 0);
    && starts != [] && |starts| <= MAX_POSTS && Strip(text[..starts[0]]) == ""
    && forall k :: 0 <= k < |starts| ==> MarkerAt(text, starts[k]) == Some(Marker(k + 1, |starts|))
  }

  function Parse(text: string): (r: Result<seq<string>, ThreadError>) {
    if Accepted(text) then Ok(PartsOf(text)) else Err(MalformedThread)
  }

  method ParseThread(text: string) returns (r: Result<seq<string>, ThreadError>)
    ensures r == Parse(text)
  {
    hide MarkerAt;
    hide Strip;
    hide DropNewlines;
    var starts := Starts(text, 0);
    if |starts| == 0 || Strip(text[..starts[0]]) != "" {
      return Err(MalformedThread);
    }
    var total := MarkerAt(text, starts[0]).value.total;
    if total > MAX_POSTS || |starts| != total {
      return Err(MalformedThread);
    }
    var parts: seq<string> := [];
    for k := 0 to |starts|
      invariant parts == PartsOf(text)[..k]
      invariant forall j :: 0 <= j < k ==> MarkerAt(text, starts[j]) == Some(Marker(j + 1, total))
    {
      var marker := MarkerAt(text, starts[k]).value;
      if marker.number != k + 1 || marker.total != total {
        return Err(MalformedThread);
      }
      var part := DropNewlines(text[starts[k]..EndOf(text, starts, k)]);
      PartIsNotBlank(text, k);
      assert part == PartsOf(text)[k];
      if Strip(part) == "" {
        return Err(MalformedThread);
      }
      parts := parts + [part];
    }
    assert Accepted(text) && parts == PartsOf(text);
    r := Ok(parts);
  }

  lemma MarkerStartsWithDigit(s: string, i: nat)
    requires i <= |s| && MarkerAt(s, i).Some?
    ensures i < |s| && IsDigit(s[i])
  {
    assert DigitsEnd(s, i) > i;
  }

  lemma DigitIsNotBlank(s: string)
    requires s != "" && IsDigit(s[0])
    ensures Strip(s) != ""
  {
    StripIsSlice(s);
  }

  /** A part starts with its marker, so it is never blank. */
  lemma PartIsNotBlank(text: string, k: nat)
    requires k < |Starts(text, 0)|
    ensures PartsOf(text)[k] != "" && Strip(PartsOf(text)[k]) != ""
  {
    hide MarkerAt;
    hide Strip;
    var starts := Starts(text, 0);
    MarkerStartsWithDigit(text, starts[k]);
    var slice := Slice(text, k);
    assert slice[0] == text[starts[k]];
    DigitIsNotBlank(DropNewlines(slice));
  }

  // ----- what an accepted text is made of

  function Concat(text: string, k: nat): (s: string)
    requires k <= |Starts(text, 0)|
    decreases |Starts(text, 0)| - k
  {
    if k == |Starts(text, 0)| then "" else Slice(text, k) + Concat(text, k + 1)
  }

  lemma {:induction false} SlicesRebuild(text: string, k: nat)
    requires k < |Starts(text, 0)|
    ensures Concat(text, k) == text[Starts(text, 0)[k]..]
    decreases |Starts(text, 0)| - k
  {
    hide MarkerAt;
    var starts := Starts(text, 0);
    if k + 1 < |starts| {
      SlicesRebuild(text, k + 1);
      assert text[starts[k]..] == text[starts[k]..starts[k + 1]] + text[starts[k + 1]..];
    } else {
      assert Concat(text, k + 1) == "";
    }
  }

  /** No text is lost from the first marker on: the slices of an accepted text concatenate back to it,
      each part is its slice without trailing newlines, and only whitespace comes before. */
  lemma AcceptedTextIsItsParts(text: string)
    requires Parse(text).Ok?
    ensures var parts, starts := Parse(text).value, Starts(text, 0);
            && 1 <= |parts| == |starts| <= MAX_POSTS
            && text == text[..starts[0]] + Concat(text, 0) && Strip(text[..starts[0]]) == ""
            && (forall k :: 0 <= k < |parts| ==>
                  parts[k] == DropNewlines(Slice(text, k)) && MarkerAt(text, starts[k]) == Some(Marker(k + 1, |parts|)))
  {
    hide Slice;
    hide Strip;
    SlicesRebuild(text, 0);
    var starts := Starts(text, 0);
    assert text == text[..starts[0]] + text[starts[0]..];
  }

  // ----- markers in a concatenation

  lemma {:induction false} DigitsEndInPrefix(t: string, v: string, i: nat)
    requires i <= |t| && v != "" && !IsDigit(v[0])
    ensures DigitsEnd(t + v, i) == DigitsEnd(t, i)
    decreases |t| - i
  {
    if i < |t| && IsDigit(t[i]) {
      DigitsEndInPrefix(t, v, i + 1);
    }
  }

  lemma {:induction false} DigitsEndInSuffix(w: string, s: string, i: nat)
    requires i <= |s|
    ensures DigitsEnd(w + s, |w| + i) == |w| + DigitsEnd(s, i)
    decreases |s| - i
  {
    if i < |s| && IsDigit(s[i]) {
      DigitsEndInSuffix(w, s, i + 1);
    }
  }

  lemma NewlineIsBlank()
    ensures !IsDigit('\n') && IsSpace('\n')
  {
  }

  /** A newline after a text changes none of its markers and adds none at its end. */
  lemma MarkerInPrefix(t: string, v: string, i: nat)
    requires i <= |t| && v != "" && v[0] == '\n'
    ensures MarkerAt(t + v, i) == MarkerAt(t, i)
  {
    hide DigitsValue;
    hide IsDigit;
    hide IsSpace;
    NewlineIsBlank();
    var u := t + v;
    DigitsEndInPrefix(t, v, i);
    var a := DigitsEnd(t, i);
    if a < |t| {
      DigitsEndInPrefix(t, v, a + 1);
      var b := DigitsEnd(t, a + 1);
      assert u[i..a] == t[i..a] && u[a + 1..b] == t[a + 1..b];
    }
  }

  lemma MarkerInSuffix(w: string, s: string, i: nat)
    requires i <= |s| && w != "" && w[|w| - 1] == '\n'
    ensures MarkerAt(w + s, |w| + i) == MarkerAt(s, i)
  {
    hide DigitsValue;
    hide IsDigit;
    hide IsSpace;
    var u := w + s;
    DigitsEndInSuffix(w, s, i);
    var a := DigitsEnd(s, i);
    if a < |s| {
      DigitsEndInSuffix(w, s, a + 1);
      var b := DigitsEnd(s, a + 1);
      SuffixSlice(w, s, i, a);
      if a + 1 <= b { SuffixSlice(w, s, a + 1, b); }
    }
  }

  function Shift(starts: seq<nat>, n: nat): (r: seq<nat>) {
    seq(|starts|, k requires 0 <= k < |starts| => starts[k] + n)
  }

  lemma {:induction false} StartsInSuffix(w: string, s: string, i: nat)
    requires i <= |s| && w != "" && w[|w| - 1] == '\n'
    ensures Starts(w + s, |w| + i) == Shift(Starts(s, i), |w|)
    decreases |s| - i
  {
    hide MarkerAt;
    hide Shift;
    if i == |s| {
      assert Shift([], |w|) == [] by { ShiftNone(|w|); }
    }
    if i < |s| {
      StartsInSuffix(w, s, i + 1);
      MarkerInSuffix(w, s, i);
      ShiftCons(i, Starts(s, i + 1), |w|);
    }
  }

  lemma ShiftNone(n: nat)
    ensures Shift([], n) == []
  {
  }

  lemma ShiftCons(i: nat, starts: seq<nat>, n: nat)
    ensures Shift([i] + starts, n) == [n + i] + Shift(starts, n)
    ensures Shift([] + starts, n) == Shift(starts, n)
  {
    assert [] + starts == starts;
  }

  lemma {:induction false} StartsInPrefix(t: string, v: string, i: nat)
    requires i <= |t| && v != "" && v[0] == '\n'
    ensures Starts(t + v, i) == Starts(t, i) + Starts(t + v, |t|)
    decreases |t| - i
  {
    hide MarkerAt;
    if i < |t| {
      StartsInPrefix(t, v, i + 1);
      MarkerInPrefix(t, v, i);
    }
  }

  lemma NoMarkerAtNewline(s: string, i: nat)
    requires i < |s| && s[i] == '\n'
    ensures Starts(s, i) == Starts(s, i + 1)
  {
    assert DigitsEnd(s, i) == i;
  }

  /** The markers of two texts separated by an empty line are the markers of both. */
  lemma StartsOfTwo(t: string, rest: string)
    ensures Starts(t + "\n\n" + rest, 0) == Starts(t, 0) + Shift(Starts(rest, 0), |t| + 2)
  {
    hide MarkerAt;
    hide Starts;
    var w := t + "\n\n";
    var u := w + rest;
    assert u == t + ("\n\n" + rest);
    StartsInPrefix(t, "\n\n" + rest, 0);
    NoMarkerAtNewline(u, |t|);
    NoMarkerAtNewline(u, |t| + 1);
    StartsInSuffix(w, rest, 0);
  }

  lemma StartsOfLast(t: string)
    ensures Starts(t + "\n", 0) == Starts(t, 0)
  {
    hide MarkerAt;
    var u := t + "\n";
    StartsInPrefix(t, "\n", 0);
    NoMarkerAtNewline(u, |t|);
    assert Starts(u, |t| + 1) == [];
  }

  // ----- printing

  /** The trimmed posts from the k-th on, separated by empty lines. */
  function JoinFrom(posts: seq<string>, k: nat): (s: string)
    requires k <= |posts|
    decreases |posts| - k
  {
    if k == |posts| then ""
    else if k == |posts| - 1 then Strip(posts[k])
    else Strip(posts[k]) + "\n\n" + JoinFrom(posts, k + 1)
  }

  /** `"\n\n".join(post.strip() for post in posts) + "\n"`. */
  function PrintThread(posts: seq<string>): (s: string) {
    JoinFrom(posts, 0) + "\n"
  }

  function Trimmed(posts: seq<string>): (r: seq<string>) {
    seq(|posts|, k requires 0 <= k < |posts| => Strip(posts[k]))
  }

  lemma TailUnfold(posts: seq<string>, k: nat)
    requires k < |posts|
    ensures JoinFrom(posts, k) + "\n" ==
            if k == |posts| - 1 then Strip(posts[k]) + "\n" else Strip(posts[k]) + "\n\n" + (JoinFrom(posts, k + 1) + "\n")
  {
    hide Strip;
    if k < |posts| - 1 {
      Reassociate(Strip(posts[k]) + "\n\n", JoinFrom(posts, k + 1), "\n");
    }
  }

  /** The number of markers in the trimmed posts from the k-th on. */
  function CountFrom(posts: seq<string>, k: nat): (n: nat)
    requires k <= |posts|
    decreases |posts| - k
  {
    if k == |posts| then 0 else |Starts(Strip(posts[k]), 0)| + CountFrom(posts, k + 1)
  }

  lemma {:induction false} PrintedMarkers(posts: seq<string>, k: nat)
    requires k < |posts|
    ensures |Starts(JoinFrom(posts, k) + "\n", 0)| == CountFrom(posts, k)
    decreases |posts| - k
  {
    hide Strip;
    hide Starts;
    hide JoinFrom;
    TailUnfold(posts, k);
    if k == |posts| - 1 {
      StartsOfLast(Strip(posts[k]));
      assert CountFrom(posts, k + 1) == 0;
    } else {
      PrintedMarkers(posts, k + 1);
      StartsOfTwo(Strip(posts[k]), JoinFrom(posts, k + 1) + "\n");
    }
  }

  lemma DropSeparator(t: string, newlines: string)
    requires t != "" && t[|t| - 1] != '\n' && forall k :: 0 <= k < |newlines| ==> newlines[k] == '\n'
    ensures DropNewlines(t + newlines) == t
  {
    var u := t + newlines;
    var r := DropNewlines(u);
    assert u[|t| - 1] == t[|t| - 1];
    assert r == u[..|r|];
    assert r != "" ==> u[|r| - 1] != '\n';
  }

  /** The text, split at its markers, is exactly these posts, with these markers at their starts. */
  ghost predicate SplitsInto(text: string, posts: seq<string>) {
    var starts := Starts(text, 0);
    && |starts| == |posts| && (starts != [] ==> starts[0] == 0)
    && forall k :: 0 <= k < |posts| ==> PartIs(text, k, posts[k])
  }

  ghost predicate PartIs(text: string, k: nat, post: string) {
    k < |Starts(text, 0)| && PartsOf(text)[k] == post && MarkerAt(text, Starts(text, 0)[k]) == MarkerAt(post, 0)
  }

  /** One more post before a text that splits into posts. */
  lemma SplitsCons(t: string, rest: string, posts: seq<string>)
    requires Starts(t, 0) == [0] && t[|t| - 1] != '\n' && posts != [] && SplitsInto(rest, posts)
    ensures SplitsInto(t + "\n\n" + rest, [t] + posts)
  {
    hide MarkerAt;
    hide Starts;
    hide DropNewlines;
    hide PartIs;
    var w := t + "\n\n";
    var u := w + rest;
    StartsOfTwo(t, rest);
    forall k | 0 <= k < |posts| + 1 ensures PartIs(u, k, ([t] + posts)[k]) {
      if k == 0 { FirstPart(t, rest); } else { LaterPart(w, rest, posts, k); }
    }
  }

  lemma FirstPart(t: string, rest: string)
    requires Starts(t, 0) == [0] && t[|t| - 1] != '\n'
    requires Starts(rest, 0) != [] && Starts(rest, 0)[0] == 0
    ensures PartIs(t + "\n\n" + rest, 0, t)
  {
    hide MarkerAt;
    hide Starts;
    hide DropNewlines;
    var w := t + "\n\n";
    StartsOfTwo(t, rest);
    assert w + rest == t + ("\n\n" + rest);
    MarkerInPrefix(t, "\n\n" + rest, 0);
    DropSeparator(t, "\n\n");
    FirstSlice(w, rest);
  }

  lemma LaterPart(w: string, rest: string, posts: seq<string>, k: nat)
    requires Starts(w + rest, 0) == [0] + Shift(Starts(rest, 0), |w|) && w != "" && w[|w| - 1] == '\n'
    requires SplitsInto(rest, posts) && 0 < k <= |posts|
    ensures PartIs(w + rest, k, posts[k - 1])
  {
    hide MarkerAt;
    hide Starts;
    hide DropNewlines;
    hide Slice;
    LaterSlice(w, rest, k);
    var later := Starts(rest, 0);
    MarkerInSuffix(w, rest, later[k - 1]);
    assert PartIs(rest, k - 1, posts[k - 1]);
    assert Starts(w + rest, 0)[k] == |w| + later[k - 1];
  }

  lemma FirstSlice(w: string, rest: string)
    requires Starts(w + rest, 0) == [0] + Shift(Starts(rest, 0), |w|)
    requires Starts(rest, 0) != [] && Starts(rest, 0)[0] == 0
    ensures Slice(w + rest, 0) == w
  {
    hide Starts;
    var starts := Starts(w + rest, 0);
    assert starts[1] == |w|;
  }

  lemma LaterSlice(w: string, rest: string, k: nat)
    requires Starts(w + rest, 0) == [0] + Shift(Starts(rest, 0), |w|)
    requires 0 < k <= |Starts(rest, 0)|
    ensures Slice(w + rest, k) == Slice(rest, k - 1)
  {
    hide Starts;
    hide MarkerAt;
    SliceShifted(w, rest, Starts(w + rest, 0), Starts(rest, 0), k);
  }

  lemma SliceShifted(w: string, rest: string, starts: seq<nat>, later: seq<nat>, k: nat)
    requires starts == [0] + Shift(later, |w|) && 0 < k <= |later|
    requires later[k - 1] <= EndOf(rest, later, k - 1) <= |rest|
    ensures starts[k] == later[k - 1] + |w| && EndOf(w + rest, starts, k) == EndOf(rest, later, k - 1) + |w|
    ensures (w + rest)[starts[k]..EndOf(w + rest, starts, k)] == rest[later[k - 1]..EndOf(rest, later, k - 1)]
  {
    var from, to := later[k - 1], EndOf(rest, later, k - 1);
    assert starts[k] == from + |w|;
    if k < |later| { assert starts[k + 1] == later[k] + |w|; }
    SuffixSlice(w, rest, from, to);
  }

  lemma SplitsOne(t: string)
    requires Starts(t, 0) == [0] && t[|t| - 1] != '\n'
    ensures SplitsInto(t + "\n", [t])
  {
    hide MarkerAt;
    hide Starts;
    hide DropNewlines;
    StartsOfLast(t);
    MarkerInPrefix(t, "\n", 0);
    DropSeparator(t, "\n");
    assert Slice(t + "\n", 0) == t + "\n";
  }

  lemma TrimmedEnd(s: string)
    requires Strip(s) != ""
    ensures Strip(s)[|Strip(s)| - 1] != '\n'
  {
    StripIsSlice(s);
  }

  lemma {:induction false} PrintedSplits(posts: seq<string>, k: nat)
    requires k < |posts| && forall j :: k <= j < |posts| ==> Starts(Strip(posts[j]), 0) == [0]
    ensures SplitsInto(JoinFrom(posts, k) + "\n", Trimmed(posts)[k..])
    decreases |posts| - k
  {
    hide Strip;
    hide Starts;
    hide JoinFrom;
    hide SplitsInto;
    var t := Strip(posts[k]);
    assert Starts(t, 0) == [0];
    assert t != "" by { OneStart(t); }
    TrimmedEnd(posts[k]);
    TailUnfold(posts, k);
    assert Trimmed(posts)[k..] == [t] + Trimmed(posts)[k + 1..];
    if k == |posts| - 1 {
      assert Trimmed(posts)[k..] == [t];
      SplitsOne(t);
    } else {
      PrintedSplits(posts, k + 1);
      SplitsCons(t, JoinFrom(posts, k + 1) + "\n", Trimmed(posts)[k + 1..]);
    }
  }

  lemma OneStart(t: string)
    requires Starts(t, 0) == [0]
    ensures t != ""
  {
  }

  /** The post starts with its own marker and has no other. */
  predicate OwnMarkerOnly(post: string, number: nat, total: nat) {
    Starts(post, 0) == [0] && MarkerAt(post, 0) == Some(Marker(number, total))
  }

  predicate WellMarked(posts: seq<string>) {
    1 <= |posts| <= MAX_POSTS && forall k :: 0 <= k < |posts| ==> OwnMarkerOnly(Strip(posts[k]), k + 1, |posts|)
  }

  lemma WellMarkedRoundTrip(posts: seq<string>)
    requires WellMarked(posts)
    ensures Parse(PrintThread(posts)) == Ok(Trimmed(posts))
  {
    hide Strip;
    hide Starts;
    hide MarkerAt;
    hide JoinFrom;
    forall j | 0 <= j < |posts| ensures Starts(Strip(posts[j]), 0) == [0] { assert OwnMarkerOnly(Strip(posts[j]), j + 1, |posts|); }
    PrintedSplits(posts, 0);
    var text := PrintThread(posts);
    var starts := Starts(text, 0);
    assert Trimmed(posts)[0..] == Trimmed(posts);
    assert text[..0] == "";
    StripOfTrimmed("");
    forall k | 0 <= k < |starts| ensures MarkerAt(text, starts[k]) == Some(Marker(k + 1, |starts|)) {
      assert OwnMarkerOnly(Strip(posts[k]), k + 1, |posts|);
      assert PartIs(text, k, Trimmed(posts)[k]);
    }
    forall k | 0 <= k < |posts| ensures PartsOf(text)[k] == Trimmed(posts)[k] { assert PartIs(text, k, Trimmed(posts)[k]); }
    assert PartsOf(text) == Trimmed(posts);
  }

  // ----- the other direction

  lemma MarkerFromHere(text: string, i: nat)
    requires i <= |text| && MarkerAt(text, i).Some?
    ensures MarkerAt(text[i..], 0) == MarkerAt(text, i)
  {
    LineStart(text, i);
    hide MarkerAt;
    var w, rest := text[..i], text[i..];
    assert text == w + rest;
    if i == 0 {
      assert rest == text;
    } else {
      MarkerInSuffix(w, rest, 0);
    }
  }

  lemma MarkerUpToNewline(rest: string, m: nat)
    requires m <= |rest| && (m == |rest| || rest[m] == '\n')
    ensures MarkerAt(rest[..m], 0) == MarkerAt(rest, 0)
  {
    hide MarkerAt;
    var part, v := rest[..m], rest[m..];
    assert rest == part + v;
    if m == |rest| {
      assert part == rest;
    } else {
      MarkerInPrefix(part, v, 0);
    }
  }

  /** Cutting a text at a marker and again at a later newline, or at the end, keeps the marker. */
  lemma MarkerOfPart(text: string, i: nat, m: nat)
    requires i < m <= |text| && MarkerAt(text, i).Some? && (m == |text| || text[m] == '\n')
    ensures MarkerAt(text[i..m], 0) == MarkerAt(text, i)
  {
    hide MarkerAt;
    MarkerFromHere(text, i);
    MarkerUpToNewline(text[i..], m - i);
    assert text[i..][..m - i] == text[i..m];
  }

  /** A part starts with the marker of its slice. */
  lemma PartKeepsMarker(text: string, k: nat)
    requires k < |Starts(text, 0)|
    ensures MarkerAt(PartsOf(text)[k], 0) == MarkerAt(text, Starts(text, 0)[k])
  {
    hide MarkerAt;
    hide DropNewlines;
    hide Starts;
    hide Strip;
    var starts := Starts(text, 0);
    var i, e := starts[k], EndOf(text, starts, k);
    var slice := text[i..e];
    var part := DropNewlines(slice);
    assert PartsOf(text)[k] == part;
    PartIsNotBlank(text, k);
    var m := i + |part|;
    assert part == text[i..m] by { assert part == slice[..|part|]; }
    forall j | m <= j < e ensures text[j] == '\n' { assert slice[j - i] == text[j]; }
    if k + 1 < |starts| { LineStart(text, starts[k + 1]); }
    assert part[|part| - 1] == text[m - 1] != '\n';
    MarkerOfPart(text, i, m);
  }

  lemma LineStart(s: string, i: nat)
    requires i <= |s| && MarkerAt(s, i).Some?
    ensures i > 0 ==> s[i - 1] == '\n'
  {
  }

  lemma {:induction false} CountAtLeast(posts: seq<string>, k: nat)
    requires k <= |posts| && forall j :: k <= j < |posts| ==> |Starts(Strip(posts[j]), 0)| >= 1
    ensures CountFrom(posts, k) >= |posts| - k
    ensures CountFrom(posts, k) == |posts| - k ==> forall j :: k <= j < |posts| ==> |Starts(Strip(posts[j]), 0)| == 1
    decreases |posts| - k
  {
    hide Strip;
    hide Starts;
    if k < |posts| { CountAtLeast(posts, k + 1); }
  }

  lemma MarkedAtStart(t: string)
    requires MarkerAt(t, 0).Some?
    ensures |Starts(t, 0)| >= 1 && Starts(t, 0)[0] == 0
  {
    hide MarkerAt;
    assert Starts(t, 0) == [0] + Starts(t, 1) by { assert t != ""; }
  }

  lemma RoundTripIsWellMarked(posts: seq<string>)
    requires posts != [] && Parse(PrintThread(posts)) == Ok(Trimmed(posts))
    ensures WellMarked(posts)
  {
    hide Strip;
    hide Starts;
    hide MarkerAt;
    hide JoinFrom;
    hide DropNewlines;
    var text := PrintThread(posts);
    var starts := Starts(text, 0);
    PrintedMarkers(posts, 0);
    assert |PartsOf(text)| == |posts|;
    forall j | 0 <= j < |posts|
      ensures MarkerAt(Strip(posts[j]), 0) == Some(Marker(j + 1, |posts|)) && |Starts(Strip(posts[j]), 0)| >= 1 && Starts(Strip(posts[j]), 0)[0] == 0
    {
      PartKeepsMarker(text, j);
      assert PartsOf(text)[j] == Strip(posts[j]);
      MarkedAtStart(Strip(posts[j]));
    }
    CountAtLeast(posts, 0);
  }

  lemma NothingPrinted()
    ensures Parse(PrintThread([])).Err?
  {
    assert PrintThread([]) == "\n";
    NoMarkerAtNewline("\n", 0);
    assert Starts("\n", 1) == [];
  }

  /** Printing and then parsing gives back the trimmed posts if and only if there are 1 to 12 of them,
      each starting with its own number and the total, and none containing another marker line. */
  lemma RoundTripIff(posts: seq<string>)
    ensures Parse(PrintThread(posts)) == Ok(Trimmed(posts)) <==> WellMarked(posts)
  {
    hide PrintThread;
    hide Parse;
    hide Trimmed;
    if posts == [] {
      NothingPrinted();
    } else {
      if WellMarked(posts) { WellMarkedRoundTrip(posts); }
      if Parse(PrintThread(posts)) == Ok(Trimmed(posts)) { RoundTripIsWellMarked(posts); }
    }
  }

  // ----- numbered posts

  /** `f"{number}/{total} {body}"`. */
  function Numbered(number: nat, total: nat, body: string): (post: string) {
    Decimal(number) + "/" + Decimal(total) + " " + body
  }

  lemma {:induction false} ValueOfDecimal(n: nat)
    ensures forall k :: 0 <= k < |Decimal(n)| ==> IsDigit(Decimal(n)[k])
    ensures DigitsValue(Decimal(n)) == n
    ensures n > 0 ==> Decimal(n)[0] != '0'
  {
    var s := Decimal(n);
    DecimalIsDigits(n);
    if n >= 10 {
      ValueOfDecimal(n / 10);
      assert s[..|s| - 1] == Decimal(n / 10);
      assert DigitValue(s[|s| - 1]) == n % 10;
    } else {
      assert s[..0] == "" && DigitsValue("") == 0;
      assert DigitValue(s[0]) == n;
    }
  }

  lemma {:induction false} DigitsEndAt(s: string, i: nat, j: nat)
    requires i <= j < |s| && (forall k :: i <= k < j ==> IsDigit(s[k])) && !IsDigit(s[j])
    ensures DigitsEnd(s, i) == j
    decreases j - i
  {
    if i < j { DigitsEndAt(s, i + 1, j); }
  }

  /** A numbered post starts with its own marker. */
  lemma NumberedHasMarker(number: nat, total: nat, body: string)
    requires number > 0 && total > 0
    ensures MarkerAt(Numbered(number, total, body), 0) == Some(Marker(number, total))
  {
    hide Decimal;
    hide DigitsValue;
    var n, t := Decimal(number), Decimal(total);
    var s := Numbered(number, total, body);
    DecimalLength(number);
    DecimalLength(total);
    ValueOfDecimal(number);
    ValueOfDecimal(total);
    var a, b := |n|, |n| + 1 + |t|;
    assert s[0..a] == n && s[a + 1..b] == t && s[a] == '/' && s[b] == ' ';
    forall k | a < k < b ensures IsDigit(s[k]) { assert s[k] == t[k - a - 1]; }
    forall k | 0 <= k < a ensures IsDigit(s[k]) { assert s[k] == n[k]; }
    DigitsEndAt(s, 0, a);
    DigitsEndAt(s, a + 1, b);
    assert s[0] == n[0] && s[a + 1] == t[0];
  }
}
