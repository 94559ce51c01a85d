/** The parts of Python's `str` that the sources rely on: whitespace and `strip`,
    decimal numbers, and the integer `min` and `max`. */
module PyText {
  function Min(a: int, b: int): (m: int) { if a <= b then a else b }
  function Max(a: int, b: int): (m: int) { if a <= b then b else a }

  /** `str.isspace` on one character. */
  predicate IsSpace(c: char) {
    var v := c as int;
    || 0x09 <= v <= 0x0D || 0x1C <= v <= 0x20 || v == 0x85 || v == 0xA0 || v == 0x1680
    || 0x2000 <= v <= 0x200A || v == 0x2028 || v == 0x2029 || v == 0x202F || v == 0x205F || v == 0x3000
  }

  /** The first position at or after i that is not blank, or the end. */
  function SkipBlanks(s: string, i: nat): (j: nat)
    requires i <= |s|
    ensures i <= j <= |s|
    decreases |s| - i
  {
    if i < |s| && IsSpace(s[i]) then SkipBlanks(s, i + 1) else i
  }

  /** The end of s[..j] once trailing blanks after position i are dropped. */
  function DropBlanks(s: string, i: nat, j: nat): (k: nat)
    requires i <= j <= |s|
    ensures i <= k <= j
  {
    if i < j && IsSpace(s[j - 1]) then DropBlanks(s, i, j - 1) else j
  }

  function StripStart(s: string): (a: nat)
    ensures a <= |s|
  {
    SkipBlanks(s, 0)
  }

  function StripEnd(s: string): (b: nat)
    ensures StripStart(s) <= b <= |s|
  {
    DropBlanks(s, StripStart(s), |s|)
  }

  function Strip(s: string): (r: string) {
    s[StripStart(s)..StripEnd(s)]
  }

  lemma {:induction false} SkipBlanksCorrect(s: string, i: nat)
    requires i <= |s|
    ensures var j := SkipBlanks(s, i); (forall k :: i <= k < j ==> IsSpace(s[k])) && (j < |s| ==> !IsSpace(s[j]))
    decreases |s| - i
  {
    if i < |s| && IsSpace(s[i]) {
      SkipBlanksCorrect(s, i + 1);
    }
  }

  lemma {:induction false} DropBlanksCorrect(s: string, i: nat, j: nat)
    requires i <= j <= |s|
    ensures var e := DropBlanks(s, i, j); (forall k :: e <= k < j ==> IsSpace(s[k])) && (i < e ==> !IsSpace(s[e - 1]))
  {
    if i < j && IsSpace(s[j - 1]) {
      DropBlanksCorrect(s, i, j - 1);
    }
  }

  /** Stripping leaves a slice whose ends are not blank, and removes only blanks. */
  lemma StripIsSlice(s: string)
    ensures var a, b := StripStart(s), StripEnd(s);
            && (forall k :: 0 <= k < a || b <= k < |s| ==> IsSpace(s[k]))
            && (a < b ==> !IsSpace(s[a]) && !IsSpace(s[b - 1]))
  {
    SkipBlanksCorrect(s, 0);
    DropBlanksCorrect(s, StripStart(s), |s|);
  }

  /** `s[:n]`. */
  function Clip<T>(s: seq<T>, n: nat): (r: seq<T>) {
    if |s| <= n then s else s[..n]
  }

  lemma Reassociate<T>(a: seq<T>, b: seq<T>, c: seq<T>)
    ensures a + (b + c) == (a + b) + c
  {
  }

  lemma Cancel<T>(p: seq<T>, a: seq<T>, b: seq<T>)
    requires p + a == p + b
    ensures a == b
  {
    assert (p + a)[|p|..] == a;
    assert (p + b)[|p|..] == b;
  }

  lemma SliceOfSlice<T>(s: seq<T>, i: nat, j: nat, a: nat, b: nat)
    requires i <= j <= |s| && a <= b <= j - i
    ensures s[i..j][a..b] == s[i + a..i + b]
  {
    var inner := s[i..j];
    assert forall k :: a <= k < b ==> inner[k] == s[i + k];
  }

  lemma SuffixSlice<T>(w: seq<T>, rest: seq<T>, from: nat, to: nat)
    requires from <= to <= |rest|
    ensures (w + rest)[from + |w|..to + |w|] == rest[from..to]
  {
  }

  lemma StripOfTrimmed(s: string)
    requires s == "" || (!IsSpace(s[0]) && !IsSpace(s[|s| - 1]))
    ensures Strip(s) == s
  {
  }

  lemma StripIdempotent(s: string)
    ensures Strip(Strip(s)) == Strip(s)
  {
    StripIsSlice(s);
    StripOfTrimmed(Strip(s));
  }

  /** Runs of whitespace become one space. */
  function Squash(s: string): (r: string) {
    if s == "" then ""
    else if !IsSpace(s[0]) then [s[0]] + Squash(s[1..])
    else if |s| > 1 && IsSpace(s[1]) then Squash(s[1..])
    else " " + Squash(s[1..])
  }

  /** `" ".join(s.split())`. */
  function Collapse(s: string): (r: string) {
    Squash(Strip(s))
  }

  /** `s.split()`: the runs of characters that are not blank. */
  function Words(s: string): (ws: seq<string>)
    ensures s != "" && !IsSpace(s[0]) ==> ws != []
  {
    if s == "" then []
    else if IsSpace(s[0]) then Words(s[1..])
    else if |s| == 1 || IsSpace(s[1]) then [[s[0]]] + Words(s[1..])
    else [[s[0]] + Words(s[1..])[0]] + Words(s[1..])[1..]
  }

  /** `" ".join(ws)`. */
  function Spaced(ws: seq<string>): (s: string) {
    if ws == [] then "" else if |ws| == 1 then ws[0] else ws[0] + (" " + Spaced(ws[1..]))
  }

  lemma {:induction false} LastBlankDropped(s: string)
    requires s != "" && IsSpace(s[|s| - 1])
    ensures Words(s) == Words(s[..|s| - 1])
  {
    if |s| > 1 {
      LastBlankDropped(s[1..]);
      assert s[1..][..|s| - 2] == s[..|s| - 1][1..];
    }
  }

  lemma {:induction false} StartDropped(s: string, i: nat)
    requires i <= |s|
    ensures Words(s[i..]) == Words(s[SkipBlanks(s, i)..])
    decreases |s| - i
  {
    if i < |s| && IsSpace(s[i]) {
      StartDropped(s, i + 1);
      assert s[i..][1..] == s[i + 1..];
    }
  }

  lemma {:induction false} EndDropped(s: string, i: nat, j: nat)
    requires i <= j <= |s|
    ensures Words(s[i..j]) == Words(s[i..DropBlanks(s, i, j)])
    decreases j
  {
    if i < j && IsSpace(s[j - 1]) {
      EndDropped(s, i, j - 1);
      LastBlankDropped(s[i..j]);
      assert s[i..j][..j - i - 1] == s[i..j - 1];
    }
  }

  lemma SpacedCons(w: string, ws: seq<string>)
    ensures Spaced([w] + ws) == if ws == [] then w else w + (" " + Spaced(ws))
  {
    assert ([w] + ws)[1..] == ws;
  }

  /** A word that gets one more character in front. */
  lemma SpacedGrows(c: char, ws: seq<string>)
    ensures Spaced([[c]] + ws) == [c] + if ws == [] then "" else " " + Spaced(ws)
    ensures ws != [] ==> Spaced([[c] + ws[0]] + ws[1..]) == [c] + Spaced(ws)
  {
    hide Spaced;
    SpacedCons([c], ws);
    if ws != [] {
      var w, more := ws[0], ws[1..];
      SpacedCons([c] + w, more);
      SpacedCons(w, more);
      assert [w] + more == ws;
      assert ([c] + w) + (" " + Spaced(more)) == [c] + (w + (" " + Spaced(more)));
    }
  }

  lemma {:induction false} SquashIsWords(s: string)
    requires s != "" ==> !IsSpace(s[|s| - 1])
    ensures Squash(s) == (if s != "" && IsSpace(s[0]) then " " else "") + Spaced(Words(s))
    ensures s != "" ==> Words(s) != []
  {
    hide IsSpace;
    hide Spaced;
    if s == "" {
      NothingSpaced();
    } else {
      SquashIsWords(s[1..]);
      SpacedGrows(s[0], Words(s[1..]));
    }
  }

  lemma NothingSpaced()
    ensures Spaced([]) == ""
  {
  }

  /** `" ".join(s.split())`: the words of the text, with one space between them. */
  lemma CollapseIsWords(s: string)
    ensures Collapse(s) == Spaced(Words(s))
  {
    var a, b := StripStart(s), StripEnd(s);
    StripIsSlice(s);
    StartDropped(s, 0);
    EndDropped(s, a, |s|);
    assert s[0..] == s && s[a..|s|] == s[a..];
    SquashIsWords(s[a..b]);
    hide Words;
    assert "" + Spaced(Words(s[a..b])) == Spaced(Words(s[a..b]));
  }

  /** `s <= t` on strings. */
  predicate TextLe(s: string, t: string) {
    s == "" || (t != "" && (s[0] < t[0] || (s[0] == t[0] && TextLe(s[1..], t[1..]))))
  }

  /** The texts agree up to k, where s ends or has the smaller character. */
  predicate FirstDifference(s: string, t: string, k: nat) {
    k <= |s| && k <= |t| && s[..k] == t[..k] && (k < |s| && k < |t| ==> s[k] < t[k]) && (k == |t| ==> k == |s|)
  }

  lemma DifferenceAtStart(s: string, t: string, k: nat)
    requires FirstDifference(s, t, k) && s != "" && (t == "" || s[0] != t[0])
    ensures t != "" && s[0] < t[0]
  {
    if k > 0 { AgreeAtStart(s, t, k); }
  }

  lemma AgreeAtStart(s: string, t: string, k: nat)
    requires FirstDifference(s, t, k) && k > 0
    ensures s[0] == t[0]
  {
    assert s[..k][0] == s[0] && t[..k][0] == t[0];
  }

  /** Python's order of strings: by the first difference, a text before its continuations. */
  lemma {:induction false} TextLeMeaning(s: string, t: string)
    ensures TextLe(s, t) <==> exists k: nat :: FirstDifference(s, t, k)
  {
    if s == "" {
      assert FirstDifference(s, t, 0);
    } else if t == "" || s[0] != t[0] {
      if t != "" && s[0] < t[0] { assert FirstDifference(s, t, 0); }
      forall k: nat | FirstDifference(s, t, k) ensures t != "" && s[0] < t[0] { DifferenceAtStart(s, t, k); }
    } else {
      TextLeMeaning(s[1..], t[1..]);
      if exists k: nat :: FirstDifference(s[1..], t[1..], k) {
        var k: nat :| FirstDifference(s[1..], t[1..], k);
        assert s[..k + 1] == [s[0]] + s[1..][..k] && t[..k + 1] == [t[0]] + t[1..][..k];
        assert FirstDifference(s, t, k + 1);
      }
      if exists k: nat :: FirstDifference(s, t, k) {
        var k: nat :| FirstDifference(s, t, k);
        assert k > 0;
        assert s[1..][..k - 1] == s[..k][1..] && t[1..][..k - 1] == t[..k][1..];
        assert FirstDifference(s[1..], t[1..], k - 1);
      }
    }
  }

  lemma {:induction false} TextLeTotal(s: string, t: string)
    ensures TextLe(s, t) || TextLe(t, s)
    ensures TextLe(s, t) && TextLe(t, s) ==> s == t
  {
    if s != "" && t != "" && s[0] == t[0] {
      TextLeTotal(s[1..], t[1..]);
      assert s == [s[0]] + s[1..] && t == [t[0]] + t[1..];
    }
  }

  lemma {:induction false} TextLeTransitive(s: string, t: string, u: string)
    requires TextLe(s, t) && TextLe(t, u)
    ensures TextLe(s, u)
  {
    if s != "" && s[0] == t[0] == u[0] { TextLeTransitive(s[1..], t[1..], u[1..]); }
  }

  /** The needle stands at position p. */
  predicate OccursAt(hay: string, needle: string, p: int) {
    0 <= p <= |hay| - |needle| && hay[p..p + |needle|] == needle
  }

  // ----- decimal numbers

  /** `str(n)`. */
  function Decimal(n: nat): (s: string) {
    if n < 10 then [('0' as int + n) as char] else Decimal(n / 10) + [('0' as int + n % 10) as char]
  }

  predicate IsDigit(c: char) {
    '0' <= c <= '9'
  }

  predicate AllDigits(s: string) {
    forall k :: 0 <= k < |s| ==> IsDigit(s[k])
  }

  function DigitValue(c: char): (d: nat)
    requires IsDigit(c)
  {
    c as int - '0' as int
  }

  /** `int(s)` of a string of digits. */
  function DigitsValue(s: string): (n: nat)
    requires AllDigits(s)
  {
    if s == "" then 0 else 10 * DigitsValue(s[..|s| - 1]) + DigitValue(s[|s| - 1])
  }

  lemma {:induction false} DecimalLength(n: nat)
    ensures |Decimal(n)| >= 1 && (|Decimal(n)| == 1 <==> n < 10)
  {
    if n >= 10 { DecimalLength(n / 10); }
  }

  lemma {:induction false} DecimalInjective(m: nat, n: nat)
    requires Decimal(m) == Decimal(n)
    ensures m == n
  {
    var a, b := Decimal(m), Decimal(n);
    DecimalLength(m);
    DecimalLength(n);
    assert a[|a| - 1] == ('0' as int + m % 10) as char;
    assert b[|b| - 1] == ('0' as int + n % 10) as char;
    if m >= 10 {
      assert Decimal(m / 10) == a[..|a| - 1];
      assert Decimal(n / 10) == b[..|b| - 1];
      DecimalInjective(m / 10, n / 10);
    }
  }

  lemma {:induction false} DecimalIsDigits(n: nat)
    ensures forall i :: 0 <= i < |Decimal(n)| ==> IsDigit(Decimal(n)[i])
  {
    if n >= 10 { DecimalIsDigits(n / 10); }
  }
}
