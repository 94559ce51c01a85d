/** UTF-8 (section 3 of RFC 3629) at the level of bytes.

    A Python `str` without lone surrogates is a Dafny `string`: a sequence of Unicode scalar
    values.  `Encode` is `str.encode("utf-8")`, `DecodeIgnore` is
    `bytes.decode("utf-8", errors="ignore")` and `Decode` is the strict decoder. */
module Utf8 {
  import opened Wrappers

  type Byte = b: int | 0 <= b < 256
  type Bytes = seq<Byte>

  function Width(c: char): (w: nat)
    ensures 1 <= w <= 4
  {
    if c as int < 0x80 then 1 else if c as int < 0x800 then 2 else if c as int < 0x10000 then 3 else 4
  }

  function EncodeChar(c: char): (bytes: Bytes)
    ensures |bytes| == Width(c)
    ensures !IsContinuation(bytes[0])
    ensures forall k :: 1 <= k < |bytes| ==> IsContinuation(bytes[k])
  {
    var v := c as int;
    if v < 0x80 then [v]
    else if v < 0x800 then [0xC0 + v / 64, 0x80 + v % 64]
    else if v < 0x10000 then [0xE0 + v / 4096, 0x80 + v / 64 % 64, 0x80 + v % 64]
    else [0xF0 + v / 262144, 0x80 + v / 4096 % 64, 0x80 + v / 64 % 64, 0x80 + v % 64]
  }

  /** The source's test `byte & 0b11000000 == 0b10000000`. */
  predicate IsContinuation(b: Byte) {
    b / 64 == 2
  }

  function Encode(s: string): (bytes: Bytes) {
    if s == "" then [] else EncodeChar(s[0]) + Encode(s[1..])
  }

  function ByteLength(s: string): (n: nat) {
    if s == "" then 0 else Width(s[0]) + ByteLength(s[1..])
  }

  /** The byte offset at which character i of s starts (or the end of s). */
  function Offset(s: string, i: nat): (k: nat)
    requires i <= |s|
  {
    ByteLength(s[..i])
  }

  // ----- decoding

  predicate IsScalar(v: int) {
    0 <= v < 0xD800 || 0xE000 <= v < 0x110000
  }

  /** The value spelled by the bit fields of the sequence that the first byte announces. */
  function LeadingValue(bytes: Bytes): (v: int) {
    if bytes == [] then -1
    else
      var b0: int := bytes[0];
      if b0 < 0x80 then b0
      else if 0xC0 <= b0 < 0xE0 && |bytes| >= 2 then (b0 - 0xC0) * 64 + Low6(bytes[1])
      else if 0xE0 <= b0 < 0xF0 && |bytes| >= 3 then
        (b0 - 0xE0) * 4096 + Low6(bytes[1]) * 64 + Low6(bytes[2])
      else if 0xF0 <= b0 && |bytes| >= 4 then
        (b0 - 0xF0) * 262144 + Low6(bytes[1]) * 4096 + Low6(bytes[2]) * 64 + Low6(bytes[3])
      else -1
  }

  function Low6(b: Byte): (bits: int) {
    b % 64
  }

  /** The character whose encoding the bytes start with, if any.  Overlong forms, surrogates and
      truncated sequences are rejected because re-encoding does not give the bytes back. */
  function DecodeFirst(bytes: Bytes): (first: Option<char>)
    ensures first.Some? ==> EncodeChar(first.value) <= bytes
  {
    var v := LeadingValue(bytes);
    if IsScalar(v) && EncodeChar(v as char) <= bytes then Some(v as char) else None
  }

  /** Malformed bytes are dropped one at a time; a dropped lead byte only exposes continuation
      bytes, which never start a character. */
  function DecodeIgnore(bytes: Bytes): (s: string)
    decreases |bytes|
  {
    if bytes == [] then ""
    else match DecodeFirst(bytes)
      case Some(c) => [c] + DecodeIgnore(bytes[Width(c)..])
      case None => DecodeIgnore(bytes[1..])
  }

  function Decode(bytes: Bytes): (s: Option<string>)
    decreases |bytes|
  {
    if bytes == [] then Some("")
    else match DecodeFirst(bytes)
      case None => None
      case Some(c) =>
        match Decode(bytes[Width(c)..])
        case None => None
        case Some(rest) => Some([c] + rest)
  }

  // ----- lengths

  lemma {:induction false} EncodeLength(s: string)
    ensures |Encode(s)| == ByteLength(s)
  {
    if s != "" {
      EncodeLength(s[1..]);
    }
  }

  lemma {:induction false} EncodeAppend(s: string, t: string)
    ensures Encode(s + t) == Encode(s) + Encode(t)
  {
    hide EncodeChar;
    if s == "" {
      assert s + t == t;
    } else {
      EncodeAppend(s[1..], t);
      assert (s + t)[1..] == s[1..] + t;
    }
  }

  lemma ByteLengthAppend(s: string, t: string)
    ensures ByteLength(s + t) == ByteLength(s) + ByteLength(t)
  {
    EncodeAppend(s, t);
    EncodeLength(s); EncodeLength(t); EncodeLength(s + t);
  }

  lemma ByteLengthSlice(s: string, i: nat, j: nat)
    requires i <= j <= |s|
    ensures ByteLength(s[i..j]) == Offset(s, j) - Offset(s, i)
    ensures Offset(s, |s|) == ByteLength(s)
  {
    hide ByteLength;
    assert s[..j] == s[..i] + s[i..j];
    ByteLengthAppend(s[..i], s[i..j]);
    assert s[..|s|] == s;
  }

  lemma {:induction false} ByteLengthAtLeastLength(s: string)
    ensures |s| <= ByteLength(s) <= 4 * |s|
  {
    if s != "" {
      ByteLengthAtLeastLength(s[1..]);
    }
  }

  lemma OffsetIncreasing(s: string, i: nat, j: nat)
    requires i <= j <= |s|
    ensures j - i <= Offset(s, j) - Offset(s, i) <= 4 * (j - i)
    ensures Offset(s, j) <= ByteLength(s)
  {
    ByteLengthSlice(s, i, j);
    ByteLengthAtLeastLength(s[i..j]);
    ByteLengthSlice(s, j, |s|);
  }

  lemma SliceNotLonger(s: string, i: nat, j: nat)
    requires i <= j <= |s|
    ensures ByteLength(s[i..j]) <= ByteLength(s)
  {
    ByteLengthSlice(s, i, j);
    OffsetIncreasing(s, i, j);
  }

  lemma MiddleOfConcat<T>(u: seq<T>, v: seq<T>, w: seq<T>)
    ensures (u + (v + w))[|u|..|u| + |v|] == v
  {
  }

  lemma EncodeSlice(s: string, i: nat, j: nat)
    requires i <= j <= |s|
    ensures Offset(s, i) <= Offset(s, j) <= |Encode(s)| == ByteLength(s)
    ensures Encode(s)[Offset(s, i)..Offset(s, j)] == Encode(s[i..j])
  {
    hide Encode;
    hide ByteLength;
    var u, v, w := s[..i], s[i..j], s[j..];
    assert s == u + (v + w);
    EncodeAppend(u, v + w);
    EncodeAppend(v, w);
    MiddleOfConcat(Encode(u), Encode(v), Encode(w));
    EncodeLength(u); EncodeLength(v); EncodeLength(s);
    ByteLengthSlice(s, i, j);
    OffsetIncreasing(s, i, j);
  }

  // ----- character boundaries

  /** Byte position k of s is the start of a character, or the end of s. */
  ghost predicate IsBoundary(s: string, k: nat) {
    exists i :: 0 <= i <= |s| && Offset(s, i) == k
  }

  /** How many whole characters of s end at or before byte k. */
  function Floor(s: string, k: int): (i: nat)
    ensures i <= |s|
  {
    if s == "" || k < Width(s[0]) then 0 else 1 + Floor(s[1..], k - Width(s[0]))
  }

  /** The first character of s that starts at or after byte k. */
  function Ceil(s: string, k: int): (i: nat)
    ensures i <= |s|
  {
    if s == "" || k <= 0 then 0 else 1 + Ceil(s[1..], k - Width(s[0]))
  }

  lemma OffsetStep(s: string, i: nat)
    requires 1 <= i <= |s|
    ensures Offset(s, i) == Width(s[0]) + Offset(s[1..], i - 1)
  {
    assert s[..i][1..] == s[1..][..i - 1];
  }

  lemma {:induction false} FloorCorrect(s: string, k: nat)
    ensures Offset(s, Floor(s, k)) <= k
    ensures forall i :: 0 <= i <= |s| && Offset(s, i) <= k ==> i <= Floor(s, k)
  {
    if s == "" {
    } else if k < Width(s[0]) {
      forall i | 0 <= i <= |s| && Offset(s, i) <= k ensures i <= 0 {
        if i > 0 { OffsetStep(s, i); }
      }
    } else {
      FloorCorrect(s[1..], k - Width(s[0]));
      OffsetStep(s, Floor(s, k));
      forall i | 0 <= i <= |s| && Offset(s, i) <= k ensures i <= Floor(s, k) {
        if i > 0 { OffsetStep(s, i); }
      }
    }
  }

  lemma {:induction false} CeilCorrect(s: string, k: int)
    requires k <= ByteLength(s)
    ensures k <= Offset(s, Ceil(s, k))
    ensures k >= 0 ==> Offset(s, Ceil(s, k)) < k + 4
    ensures forall i :: 0 <= i <= |s| && k <= Offset(s, i) ==> Ceil(s, k) <= i
  {
    if s == "" || k <= 0 {
    } else {
      CeilCorrect(s[1..], k - Width(s[0]));
      OffsetStep(s, Ceil(s, k));
      if k < Width(s[0]) { assert Ceil(s[1..], k - Width(s[0])) == 0; }
      forall i | 0 <= i <= |s| && k <= Offset(s, i) ensures Ceil(s, k) <= i {
        if i > 0 { OffsetStep(s, i); }
      }
    }
  }

  /** The source's continuation-byte test recognises exactly the positions inside a character. */
  lemma {:induction false} ContinuationIsInside(s: string, k: nat)
    requires k < |Encode(s)|
    ensures IsContinuation(Encode(s)[k]) <==> !IsBoundary(s, k)
  {
    var w := Width(s[0]);
    if k == 0 {
      assert Offset(s, 0) == 0;
    } else if k < w {
      forall i | 0 <= i <= |s| ensures Offset(s, i) != k {
        if i > 0 { OffsetStep(s, i); }
      }
    } else {
      ContinuationIsInside(s[1..], k - w);
      assert Encode(s)[k] == Encode(s[1..])[k - w];
      if IsBoundary(s[1..], k - w) {
        var i :| 0 <= i <= |s[1..]| && Offset(s[1..], i) == k - w;
        OffsetStep(s, i + 1);
      }
      if IsBoundary(s, k) {
        var i :| 0 <= i <= |s| && Offset(s, i) == k;
        OffsetStep(s, i);
      }
    }
  }

  /** Moves a position forward off continuation bytes, up to `end`. */
  function SkipContinuation(bytes: Bytes, start: nat, end: nat): (r: nat)
    requires start <= end <= |bytes|
    ensures start <= r <= end
    decreases end - start
  {
    if start < end && IsContinuation(bytes[start]) then SkipContinuation(bytes, start + 1, end) else start
  }

  lemma {:induction false} SkipContinuationCorrect(s: string, start: nat, end: nat)
    requires start <= end <= |Encode(s)| && IsBoundary(s, end)
    ensures IsBoundary(s, SkipContinuation(Encode(s), start, end))
    ensures forall k :: start <= k < SkipContinuation(Encode(s), start, end) ==> !IsBoundary(s, k)
    decreases end - start
  {
    if start < end {
      ContinuationIsInside(s, start);
      if IsContinuation(Encode(s)[start]) {
        SkipContinuationCorrect(s, start + 1, end);
      }
    }
  }

  lemma EndsAreBoundaries(s: string)
    ensures IsBoundary(s, 0) && IsBoundary(s, |Encode(s)|)
  {
    EncodeLength(s);
    assert Offset(s, 0) == 0;
    assert s[..|s|] == s;
    assert Offset(s, |s|) == ByteLength(s);
  }

  /** Characters are at most four bytes wide, so among four consecutive positions one starts a character. */
  lemma BoundaryNearby(s: string, k: nat)
    requires k <= ByteLength(s)
    ensures exists b: nat :: k <= b < k + 4 && IsBoundary(s, b)
    ensures exists b: nat :: k - 4 < b <= k && IsBoundary(s, b)
  {
    CeilCorrect(s, k);
    assert IsBoundary(s, Offset(s, Ceil(s, k)));
    FloorCorrect(s, k);
    var i := Floor(s, k);
    assert IsBoundary(s, Offset(s, i));
    if i < |s| {
      OffsetIncreasing(s, i, i + 1);
      ByteLengthSlice(s, i, i + 1);
    } else {
      ByteLengthSlice(s, 0, |s|);
    }
  }

  // ----- decoding undoes encoding

  lemma Digits3(v: int)
    requires 0 <= v < 0x10000
    ensures v == v / 4096 * 4096 + v / 64 % 64 * 64 + v % 64
  {
  }

  lemma Digits4(v: int)
    requires 0 <= v < 0x110000
    ensures v == v / 262144 * 262144 + v / 4096 % 64 * 4096 + v / 64 % 64 * 64 + v % 64
    ensures v / 262144 < 5
  {
    assert v / 4096 == v / 262144 * 64 + v / 4096 % 64;
    assert v / 64 == v / 4096 * 64 + v / 64 % 64;
  }

  lemma LeadingValueOfChar(c: char, rest: Bytes)
    ensures LeadingValue(EncodeChar(c) + rest) == c as int
  {
    var v := c as int;
    var bytes := EncodeChar(c) + rest;
    if v < 0x80 {
    } else if v < 0x800 {
      assert bytes[0] == 0xC0 + v / 64 && bytes[1] == 0x80 + v % 64;
    } else if v < 0x10000 {
      assert bytes[0] == 0xE0 + v / 4096 && bytes[1] == 0x80 + v / 64 % 64 && bytes[2] == 0x80 + v % 64;
      Digits3(v);
    } else {
      assert bytes[0] == 0xF0 + v / 262144 && bytes[1] == 0x80 + v / 4096 % 64;
      assert bytes[2] == 0x80 + v / 64 % 64 && bytes[3] == 0x80 + v % 64;
      Digits4(v);
    }
  }

  lemma DecodeFirstOfChar(c: char, rest: Bytes)
    ensures DecodeFirst(EncodeChar(c) + rest) == Some(c)
  {
    LeadingValueOfChar(c, rest);
  }

  lemma LeadByteFixesWidth(c: char, d: char)
    ensures EncodeChar(c)[0] == EncodeChar(d)[0] ==> Width(c) == Width(d)
  {
    var v, u := c as int, d as int;
    assert Width(c) == 4 ==> v / 262144 < 5;
    assert Width(d) == 4 ==> u / 262144 < 5;
  }

  /** A continuation byte, or a sequence cut short, starts no character. */
  lemma DecodeFirstOfPiece(c: char, a: nat, b: nat, rest: Bytes)
    requires a <= b <= Width(c)
    requires a > 0 || (b < Width(c) && rest == [])
    requires a < b
    ensures DecodeFirst(EncodeChar(c)[a..b] + rest) == None
  {
    var bytes := EncodeChar(c)[a..b] + rest;
    if a > 0 {
      assert IsContinuation(bytes[0]);
    } else {
      assert bytes[0] == EncodeChar(c)[0];
      if DecodeFirst(bytes).Some? {
        LeadByteFixesWidth(c, DecodeFirst(bytes).value);
      }
    }
  }

  lemma {:induction false} DecodeEncode(s: string)
    ensures Decode(Encode(s)) == Some(s)
  {
    if s != "" {
      DecodeFirstOfChar(s[0], Encode(s[1..]));
      DecodeEncode(s[1..]);
      assert Encode(s)[Width(s[0])..] == Encode(s[1..]);
      assert [s[0]] + s[1..] == s;
    }
  }

  lemma DecodeIgnoreWhole(c: char, rest: Bytes)
    ensures DecodeIgnore(EncodeChar(c) + rest) == [c] + DecodeIgnore(rest)
  {
    DecodeFirstOfChar(c, rest);
    assert (EncodeChar(c) + rest)[Width(c)..] == rest;
  }

  /** Decoding a character cut at either end drops it. */
  lemma {:induction false} DecodeIgnorePiece(c: char, a: nat, b: nat, rest: Bytes)
    requires a <= b <= Width(c)
    requires a > 0 || (b < Width(c) && rest == [])
    ensures DecodeIgnore(EncodeChar(c)[a..b] + rest) == DecodeIgnore(rest)
    decreases b - a
  {
    var piece := EncodeChar(c)[a..b];
    if a == b {
      assert piece + rest == rest;
    } else {
      DecodeFirstOfPiece(c, a, b, rest);
      assert (piece + rest)[1..] == EncodeChar(c)[a + 1..b] + rest;
      DecodeIgnorePiece(c, a + 1, b, rest);
    }
  }

  lemma NothingDecodes()
    ensures DecodeIgnore([]) == WholeCharacters("", 0, 0)
  {
  }

  /** Any byte slice of an encoded text decodes, ignoring errors, to exactly the characters that
      lie wholly inside the slice. */
  lemma {:induction false} DecodeIgnoreSlice(s: string, a: nat, b: nat)
    requires a <= b <= |Encode(s)|
    ensures DecodeIgnore(Encode(s)[a..b]) == WholeCharacters(s, a, b)
  {
    hide EncodeChar;
    hide DecodeIgnore;
    hide WholeCharacters;
    if s == "" {
      NothingDecodes();
    } else {
      var w := Width(s[0]);
      if b < w {
        DecodeWithinFirst(s, a, b);
      } else if a < w {
        DecodeIgnoreSlice(s[1..], 0, b - w);
        DecodeFromFirst(s, a, b);
        SliceFromFirst(s, a, b);
      } else {
        SliceOfConcat(EncodeChar(s[0]), Encode(s[1..]), a, b);
        DecodeIgnoreSlice(s[1..], a - w, b - w);
        SlicePastFirst(s, a, b);
      }
    }
  }

  lemma SliceOfConcat<T>(u: seq<T>, v: seq<T>, a: nat, b: nat)
    requires a <= b <= |u| + |v|
    ensures b <= |u| ==> (u + v)[a..b] == u[a..b]
    ensures a <= |u| <= b ==> (u + v)[a..b] == u[a..] + v[..b - |u|]
    ensures |u| <= a ==> (u + v)[a..b] == v[a - |u|..b - |u|]
  {
  }

  lemma DecodeWithinFirst(s: string, a: nat, b: nat)
    requires s != "" && a <= b < Width(s[0])
    ensures b <= |Encode(s)| && DecodeIgnore(Encode(s)[a..b]) == "" == WholeCharacters(s, a, b)
  {
    SliceOfConcat(EncodeChar(s[0]), Encode(s[1..]), a, b);
    var piece := EncodeChar(s[0])[a..b];
    assert piece + [] == piece;
    DecodeIgnorePiece(s[0], a, b, []);
  }

  lemma DecodeFromFirst(s: string, a: nat, b: nat)
    requires s != "" && a < Width(s[0]) <= b <= |Encode(s)|
    ensures DecodeIgnore(Encode(s)[a..b])
         == (if a == 0 then [s[0]] else "") + DecodeIgnore(Encode(s[1..])[0..b - Width(s[0])])
  {
    var c, rest := s[0], Encode(s[1..])[..b - Width(s[0])];
    SliceOfConcat(EncodeChar(c), Encode(s[1..]), a, b);
    assert EncodeChar(c)[a..] == EncodeChar(c)[a..Width(c)];
    assert rest == Encode(s[1..])[0..b - Width(s[0])];
    if a == 0 {
      assert EncodeChar(c)[0..] == EncodeChar(c);
      DecodeIgnoreWhole(c, rest);
    } else {
      DecodeIgnorePiece(c, a, Width(c), rest);
    }
  }

  /** The characters of s that lie wholly inside the byte range [a, b). */
  function WholeCharacters(s: string, a: int, b: int): (t: string) {
    if Ceil(s, a) <= Floor(s, b) then s[Ceil(s, a)..Floor(s, b)] else ""
  }

  lemma SliceFromFirst(s: string, a: nat, b: nat)
    requires s != "" && a < Width(s[0]) <= b
    ensures WholeCharacters(s, a, b)
         == (if a == 0 then [s[0]] else "") + WholeCharacters(s[1..], 0, b - Width(s[0]))
  {
    var n := Floor(s[1..], b - Width(s[0]));
    assert Ceil(s, a) == if a == 0 then 0 else 1;
    assert s[0..1 + n] == [s[0]] + s[1..][0..n];
    assert s[1..1 + n] == s[1..][0..n];
  }

  lemma SlicePastFirst(s: string, a: nat, b: nat)
    requires s != "" && Width(s[0]) <= a <= b
    ensures WholeCharacters(s, a, b)
         == WholeCharacters(s[1..], a - Width(s[0]), b - Width(s[0]))
  {
    var i, j := Ceil(s[1..], a - Width(s[0])), Floor(s[1..], b - Width(s[0]));
    if i <= j {
      assert s[1 + i..1 + j] == s[1..][i..j];
    }
  }

  /** Whatever the slice, its decoded text is no longer in bytes than the slice. */
  lemma DecodeIgnoreSliceLength(s: string, a: nat, b: nat)
    requires a <= b <= |Encode(s)|
    ensures ByteLength(DecodeIgnore(Encode(s)[a..b])) <= b - a
  {
    DecodeIgnoreSlice(s, a, b);
    EncodeLength(s);
    var i, j := Ceil(s, a), Floor(s, b);
    if i <= j {
      CeilCorrect(s, a);
      FloorCorrect(s, b);
      ByteLengthSlice(s, i, j);
    }
  }

  // ----- truncation

  /** evidence_agent.py `_truncate_utf8`. */
  function TruncateUtf8(text: string, maxBytes: nat): (r: string) {
    var encoded := Encode(text);
    if |encoded| <= maxBytes then text else DecodeIgnore(encoded[..maxBytes])
  }

  /** Truncation keeps the longest prefix that fits the byte budget. */
  lemma TruncateIsLongestPrefix(text: string, maxBytes: nat)
    ensures TruncateUtf8(text, maxBytes) <= text
    ensures ByteLength(TruncateUtf8(text, maxBytes)) <= maxBytes
    ensures forall k :: |TruncateUtf8(text, maxBytes)| < k <= |text| ==> maxBytes < ByteLength(text[..k])
  {
    EncodeLength(text);
    var encoded := Encode(text);
    if |encoded| > maxBytes {
      assert encoded[..maxBytes] == encoded[0..maxBytes];
      DecodeIgnoreSlice(text, 0, maxBytes);
      FloorCorrect(text, maxBytes);
      var n := Floor(text, maxBytes);
      assert text[0..n] == text[..n];
      forall k | n < k <= |text| ensures maxBytes < ByteLength(text[..k]) {
        assert ByteLength(text[..k]) == Offset(text, k);
      }
    }
  }
}
