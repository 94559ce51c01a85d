/** Records of the model context in src/soloscale/evidence_agent.py and their size as compact JSON:
    `_canonical_json_bytes` and the prefix search of `_fit_context_record`. */
module ContextRecord {
  import opened Wrappers
  import opened Utf8

  /** The compact JSON text of a record without its excerpt: what comes before the excerpt string
      (up to and including its key and colon) and what comes after it. */
  datatype Base = Base(id: string, before: string, after: string)

  datatype Record = Record(id: string, before: string, excerpt: string, after: string)

  function WithExcerpt(base: Base, excerpt: string): (r: Record) {
    Record(base.id, base.before, excerpt, base.after)
  }

  // ----- JSON text (section 7 of RFC 8259; characters outside ASCII are written as they are)

  function HexDigit(n: nat): (c: char)
    requires n < 16
  {
    "0123456789abcdef"[n]
  }

  function Escape(c: char): (s: string) {
    var v := c as int;
    if c == '"' then "\\\""
    else if c == '\\' then "\\\\"
    else if c == '\n' then "\\n"
    else if c == '\r' then "\\r"
    else if c == '\t' then "\\t"
    else if v == 8 then "\\b"
    else if v == 12 then "\\f"
    else if v < 0x20 then "\\u00" + [HexDigit(v / 16), HexDigit(v % 16)]
    else [c]
  }

  function EscapeAll(s: string): (r: string) {
    if s == "" then "" else Escape(s[0]) + EscapeAll(s[1..])
  }

  function Quote(s: string): (r: string) {
    "\"" + EscapeAll(s) + "\""
  }

  function RecordJson(r: Record): (s: string) {
    r.before + Quote(r.excerpt) + r.after
  }

  /** The first i records, comma-separated. */
  function JoinRecords(records: seq<Record>, i: nat): (s: string)
    requires i <= |records|
  {
    if i == 0 then ""
    else if i == 1 then RecordJson(records[0])
    else JoinRecords(records, i - 1) + "," + RecordJson(records[i - 1])
  }

  function ListJson(records: seq<Record>): (s: string) {
    "[" + JoinRecords(records, |records|) + "]"
  }

  /** `len(_canonical_json_bytes(records))`. */
  function Size(records: seq<Record>): (n: nat) {
    ByteLength(ListJson(records))
  }

  lemma {:induction false} EscapeAppend(s: string, t: string)
    ensures EscapeAll(s + t) == EscapeAll(s) + EscapeAll(t)
  {
    hide Escape;
    if s == "" {
      assert s + t == t;
    } else {
      EscapeAppend(s[1..], t);
      assert (s + t)[0] == s[0] && (s + t)[1..] == s[1..] + t;
      var first, rest, more := Escape(s[0]), EscapeAll(s[1..]), EscapeAll(t);
      assert first + (rest + more) == (first + rest) + more;
    }
  }

  lemma {:induction false} JoinAgrees(a: seq<Record>, b: seq<Record>, i: nat)
    requires i <= |a| && i <= |b| && forall k :: 0 <= k < i ==> a[k] == b[k]
    ensures JoinRecords(a, i) == JoinRecords(b, i)
  {
    hide RecordJson;
    if i > 1 { JoinAgrees(a, b, i - 1); }
  }

  lemma OneByte(c: char)
    requires c as int < 0x80
    ensures ByteLength([c]) == 1
  {
    assert [c][1..] == "";
  }

  /** One more record costs its own bytes and, unless it is the first, a comma. */
  lemma SizeOfOneMore(records: seq<Record>, r: Record)
    ensures Size(records + [r]) == Size(records) + ByteLength(RecordJson(r)) + if records == [] then 0 else 1
    ensures Size([]) == 2
  {
    hide ByteLength;
    hide RecordJson;
    var n, more := |records|, records + [r];
    JoinAgrees(more, records, n);
    OneByte('['); OneByte(']'); OneByte(',');
    SizeOfList(more);
    SizeOfList(records);
    SizeOfList([]);
    assert ByteLength("") == 0 by { EmptyLength(); }
    if n > 0 {
      ByteLengthAppend(JoinRecords(records, n), ",");
      ByteLengthAppend(JoinRecords(records, n) + ",", RecordJson(r));
    }
  }

  lemma EmptyLength()
    ensures ByteLength("") == 0
  {
  }

  lemma SizeOfList(records: seq<Record>)
    ensures Size(records) == ByteLength(JoinRecords(records, |records|)) + 2
  {
    hide JoinRecords;
    OneByte('['); OneByte(']');
    ByteLengthAppend("[", JoinRecords(records, |records|));
    ByteLengthAppend("[" + JoinRecords(records, |records|), "]");
  }

  lemma RecordLength(r: Record)
    ensures ByteLength(RecordJson(r)) == ByteLength(r.before) + ByteLength(EscapeAll(r.excerpt)) + 2 + ByteLength(r.after)
  {
    hide ByteLength;
    hide EscapeAll;
    OneByte('"');
    ByteLengthAppend("\"", EscapeAll(r.excerpt));
    ByteLengthAppend("\"" + EscapeAll(r.excerpt), "\"");
    ByteLengthAppend(r.before, Quote(r.excerpt));
    ByteLengthAppend(r.before + Quote(r.excerpt), r.after);
  }

  /** A longer prefix of the excerpt never makes the list smaller. */
  lemma SizeMonotone(records: seq<Record>, base: Base, excerpt: string, j: nat, k: nat)
    requires j <= k <= |excerpt|
    ensures Size(records + [WithExcerpt(base, excerpt[..j])]) <= Size(records + [WithExcerpt(base, excerpt[..k])])
  {
    hide ByteLength;
    hide Size;
    hide EscapeAll;
    hide RecordJson;
    var a, b := WithExcerpt(base, excerpt[..j]), WithExcerpt(base, excerpt[..k]);
    SizeOfOneMore(records, a);
    SizeOfOneMore(records, b);
    RecordLength(a);
    RecordLength(b);
    assert excerpt[..k] == excerpt[..j] + excerpt[j..k];
    EscapeAppend(excerpt[..j], excerpt[j..k]);
    ByteLengthAppend(EscapeAll(excerpt[..j]), EscapeAll(excerpt[j..k]));
  }

  // ----- fitting one record

  /** The list still fits once the record with the first k excerpt characters is added. */
  predicate PrefixFits(existing: seq<Record>, base: Base, excerpt: string, k: nat, maxBytes: int)
    requires k <= |excerpt|
  {
    Size(existing + [WithExcerpt(base, excerpt[..k])]) <= maxBytes
  }

  /** The largest k up to n whose prefix fits; zero if none does. */
  function LargestFit(existing: seq<Record>, base: Base, excerpt: string, n: nat, maxBytes: int): (k: nat)
    requires n <= |excerpt|
    ensures k <= n
  {
    if n == 0 || PrefixFits(existing, base, excerpt, n, maxBytes) then n
    else LargestFit(existing, base, excerpt, n - 1, maxBytes)
  }

  function FitRecord(existing: seq<Record>, base: Base, excerpt: string, maxBytes: int): (r: Option<Record>) {
    var k := LargestFit(existing, base, excerpt, |excerpt|, maxBytes);
    if k == 0 then None else Some(WithExcerpt(base, excerpt[..k]))
  }

  lemma {:induction false} LargestFitCorrect(existing: seq<Record>, base: Base, excerpt: string, n: nat, maxBytes: int)
    requires n <= |excerpt|
    ensures var k := LargestFit(existing, base, excerpt, n, maxBytes);
            && (k > 0 ==> PrefixFits(existing, base, excerpt, k, maxBytes))
            && forall j :: k < j <= n ==> !PrefixFits(existing, base, excerpt, j, maxBytes)
  {
    hide PrefixFits;
    if n > 0 && !PrefixFits(existing, base, excerpt, n, maxBytes) {
      LargestFitCorrect(existing, base, excerpt, n - 1, maxBytes);
    }
  }

  lemma FitsDownward(existing: seq<Record>, base: Base, excerpt: string, maxBytes: int)
    ensures forall j, k :: 0 <= j <= k <= |excerpt| && PrefixFits(existing, base, excerpt, k, maxBytes) ==>
              PrefixFits(existing, base, excerpt, j, maxBytes)
  {
    hide Size;
    forall j, k | 0 <= j <= k <= |excerpt| && PrefixFits(existing, base, excerpt, k, maxBytes)
      ensures PrefixFits(existing, base, excerpt, j, maxBytes)
    {
      SizeMonotone(existing, base, excerpt, j, k);
    }
  }

  /** Record fitting returns the longest prefix that fits, and nothing exactly when no non-empty
      prefix fits. */
  lemma FitRecordCorrect(existing: seq<Record>, base: Base, excerpt: string, maxBytes: int)
    ensures FitRecord(existing, base, excerpt, maxBytes).None? <==>
              forall k :: 1 <= k <= |excerpt| ==> !PrefixFits(existing, base, excerpt, k, maxBytes)
    ensures FitRecord(existing, base, excerpt, maxBytes).Some? ==>
              var r := FitRecord(existing, base, excerpt, maxBytes).value;
              && r.id == base.id && r.excerpt != "" && r.excerpt <= excerpt && r == WithExcerpt(base, r.excerpt)
              && Size(existing + [r]) <= maxBytes
              && forall k :: |r.excerpt| < k <= |excerpt| ==> !PrefixFits(existing, base, excerpt, k, maxBytes)
  {
    hide Size;
    LargestFitCorrect(existing, base, excerpt, |excerpt|, maxBytes);
  }

  /** The binary search finds what the linear search would: sound because size is monotone. */
  method FitContextRecord(existing: seq<Record>, base: Base, excerpt: string, maxBytes: int) returns (r: Option<Record>)
    ensures r == FitRecord(existing, base, excerpt, maxBytes)
  {
    hide Size;
    hide LargestFit;
    var emptyRecord := WithExcerpt(base, "");
    FitsDownward(existing, base, excerpt, maxBytes);
    LargestFitCorrect(existing, base, excerpt, |excerpt|, maxBytes);
    ghost var largest := LargestFit(existing, base, excerpt, |excerpt|, maxBytes);
    assert excerpt[..0] == "";
    if Size(existing + [emptyRecord]) > maxBytes {
      assert !PrefixFits(existing, base, excerpt, 0, maxBytes);
      return None;
    }
    assert PrefixFits(existing, base, excerpt, 0, maxBytes);
    var low: int, high: int := 0, |excerpt|;
    var best := emptyRecord;
    while low <= high
      invariant 0 <= low <= high + 1 <= |excerpt| + 1
      invariant best == WithExcerpt(base, excerpt[..if low == 0 then 0 else low - 1])
      invariant low - 1 <= largest <= high
    {
      var middle := (low + high) / 2;
      var candidate := WithExcerpt(base, excerpt[..middle]);
      if Size(existing + [candidate]) <= maxBytes {
        assert PrefixFits(existing, base, excerpt, middle, maxBytes);
        best := candidate;
        low := middle + 1;
      } else {
        assert !PrefixFits(existing, base, excerpt, middle, maxBytes);
        high := middle - 1;
      }
    }
    if best.excerpt != "" {
      r := Some(best);
    } else {
      r := None;
    }
  }
}
