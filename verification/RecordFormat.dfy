/** The attempt records of src/soloscale/casebook_store.py can be read back: a record determines its
    attempt and its own end.  So a reader as `AttemptLog.ReplayIff` assumes it exists. */
module RecordFormat {
  import opened Wrappers
  import opened PyText
  import opened ContextRecord
  import opened CaseModels
  import opened AttemptLog

  lemma AtSeam(a: string, t: string)
    requires t != ""
    ensures (a + t)[|a|] == t[0]
  {
  }

  lemma BeforeSeam(a: string, t: string, k: nat)
    requires k < |a|
    ensures (a + t)[k] == a[k]
  {
  }

  lemma NotLonger(a: string, b: string, t: string, u: string, p: char -> bool)
    requires (forall k :: 0 <= k < |a| ==> p(a[k])) && u != "" && !p(u[0]) && a + t == b + u
    ensures |a| <= |b|
  {
    if |a| > |b| {
      BeforeSeam(a, t, |b|);
      AtSeam(b, u);
    }
  }

  /** Words of one kind of characters, each followed by another kind, end at the same place. */
  lemma WordDelimits(a: string, b: string, t: string, u: string, p: char -> bool)
    requires (forall k :: 0 <= k < |a| ==> p(a[k])) && (forall k :: 0 <= k < |b| ==> p(b[k]))
    requires t != "" && u != "" && !p(t[0]) && !p(u[0]) && a + t == b + u
    ensures a == b && t == u
  {
    NotLonger(a, b, t, u, p);
    NotLonger(b, a, u, t, p);
    assert a == (a + t)[..|a|] && b == (b + u)[..|a|];
    Cancel(a, t, u);
  }

  // ----- strings

  /** No escape sequence is the start of another. */
  lemma EscapeDelimits(c: char, d: char, t: string, u: string)
    requires Escape(c) + t == Escape(d) + u
    ensures c == d && t == u
  {
    var e, f := Escape(c), Escape(d);
    assert (e + t)[0] == e[0] && (f + u)[0] == f[0];
    if e[0] == '\\' {
      assert (e + t)[1] == e[1] && (f + u)[1] == f[1];
      if e[1] == 'u' {
        assert (e + t)[4] == e[4] && (f + u)[4] == f[4] && (e + t)[5] == e[5] && (f + u)[5] == f[5];
        HexDigitsDiffer(c as int / 16, d as int / 16);
        HexDigitsDiffer(c as int % 16, d as int % 16);
      }
    }
    assert c == d;
    Cancel(e, t, u);
  }

  lemma HexDigitsDiffer(m: nat, n: nat)
    requires m < 16 && n < 16
    ensures HexDigit(m) == HexDigit(n) ==> m == n
  {
  }

  lemma EscapeStart(c: char)
    ensures Escape(c) != "" && Escape(c)[0] != '"'
  {
  }

  /** An escaped text starts with a quote only when it is over. */
  lemma SeamStart(x: string, t: string)
    ensures var s := EscapeAll(x) + ("\"" + t); s != "" && (s[0] == '"' <==> x == "")
  {
    hide Escape;
    if x != "" { EscapeStart(x[0]); }
  }

  lemma {:induction false} EscapedDelimits(x: string, y: string, t: string, u: string)
    requires EscapeAll(x) + ("\"" + t) == EscapeAll(y) + ("\"" + u)
    ensures x == y && t == u
    decreases |x| + |y|
  {
    hide Escape;
    SeamStart(x, t);
    SeamStart(y, u);
    if x == "" {
      assert EscapeAll("") + ("\"" + t) == "\"" + t && EscapeAll("") + ("\"" + u) == "\"" + u;
      Cancel("\"", t, u);
    } else {
      var restX, restY := EscapeAll(x[1..]) + ("\"" + t), EscapeAll(y[1..]) + ("\"" + u);
      Reassociate(Escape(x[0]), EscapeAll(x[1..]), "\"" + t);
      Reassociate(Escape(y[0]), EscapeAll(y[1..]), "\"" + u);
      EscapeDelimits(x[0], y[0], restX, restY);
      EscapedDelimits(x[1..], y[1..], t, u);
      assert x == [x[0]] + x[1..] && y == [y[0]] + y[1..];
    }
  }

  lemma QuoteDelimits(x: string, y: string, t: string, u: string)
    requires Quote(x) + t == Quote(y) + u
    ensures x == y && t == u
  {
    hide EscapeAll;
    assert Quote(x) + t == "\"" + (EscapeAll(x) + ("\"" + t));
    assert Quote(y) + u == "\"" + (EscapeAll(y) + ("\"" + u));
    Cancel("\"", EscapeAll(x) + ("\"" + t), EscapeAll(y) + ("\"" + u));
    EscapedDelimits(x, y, t, u);
  }

  // ----- values and fields

  /** What follows a value in a record: a comma or a closing brace. */
  predicate Ends(t: string) {
    t != "" && (t[0] == ',' || t[0] == '}')
  }

  lemma DecimalDelimits(m: nat, n: nat, t: string, u: string)
    requires Ends(t) && Ends(u) && Decimal(m) + t == Decimal(n) + u
    ensures m == n && t == u
  {
    hide Decimal;
    var a, b := Decimal(m), Decimal(n);
    DecimalIsDigits(m);
    DecimalIsDigits(n);
    WordDelimits(a, b, t, u, IsDigit);
    DecimalInjective(m, n);
  }

  /** The first character of a value tells its kind. */
  lemma ValueStart(v: Value)
    ensures var s := ValueJson(v);
            && s != "" && (v.Null? <==> s[0] == 'n') && (v.Text? <==> s[0] == '"') && (v.Number? <==> IsDigit(s[0]))
  {
    hide EscapeAll;
    hide Decimal;
    if v.Number? {
      DecimalIsDigits(v.n);
      DecimalLength(v.n);
    }
  }

  lemma ValueDelimits(v: Value, w: Value, t: string, u: string)
    requires Ends(t) && Ends(u) && ValueJson(v) + t == ValueJson(w) + u
    ensures v == w && t == u
  {
    hide Quote;
    hide Decimal;
    ValueStart(v);
    ValueStart(w);
    assert (ValueJson(v) + t)[0] == ValueJson(v)[0] && (ValueJson(w) + u)[0] == ValueJson(w)[0];
    match v
    case Null => Cancel("null", t, u);
    case Text(x) => QuoteDelimits(x, w.text, t, u);
    case Number(n) => DecimalDelimits(n, w.n, t, u);
  }

  lemma FieldDelimits(f: Field, g: Field, t: string, u: string)
    requires f.name == g.name && Ends(t) && Ends(u) && FieldJson(f) + t == FieldJson(g) + u
    ensures f == g && t == u
  {
    hide Quote;
    hide ValueJson;
    var p := Quote(f.name) + ":";
    Reassociate(p, ValueJson(f.value), t);
    Reassociate(p, ValueJson(g.value), u);
    Cancel(p, ValueJson(f.value) + t, ValueJson(g.value) + u);
    ValueDelimits(f.value, g.value, t, u);
  }

  lemma {:induction false} FieldsDelimit(fs: seq<Field>, gs: seq<Field>, i: nat, t: string, u: string)
    requires i <= |fs| && i <= |gs| && (forall k :: 0 <= k < i ==> fs[k].name == gs[k].name)
    requires Ends(t) && Ends(u) && FieldsJson(fs, i) + t == FieldsJson(gs, i) + u
    ensures (forall k :: 0 <= k < i ==> fs[k] == gs[k]) && t == u
  {
    hide FieldJson;
    if i == 0 {
      Cancel("", t, u);
    } else {
      var f, g := FieldJson(fs[i - 1]), FieldJson(gs[i - 1]);
      if i > 1 {
        assert FieldsJson(fs, i) + t == FieldsJson(fs, i - 1) + ("," + (f + t));
        assert FieldsJson(gs, i) + u == FieldsJson(gs, i - 1) + ("," + (g + u));
        FieldsDelimit(fs, gs, i - 1, "," + (f + t), "," + (g + u));
        Cancel(",", f + t, g + u);
      }
      FieldDelimits(fs[i - 1], gs[i - 1], t, u);
    }
  }

  // ----- records

  /** What comes after the attempt's own fields. */
  function ReceiptJson(a: Attempt): (s: string) {
    if a.receipt.Some? then ObjectJson(ReceiptFields(a.receipt.value)) else "null"
  }

  ghost predicate SameFields(a: Attempt, b: Attempt) {
    && AttemptFields(a) == AttemptFields(b) && (a.receipt.Some? <==> b.receipt.Some?)
    && (a.receipt.Some? ==> ReceiptFields(a.receipt.value) == ReceiptFields(b.receipt.value))
  }

  lemma ObjectDelimits(fs: seq<Field>, gs: seq<Field>, t: string, u: string)
    requires |fs| == |gs| && (forall k :: 0 <= k < |fs| ==> fs[k].name == gs[k].name)
    requires ObjectJson(fs) + ("}" + t) == ObjectJson(gs) + ("}" + u)
    ensures fs == gs && t == u
  {
    hide FieldsJson;
    var n := |fs|;
    var x, y := FieldsJson(fs, n), FieldsJson(gs, n);
    assert ObjectJson(fs) + ("}" + t) == "{" + (x + ("}" + ("}" + t)));
    assert ObjectJson(gs) + ("}" + u) == "{" + (y + ("}" + ("}" + u)));
    Cancel("{", x + ("}" + ("}" + t)), y + ("}" + ("}" + u)));
    FieldsDelimit(fs, gs, n, "}" + ("}" + t), "}" + ("}" + u));
    Cancel("}", "}" + t, "}" + u);
    Cancel("}", t, u);
  }

  lemma ObjectStart(fields: seq<Field>)
    ensures ObjectJson(fields) != "" && ObjectJson(fields)[0] == '{'
  {
    hide FieldsJson;
  }

  lemma ReceiptNames(r: Receipt, q: Receipt)
    ensures var fs, gs := ReceiptFields(r), ReceiptFields(q); |fs| == |gs| && forall k :: 0 <= k < |fs| ==> fs[k].name == gs[k].name
  {
    hide PathText;
  }

  lemma ReceiptStart(a: Attempt)
    ensures var s := ReceiptJson(a); s != "" && s[0] == if a.receipt.Some? then '{' else 'n'
  {
    hide ObjectJson;
    hide ReceiptFields;
    if a.receipt.Some? { ObjectStart(ReceiptFields(a.receipt.value)); }
  }

  lemma ReceiptDelimits(a: Attempt, b: Attempt, t: string, u: string)
    requires ReceiptJson(a) + ("}" + t) == ReceiptJson(b) + ("}" + u)
    ensures (a.receipt.Some? <==> b.receipt.Some?) && t == u
    ensures a.receipt.Some? ==> ReceiptFields(a.receipt.value) == ReceiptFields(b.receipt.value)
  {
    hide ObjectJson;
    hide ReceiptFields;
    ReceiptStart(a);
    ReceiptStart(b);
    assert (ReceiptJson(a) + ("}" + t))[0] == ReceiptJson(a)[0] && (ReceiptJson(b) + ("}" + u))[0] == ReceiptJson(b)[0];
    if a.receipt.None? {
      Cancel("null", "}" + t, "}" + u);
      Cancel("}", t, u);
    } else {
      ReceiptNames(a.receipt.value, b.receipt.value);
      ObjectDelimits(ReceiptFields(a.receipt.value), ReceiptFields(b.receipt.value), t, u);
    }
  }

  lemma AttemptJsonParts(a: Attempt, t: string)
    ensures AttemptJson(a) + t == "{" + (FieldsJson(AttemptFields(a), 6) + ("," + (Quote("receipt") + ":" + (ReceiptJson(a) + ("}" + t)))))
  {
    hide FieldsJson;
    hide AttemptFields;
    hide ObjectJson;
    hide Quote;
    assert |AttemptFields(a)| == 6 by { FieldCount(a); }
  }

  lemma FieldCount(a: Attempt)
    ensures |AttemptFields(a)| == 6
  {
  }

  /** A record determines its fields and where it ends: no record is the beginning of another. */
  lemma RecordDelimits(a: Attempt, b: Attempt, t: string, u: string)
    requires AttemptJson(a) + t == AttemptJson(b) + u
    ensures SameFields(a, b) && t == u
  {
    hide AttemptJson;
    hide FieldsJson;
    hide ReceiptJson;
    hide ReceiptFields;
    hide Quote;
    hide StageText;
    hide TextOrNull;
    var fs, gs := AttemptFields(a), AttemptFields(b);
    var key := Quote("receipt") + ":";
    var restA, restB := ReceiptJson(a) + ("}" + t), ReceiptJson(b) + ("}" + u);
    AttemptJsonParts(a, t);
    AttemptJsonParts(b, u);
    Cancel("{", FieldsJson(fs, 6) + ("," + (key + restA)), FieldsJson(gs, 6) + ("," + (key + restB)));
    FieldsDelimit(fs, gs, 6, "," + (key + restA), "," + (key + restB));
    Cancel(",", key + restA, key + restB);
    Cancel(key, restA, restB);
    ReceiptDelimits(a, b, t, u);
  }

  // ----- attempts

  /** The path after its case. */
  function PathTail(p: Path): (s: string)
    ensures s != "" && s[0] == '/'
  {
    match p
    case Evidence(_, name) => "/evidence/" + name
    case Practice(_, name) => "/practice-receipts/" + name
    case Log(_) => "/attempts.jsonl"
  }

  lemma PathParts(p: Path)
    ensures PathText(p) == "cases/" + (p.caseId + PathTail(p))
  {
  }

  lemma TailsDiffer(p: Path, q: Path)
    requires PathTail(p) == PathTail(q) && p.caseId == q.caseId
    ensures p == q
  {
    assert PathTail(p)[1] == PathTail(q)[1];
    match p
    case Evidence(_, n) => Cancel("/evidence/", n, q.name);
    case Practice(_, n) => Cancel("/practice-receipts/", n, q.name);
    case Log(_) =>
  }

  lemma PlainPathsDiffer(p: Path, q: Path)
    requires PlainPath(p) && PlainPath(q) && PathText(p) == PathText(q)
    ensures p == q
  {
    hide PathText;
    hide PathTail;
    PathParts(p);
    PathParts(q);
    Cancel("cases/", p.caseId + PathTail(p), q.caseId + PathTail(q));
    WordDelimits(p.caseId, q.caseId, PathTail(p), PathTail(q), c => c != '/');
    TailsDiffer(p, q);
  }

  lemma StagesDiffer(s: Stage, t: Stage)
    requires StageText(s) == StageText(t)
    ensures s == t
  {
    assert |StageText(s)| == |StageText(t)| && StageText(s)[0] == StageText(t)[0] && StageText(s)[2] == StageText(t)[2];
  }

  /** Equal fields come from equal attempts, for paths without slashes in their parts. */
  lemma FieldsDetermineAttempt(a: Attempt, b: Attempt)
    requires RecordableAttempt(a) && RecordableAttempt(b) && SameFields(a, b)
    ensures a == b
  {
    hide ValidAttempt;
    hide PathText;
    hide StageText;
    var fs, gs := AttemptFields(a), AttemptFields(b);
    assert fs[1] == gs[1] && fs[2] == gs[2] && fs[3] == gs[3] && fs[4] == gs[4] && fs[5] == gs[5];
    StagesDiffer(a.stage, b.stage);
    OutcomesDiffer(a.outcome, b.outcome);
    if a.receipt.Some? {
      var r, q := a.receipt.value, b.receipt.value;
      var hs, ks := ReceiptFields(r), ReceiptFields(q);
      assert hs[1] == ks[1] && hs[2] == ks[2] && hs[3] == ks[3] && hs[4] == ks[4] && hs[5] == ks[5] && hs[6] == ks[6];
      PlainPathsDiffer(r.archived, q.archived);
    }
  }

  lemma OutcomesDiffer(x: Outcome, y: Outcome)
    requires (if x == Pass then "pass" else "needs-work") == (if y == Pass then "pass" else "needs-work")
    ensures x == y
  {
    assert "pass"[0] != "needs-work"[0];
  }

  /** A reader that validates: the recordable attempt that was written, if any. */
  ghost function ReadRecord(s: string): (r: Option<Attempt>)
    ensures r.Some? ==> ValidAttempt(r.value)
  {
    if exists a: Attempt :: RecordableAttempt(a) && AttemptJson(a) == s then
      var a: Attempt :| RecordableAttempt(a) && AttemptJson(a) == s;
      Some(a)
    else None
  }

  lemma ReadsWhatWasWritten(a: Attempt)
    requires RecordableAttempt(a)
    ensures ReadRecord(AttemptJson(a)) == Some(a)
  {
    hide AttemptJson;
    hide ValidAttempt;
    var b := ReadRecord(AttemptJson(a)).value;
    RecordDelimits(a, b, "", "");
    FieldsDetermineAttempt(a, b);
  }

  lemma ReadsNoCutRecord(a: Attempt, k: nat)
    requires k < |AttemptJson(a)|
    ensures ReadRecord(AttemptJson(a)[..k]) == None
  {
    hide AttemptJson;
    hide RecordableAttempt;
    hide ValidAttempt;
    var s := AttemptJson(a);
    var r := ReadRecord(s[..k]);
    if r.Some? {
      assert s + "" == AttemptJson(r.value) + s[k..];
      RecordDelimits(a, r.value, "", s[k..]);
    }
  }

  /** The reader accepts nothing the validators reject. */
  ghost predicate Validates(read: Reader) {
    forall s: string :: read(s).Some? ==> ValidAttempt(read(s).value)
  }

  /** The assumptions of the replay theorem can be met, by a reader that rejects invalid records: it reads
      every valid record back and rejects every record cut short. */
  lemma ReaderExists()
    ensures exists read: Reader :: ReadsBack(read) && RejectsCutRecords(read) && Validates(read)
  {
    hide AttemptJson;
    hide ValidAttempt;
    hide RecordableAttempt;
    ghost var read: Reader := s => ReadRecord(s);
    forall a: Attempt | RecordableAttempt(a) ensures read(AttemptJson(a)) == Some(a) { ReadsWhatWasWritten(a); }
    forall a: Attempt, k: nat | k < |AttemptJson(a)| ensures read(AttemptJson(a)[..k]) == None { ReadsNoCutRecord(a, k); }
    assert ReadsBack(read) && RejectsCutRecords(read) && Validates(read);
  }
}
