/** The append-only attempt log of src/soloscale/casebook_store.py as text: how an attempt is written
    as one line of JSON, and how `read_attempts` splits the log and reads it back. */
module AttemptLog {
  import opened Wrappers
  import opened PyText
  import opened Utf8
  import opened ContextRecord
  import opened CaseModels

  // ----- writing

  function StageText(stage: Stage): (s: string) {
    match stage
    case Explain => "explain"
    case Trace => "trace"
    case Rebuild => "rebuild"
    case Debug => "debug"
    case Defend => "defend"
  }

  function PathText(path: Path): (s: string) {
    match path
    case Evidence(c, name) => "cases/" + c + "/evidence/" + name
    case Practice(c, name) => "cases/" + c + "/practice-receipts/" + name
    case Log(c) => "cases/" + c + "/attempts.jsonl"
  }

  datatype Value = Null | Text(text: string) | Number(n: nat)

  datatype Field = Field(name: string, value: Value)

  function TextOrNull(o: Option<string>): (v: Value) {
    if o.Some? then Text(o.value) else Null
  }

  function AttemptFields(a: Attempt): (fields: seq<Field>) {
    [ Field("schema_version", Text("0.1")), Field("case_id", Text(a.caseId)), Field("stage", Text(StageText(a.stage))),
      Field("outcome", Text(if a.outcome == Pass then "pass" else "needs-work")),
      Field("created_at", Text(a.createdAt)), Field("note", TextOrNull(a.note)) ]
  }

  function ReceiptFields(r: Receipt): (fields: seq<Field>) {
    [ Field("schema_version", Text("0.1")), Field("id", Text(r.id)), Field("source_path", Text(r.sourcePath)),
      Field("archived_path", Text(PathText(r.archived))), Field("sha256", Text(r.sha256)),
      Field("byte_size", Number(r.byteSize)), Field("captured_at", Text(r.capturedAt)) ]
  }

  function ValueJson(v: Value): (s: string) {
    match v
    case Null => "null"
    case Text(text) => Quote(text)
    case Number(n) => Decimal(n)
  }

  function FieldJson(f: Field): (s: string) {
    Quote(f.name) + ":" + ValueJson(f.value)
  }

  /** The first i fields, comma-separated. */
  function FieldsJson(fields: seq<Field>, i: nat): (s: string)
    requires i <= |fields|
  {
    if i == 0 then ""
    else if i == 1 then FieldJson(fields[0])
    else FieldsJson(fields, i - 1) + "," + FieldJson(fields[i - 1])
  }

  function ObjectJson(fields: seq<Field>): (s: string) {
    "{" + FieldsJson(fields, |fields|) + "}"
  }

  /** `attempt.model_dump_json()`: the receipt, an object of its own, comes last. */
  function AttemptJson(a: Attempt): (s: string) {
    var receipt := if a.receipt.Some? then ObjectJson(ReceiptFields(a.receipt.value)) else "null";
    "{" + (FieldsJson(AttemptFields(a), |AttemptFields(a)|) + "," + Quote("receipt") + ":" + receipt) + "}"
  }

  /** The log of these attempts: one line each. */
  function LogText(attempts: seq<Attempt>): (s: string) {
    if attempts == [] then ""
    else LogText(attempts[..|attempts| - 1]) + (AttemptJson(attempts[|attempts| - 1]) + "\n")
  }

  // ----- reading

  /** The characters at which `str.splitlines` breaks a line. */
  predicate IsBreak(c: char) {
    var v := c as int;
    0x0A <= v <= 0x0D || 0x1C <= v <= 0x1E || IsSeparator(c)
  }

  /** Those of them that JSON text may contain as they are. */
  predicate IsSeparator(c: char) {
    c as int == 0x85 || c as int == 0x2028 || c as int == 0x2029
  }

  function FirstBreak(s: string, i: nat): (j: nat)
    requires i <= |s|
    ensures i <= j <= |s|
    ensures forall k :: i <= k < j ==> !IsBreak(s[k])
    ensures j < |s| ==> IsBreak(s[j])
    decreases |s| - i
  {
    if i == |s| || IsBreak(s[i]) then i else FirstBreak(s, i + 1)
  }

  /** Where the next line starts: "\r\n" is one break.  Reading in text mode turns "\r\n" and "\r" into
      "\n" first, which gives the same lines. */
  function NextLine(s: string, j: nat): (k: nat)
    requires j < |s|
    ensures j < k <= |s|
  {
    if s[j] == '\r' && j + 1 < |s| && s[j + 1] == '\n' then j + 2 else j + 1
  }

  function SplitLines(s: string): (lines: seq<string>)
    decreases |s|
  {
    if s == "" then []
    else
      var j := FirstBreak(s, 0);
      if j == |s| then [s] else [s[..j]] + SplitLines(s[NextLine(s, j)..])
  }

  /** `PracticeAttempt.model_validate_json`; None when it raises. */
  type Reader = string -> Option<Attempt>

  /** The attempts on the lines from the i-th on, after those already read; blank lines are skipped. */
  function ReadLines(read: Reader, lines: seq<string>, i: nat, attempts: seq<Attempt>): (r: Option<seq<Attempt>>)
    requires i <= |lines|
    decreases |lines| - i
  {
    if i == |lines| then Some(attempts)
    else if Strip(lines[i]) == "" then ReadLines(read, lines, i + 1, attempts)
    else
      match read(Strip(lines[i]))
      case None => None
      case Some(a) => ReadLines(read, lines, i + 1, attempts + [a])
  }

  function ReadLog(read: Reader, bytes: Bytes): (r: Option<seq<Attempt>>) {
    match Decode(bytes)
    case None => None
    case Some(text) => ReadLines(read, SplitLines(text), 0, [])
  }

  method ReadAttempts(read: Reader, bytes: Bytes) returns (r: Option<seq<Attempt>>)
    ensures r == ReadLog(read, bytes)
  {
    var decoded := Decode(bytes);
    if decoded.None? {
      return None;
    }
    var lines := SplitLines(decoded.value);
    var attempts: seq<Attempt> := [];
    for i := 0 to |lines|
      invariant ReadLog(read, bytes) == ReadLines(read, lines, i, attempts)
    {
      var stripped := Strip(lines[i]);
      if stripped != "" {
        var attempt := read(stripped);
        if attempt.None? {
          return None;
        }
        attempts := attempts + [attempt.value];
      }
    }
    return Some(attempts);
  }

  // ----- which records contain a line break

  predicate HasBreak(s: string) {
    exists k :: 0 <= k < |s| && IsBreak(s[k])
  }

  predicate HasSeparator(s: string) {
    exists k :: 0 <= k < |s| && IsSeparator(s[k])
  }

  predicate CleanField(f: Field) {
    f.value.Text? ==> !HasSeparator(f.value.text)
  }

  predicate CleanFields(fields: seq<Field>) {
    forall k :: 0 <= k < |fields| ==> CleanField(fields[k])
  }

  /** No text of the attempt contains U+0085, U+2028 or U+2029. */
  predicate CleanAttempt(a: Attempt) {
    CleanFields(AttemptFields(a)) && (a.receipt.Some? ==> CleanFields(ReceiptFields(a.receipt.value)))
  }

  lemma HasBreakAppend(s: string, t: string)
    ensures HasBreak(s + t) <==> HasBreak(s) || HasBreak(t)
  {
    var u := s + t;
    if HasBreak(s) {
      var k :| 0 <= k < |s| && IsBreak(s[k]);
      assert u[k] == s[k];
    }
    if HasBreak(t) {
      var k :| 0 <= k < |t| && IsBreak(t[k]);
      assert u[|s| + k] == t[k];
    }
  }

  lemma EscapeBreaks(c: char)
    ensures HasBreak(Escape(c)) <==> IsSeparator(c)
  {
    var e := Escape(c);
    if IsSeparator(c) {
      assert IsBreak(e[0]);
    }
  }

  lemma {:induction false} EscapeAllBreaks(s: string)
    ensures HasBreak(EscapeAll(s)) <==> HasSeparator(s)
  {
    hide Escape;
    hide IsBreak;
    hide IsSeparator;
    if s != "" {
      EscapeAllBreaks(s[1..]);
      EscapeBreaks(s[0]);
      HasBreakAppend(Escape(s[0]), EscapeAll(s[1..]));
      HasSeparatorCons(s);
    }
  }

  lemma HasSeparatorCons(s: string)
    requires s != ""
    ensures HasSeparator(s) <==> IsSeparator(s[0]) || HasSeparator(s[1..])
  {
    if HasSeparator(s[1..]) {
      var k :| 0 <= k < |s[1..]| && IsSeparator(s[1..][k]);
      assert s[k + 1] == s[1..][k];
    }
    if HasSeparator(s) {
      var k :| 0 <= k < |s| && IsSeparator(s[k]);
      if k > 0 { assert s[1..][k - 1] == s[k]; }
    }
  }

  lemma QuoteBreaks(s: string)
    ensures HasBreak(Quote(s)) <==> HasSeparator(s)
  {
    hide EscapeAll;
    HasBreakAppend("\"" + EscapeAll(s), "\"");
    HasBreakAppend("\"", EscapeAll(s));
    EscapeAllBreaks(s);
    assert !IsBreak("\""[0]);
  }

  lemma {:induction false} DecimalHasNoBreak(n: nat)
    ensures !HasBreak(Decimal(n))
  {
    if n >= 10 {
      DecimalHasNoBreak(n / 10);
      HasBreakAppend(Decimal(n / 10), [('0' as int + n % 10) as char]);
    }
  }

  lemma FieldBreaks(f: Field)
    requires !HasSeparator(f.name)
    ensures HasBreak(FieldJson(f)) <==> !CleanField(f)
  {
    hide Quote;
    hide Decimal;
    QuoteBreaks(f.name);
    HasBreakAppend(Quote(f.name) + ":", ValueJson(f.value));
    HasBreakAppend(Quote(f.name), ":");
    match f.value
    case Null =>
    case Text(text) => QuoteBreaks(text);
    case Number(n) => DecimalHasNoBreak(n);
  }

  lemma {:induction false} FieldsBreak(fields: seq<Field>, i: nat)
    requires i <= |fields| && forall k :: 0 <= k < |fields| ==> !HasSeparator(fields[k].name)
    ensures HasBreak(FieldsJson(fields, i)) <==> !CleanFields(fields[..i])
  {
    hide FieldJson;
    hide HasSeparator;
    hide CleanField;
    hide HasBreak;
    if i == 0 {
      assert !HasBreak("") by { HasBreakOfShort(""); }
    } else {
      FieldBreaks(fields[i - 1]);
      FieldsBreak(fields, i - 1);
      CleanFieldsSnoc(fields, i);
      if i > 1 {
        HasBreakAppend(FieldsJson(fields, i - 1) + ",", FieldJson(fields[i - 1]));
        HasBreakAppend(FieldsJson(fields, i - 1), ",");
        HasBreakOfShort(",");
      }
    }
  }

  lemma HasBreakOfShort(s: string)
    requires |s| <= 1
    ensures HasBreak(s) <==> |s| == 1 && IsBreak(s[0])
  {
  }

  lemma CleanFieldsSnoc(fields: seq<Field>, i: nat)
    requires 0 < i <= |fields|
    ensures CleanFields(fields[..i]) <==> CleanFields(fields[..i - 1]) && CleanField(fields[i - 1])
  {
    hide CleanField;
    if CleanFields(fields[..i]) {
      forall k | 0 <= k < i ensures CleanField(fields[k]) { assert fields[..i][k] == fields[k]; }
    }
  }

  lemma AttemptNamesAreClean(a: Attempt)
    ensures forall k :: 0 <= k < |AttemptFields(a)| ==> !HasSeparator(AttemptFields(a)[k].name)
    ensures !HasSeparator("receipt")
  {
    hide StageText;
    hide TextOrNull;
    var fields := AttemptFields(a);
    assert !HasSeparator(fields[0].name);
    assert !HasSeparator(fields[1].name);
    assert !HasSeparator(fields[2].name);
    assert !HasSeparator(fields[3].name);
    assert !HasSeparator(fields[4].name);
    assert !HasSeparator(fields[5].name);
  }

  lemma ReceiptNamesAreClean(r: Receipt)
    ensures forall k :: 0 <= k < |ReceiptFields(r)| ==> !HasSeparator(ReceiptFields(r)[k].name)
  {
    var fields := ReceiptFields(r);
    assert !HasSeparator(fields[0].name);
    assert !HasSeparator(fields[1].name);
    assert !HasSeparator(fields[2].name);
    assert !HasSeparator(fields[3].name);
    assert !HasSeparator(fields[4].name);
    assert !HasSeparator(fields[5].name);
    assert !HasSeparator(fields[6].name);
  }

  lemma ObjectBreaks(fields: seq<Field>)
    requires forall k :: 0 <= k < |fields| ==> !HasSeparator(fields[k].name)
    ensures HasBreak(ObjectJson(fields)) <==> !CleanFields(fields)
  {
    hide FieldsJson;
    hide CleanFields;
    hide HasBreak;
    FieldsBreak(fields, |fields|);
    assert fields[..|fields|] == fields;
    HasBreakAppend("{" + FieldsJson(fields, |fields|), "}");
    HasBreakAppend("{", FieldsJson(fields, |fields|));
    HasBreakOfShort("{");
    HasBreakOfShort("}");
  }

  /** A record contains a line break exactly when one of the attempt's texts contains a separator: JSON
      escapes every other break. */
  lemma RecordBreaksIff(a: Attempt)
    ensures HasBreak(AttemptJson(a)) <==> !CleanAttempt(a)
  {
    hide FieldsJson;
    hide CleanFields;
    hide AttemptFields;
    hide ReceiptFields;
    hide ObjectJson;
    hide HasBreak;
    hide Quote;
    var receipt := if a.receipt.Some? then ObjectJson(ReceiptFields(a.receipt.value)) else "null";
    var fields := AttemptFields(a);
    AttemptNamesAreClean(a);
    FieldsBreak(fields, |fields|);
    assert fields[..|fields|] == fields;
    QuoteBreaks("receipt");
    if a.receipt.Some? {
      ReceiptNamesAreClean(a.receipt.value);
      ObjectBreaks(ReceiptFields(a.receipt.value));
    } else {
      NullHasNoBreak();
    }
    var text := FieldsJson(fields, |fields|);
    HasBreakAppend(text + "," + Quote("receipt") + ":", receipt);
    HasBreakAppend(text + "," + Quote("receipt"), ":");
    HasBreakAppend(text + ",", Quote("receipt"));
    HasBreakAppend(text, ",");
    HasBreakAppend("{" + (text + "," + Quote("receipt") + ":" + receipt), "}");
    HasBreakAppend("{", text + "," + Quote("receipt") + ":" + receipt);
    HasBreakOfShort("{");
    HasBreakOfShort("}");
    HasBreakOfShort(",");
    HasBreakOfShort(":");
  }

  lemma NullHasNoBreak()
    ensures !HasBreak("null")
  {
  }

  lemma RecordEnds(a: Attempt)
    ensures var json := AttemptJson(a); |json| >= 2 && json[0] == '{' && json[|json| - 1] == '}'
  {
    hide FieldsJson;
    hide AttemptFields;
    hide ObjectJson;
    hide Quote;
  }

  // ----- replay

  /** The path's parts contain no slash, as is so of case ids and of names made from digests. */
  predicate PlainPath(path: Path) {
    '/' !in path.caseId && (path.Log? || '/' !in path.name)
  }

  /** The attempts the store writes: the models' validators accept them. */
  predicate RecordableAttempt(a: Attempt) {
    ValidAttempt(a) && (a.receipt.Some? ==> PlainPath(a.receipt.value.archived))
  }

  /** The reader accepts every record that satisfies the models' validators, and gives it back. */
  ghost predicate ReadsBack(read: Reader) {
    forall a: Attempt :: RecordableAttempt(a) ==> read(AttemptJson(a)) == Some(a)
  }

  /** A JSON object cut short is not JSON. */
  ghost predicate RejectsCutRecords(read: Reader) {
    forall a: Attempt, k: nat :: k < |AttemptJson(a)| ==> read(AttemptJson(a)[..k]) == None
  }

  predicate CleanLog(attempts: seq<Attempt>) {
    forall k :: 0 <= k < |attempts| ==> CleanAttempt(attempts[k])
  }

  predicate RecordableLog(attempts: seq<Attempt>) {
    forall k :: 0 <= k < |attempts| ==> RecordableAttempt(attempts[k])
  }

  lemma {:induction false} LogTextCons(attempts: seq<Attempt>)
    requires attempts != []
    ensures LogText(attempts) == (AttemptJson(attempts[0]) + "\n") + LogText(attempts[1..])
  {
    hide AttemptJson;
    var n := |attempts| - 1;
    if n == 0 {
      assert attempts[..0] == [] && attempts[1..] == [];
      assert LogText(attempts) == "" + (AttemptJson(attempts[0]) + "\n");
    } else {
      LogTextCons(attempts[..n]);
      assert attempts[1..][..n - 1] == attempts[..n][1..];
      Reassociate(AttemptJson(attempts[0]) + "\n", LogText(attempts[..n][1..]), AttemptJson(attempts[n]) + "\n");
    }
  }

  /** The first line of a text that starts with a line of its own. */
  lemma FirstLine(line: string, rest: string)
    requires !HasBreak(line)
    ensures SplitLines((line + "\n") + rest) == [line] + SplitLines(rest)
  {
    var s := (line + "\n") + rest;
    assert s[|line|] == '\n';
    forall k | 0 <= k < |line| ensures !IsBreak(s[k]) { assert s[k] == line[k]; }
    assert FirstBreak(s, 0) == |line|;
    assert s[..|line|] == line && s[|line| + 1..] == rest;
  }

  /** The first line of a text whose first record is broken is a part of that record. */
  lemma CutLine(line: string, rest: string)
    requires HasBreak(line)
    ensures var lines := SplitLines(line + rest); var j := FirstBreak(line, 0);
            j < |line| && lines != [] && lines[0] == line[..j]
  {
    var s := line + rest;
    var k :| 0 <= k < |line| && IsBreak(line[k]);
    var j := FirstBreak(line, 0);
    assert s[j] == line[j];
    forall i | 0 <= i < j ensures !IsBreak(s[i]) { assert s[i] == line[i]; }
    assert FirstBreak(s, 0) == j;
    assert s[..j] == line[..j];
  }

  lemma StripOfRecord(a: Attempt)
    ensures Strip(AttemptJson(a)) == AttemptJson(a) != ""
  {
    hide AttemptJson;
    RecordEnds(a);
    StripOfTrimmed(AttemptJson(a));
  }

  /** Stripping a part of a record that starts it leaves a non-empty, shorter part. */
  lemma StripOfCut(a: Attempt, j: nat)
    requires 0 < j < |AttemptJson(a)|
    ensures exists k :: 0 < k <= j && Strip(AttemptJson(a)[..j]) == AttemptJson(a)[..k]
  {
    hide AttemptJson;
    RecordEnds(a);
    var json := AttemptJson(a);
    var cut := json[..j];
    assert cut[0] == '{';
    StripIsSlice(cut);
    assert StripStart(cut) == 0;
    var k := StripEnd(cut);
    assert k > 0;
    assert Strip(cut) == cut[..k] == json[..k];
  }

  lemma {:induction false} ReadLinesShift(read: Reader, first: string, lines: seq<string>, i: nat, attempts: seq<Attempt>)
    requires i <= |lines|
    ensures ReadLines(read, [first] + lines, i + 1, attempts) == ReadLines(read, lines, i, attempts)
    decreases |lines| - i
  {
    hide Strip;
    if i < |lines| {
      if Strip(lines[i]) == "" {
        ReadLinesShift(read, first, lines, i + 1, attempts);
      } else if read(Strip(lines[i])).Some? {
        ReadLinesShift(read, first, lines, i + 1, attempts + [read(Strip(lines[i])).value]);
      }
    }
  }

  /** Replay from a position in the log: the attempts in order, exactly when no record is broken. */
  lemma {:induction false} ReplayLines(read: Reader, log: seq<Attempt>, attempts: seq<Attempt>)
    requires ReadsBack(read) && RejectsCutRecords(read) && RecordableLog(log)
    ensures ReadLines(read, SplitLines(LogText(log)), 0, attempts) == if CleanLog(log) then Some(attempts + log) else None
    decreases |log|
  {
    hide AttemptJson;
    hide CleanAttempt;
    hide RecordableAttempt;
    hide Strip;
    hide SplitLines;
    if log == [] {
      assert SplitLines("") == [] by { SplitNothing(); }
      assert attempts + log == attempts;
    } else {
      var a, rest := log[0], log[1..];
      var json := AttemptJson(a);
      LogTextCons(log);
      RecordBreaksIff(a);
      RecordEnds(a);
      if CleanAttempt(a) {
        FirstLine(json, LogText(rest));
        StripOfRecord(a);
        ReadLinesShift(read, json, SplitLines(LogText(rest)), 0, attempts + [a]);
        ReplayLines(read, rest, attempts + [a]);
        assert (attempts + [a]) + rest == attempts + log;
        assert CleanLog(rest) <==> CleanLog(log) by { CleanCons(log); }
      } else {
        assert (json + "\n") + LogText(rest) == json + ("\n" + LogText(rest));
        CutLine(json, "\n" + LogText(rest));
        var j := FirstBreak(json, 0);
        assert j > 0;
        StripOfCut(a, j);
      }
    }
  }

  lemma SplitNothing()
    ensures SplitLines("") == []
  {
  }

  lemma CleanCons(log: seq<Attempt>)
    requires log != [] && CleanAttempt(log[0])
    ensures CleanLog(log[1..]) <==> CleanLog(log)
  {
    hide CleanAttempt;
    if CleanLog(log[1..]) {
      forall k | 0 <= k < |log| ensures CleanAttempt(log[k]) { assert k > 0 ==> log[k] == log[1..][k - 1]; }
    }
  }

  /** Replaying a log of valid attempts returns its attempts in order if and only if no text in it contains U+0085,
      U+2028 or U+2029; otherwise reading fails. */
  lemma ReplayIff(read: Reader, log: seq<Attempt>)
    requires ReadsBack(read) && RejectsCutRecords(read) && RecordableLog(log)
    ensures ReadLog(read, Encode(LogText(log))) == if CleanLog(log) then Some(log) else None
  {
    hide ReadsBack;
    hide RejectsCutRecords;
    hide LogText;
    DecodeEncode(LogText(log));
    ReplayLines(read, log, []);
    assert [] + log == log;
  }

  /** A note with a line separator in it makes the whole log unreadable. */
  lemma SeparatorInNoteLosesTheLog(read: Reader, log: seq<Attempt>, a: Attempt)
    requires ReadsBack(read) && RejectsCutRecords(read) && RecordableLog(log) && RecordableAttempt(a)
    requires a.note == Some("one\U{2028}two")
    ensures ReadLog(read, Encode(LogText(log + [a]))) == None
  {
    hide ReadLog;
    hide LogText;
    hide AttemptJson;
    hide StageText;
    hide ReadsBack;
    hide RejectsCutRecords;
    ReplayIff(read, log + [a]);
    var fields := AttemptFields(a);
    assert "one\U{2028}two"[3] == '\U{2028}';
    assert HasSeparator("one\U{2028}two");
    assert !CleanField(fields[5]);
    assert (log + [a])[|log|] == a;
  }
}
