/** A reader of the attempt records of src/soloscale/casebook_store.py, written from the other side: it
    takes JSON text apart (RFC 8259), and what was written comes back. */
module RecordReader {
  import opened Wrappers
  import opened PyText
  import opened ContextRecord
  import opened CaseModels
  import opened AttemptLog
  import opened RecordFormat

  // ----- strings

  function HexValue(c: char): (n: Option<nat>) {
    if '0' <= c <= '9' then Some(c as int - '0' as int)
    else if 'a' <= c <= 'f' then Some(c as int - 'a' as int + 10)
    else None
  }

  /** The character that the two-character escape with this letter stands for (section 7 of RFC 8259). */
  function ShortEscape(c: char): (r: Option<char>) {
    if c == '"' || c == '\\' || c == '/' then Some(c)
    else if c == 'b' then Some(8 as char)
    else if c == 'f' then Some(12 as char)
    else if c == 'n' then Some(10 as char)
    else if c == 'r' then Some(13 as char)
    else if c == 't' then Some(9 as char)
    else None
  }

  /** One character of a string and what follows it; escapes of the lowest 256 characters only. */
  function ReadChar(s: string): (r: Option<(char, string)>)
    ensures r.Some? ==> |r.value.1| < |s|
  {
    if s == "" || s[0] == '"' || s[0] as int < 0x20 then None
    else if s[0] != '\\' then Some((s[0], s[1..]))
    else if |s| < 2 then None
    else if s[1] == 'u' then
      if |s| < 6 || s[2] != '0' || s[3] != '0' || HexValue(s[4]).None? || HexValue(s[5]).None? then None
      else Some(((16 * HexValue(s[4]).value + HexValue(s[5]).value) as char, s[6..]))
    else if ShortEscape(s[1]).Some? then Some((ShortEscape(s[1]).value, s[2..]))
    else None
  }

  /** The rest of a string up to its closing quote, and what follows it. */
  function ReadText(s: string): (r: Option<(string, string)>)
    decreases |s|
  {
    if s != "" && s[0] == '"' then Some(("", s[1..]))
    else
      match ReadChar(s)
      case None => None
      case Some((c, rest)) =>
        match ReadText(rest)
        case None => None
        case Some((text, after)) => Some(([c] + text, after))
  }

  lemma HexValueOfDigit(n: nat)
    requires n < 16
    ensures HexValue(HexDigit(n)) == Some(n)
  {
  }

  lemma ReadsEscape(c: char, t: string)
    ensures ReadChar(Escape(c) + t) == Some((c, t))
  {
    var s := Escape(c) + t;
    if Escape(c) == [c] {
      assert s[0] == c && s[1..] == t;
    } else {
      assert s[0] == '\\' && s[1] == Escape(c)[1];
      if c as int < 0x20 && Escape(c)[1] == 'u' {
        HexValueOfDigit(c as int / 16);
        HexValueOfDigit(c as int % 16);
        assert s[2] == Escape(c)[2] && s[3] == Escape(c)[3] && s[4] == Escape(c)[4] && s[5] == Escape(c)[5] && s[6..] == t;
      } else {
        assert s[2..] == t;
      }
    }
  }

  /** Reading an escaped text gives the text back. */
  lemma {:induction false} ReadsEscaped(x: string, t: string)
    ensures ReadText(EscapeAll(x) + ("\"" + t)) == Some((x, t))
    decreases |x|
  {
    hide Escape;
    hide ReadChar;
    if x == "" {
      assert "" + ("\"" + t) == "\"" + t;
      assert ("\"" + t)[1..] == t;
    } else {
      var rest := EscapeAll(x[1..]) + ("\"" + t);
      Reassociate(Escape(x[0]), EscapeAll(x[1..]), "\"" + t);
      ReadsEscape(x[0], rest);
      ReadsEscaped(x[1..], t);
      EscapeStart(x[0]);
      assert (Escape(x[0]) + rest)[0] == Escape(x[0])[0];
      assert [x[0]] + x[1..] == x;
    }
  }

  // ----- values

  /** What follows this text at the start of s. */
  function After(s: string, start: string): (r: Option<string>) {
    if |start| <= |s| && s[..|start|] == start then Some(s[|start|..]) else None
  }

  lemma AfterStart(start: string, t: string)
    ensures After(start + t, start) == Some(t)
  {
    assert (start + t)[..|start|] == start && (start + t)[|start|..] == t;
  }

  lemma OtherStart(s: string, start: string)
    requires s != "" && start != "" && s[0] != start[0]
    ensures After(s, start) == None
  {
    assert |start| <= |s| ==> s[..|start|][0] == s[0];
  }

  function DigitsOf(s: string, i: nat): (j: nat)
    requires i <= |s|
    ensures i <= j <= |s| && (forall k :: i <= k < j ==> IsDigit(s[k])) && (j < |s| ==> !IsDigit(s[j]))
    decreases |s| - i
  {
    if i < |s| && IsDigit(s[i]) then DigitsOf(s, i + 1) else i
  }

  function ReadValue(s: string): (r: Option<(Value, string)>) {
    if s == "" then None
    else if s[0] == '"' then
      (match ReadText(s[1..]) case None => None case Some((text, rest)) => Some((Text(text), rest)))
    else if IsDigit(s[0]) then Some((Number(DigitsValue(s[..DigitsOf(s, 0)])), s[DigitsOf(s, 0)..]))
    else (match After(s, "null") case None => None case Some(rest) => Some((Null, rest)))
  }

  lemma {:induction false} DecimalValue(n: nat)
    ensures AllDigits(Decimal(n)) && DigitsValue(Decimal(n)) == n
  {
    DecimalIsDigits(n);
    var s := Decimal(n);
    DecimalLength(n);
    if n < 10 {
      assert s[..0] == "";
    } else {
      DecimalValue(n / 10);
      assert s[..|s| - 1] == Decimal(n / 10);
    }
  }

  lemma ReadsText(x: string, t: string)
    ensures ReadValue(Quote(x) + t) == Some((Text(x), t))
  {
    hide EscapeAll;
    hide ReadText;
    var s := Quote(x) + t;
    assert s == "\"" + (EscapeAll(x) + ("\"" + t));
    assert s[1..] == EscapeAll(x) + ("\"" + t);
    ReadsEscaped(x, t);
  }

  lemma ReadsNumber(n: nat, t: string)
    requires Ends(t)
    ensures ReadValue(Decimal(n) + t) == Some((Number(n), t))
  {
    hide Decimal;
    hide DigitsValue;
    var d := Decimal(n);
    var s := d + t;
    DecimalIsDigits(n);
    DecimalLength(n);
    DecimalValue(n);
    assert s[0] == d[0] && s[|d|] == t[0];
    forall k | 0 <= k < |d| ensures IsDigit(s[k]) { assert s[k] == d[k]; }
    var j := DigitsOf(s, 0);
    assert j == |d|;
    assert s[..|d|] == d && s[|d|..] == t;
  }

  lemma ReadsValue(v: Value, t: string)
    requires Ends(t)
    ensures ReadValue(ValueJson(v) + t) == Some((v, t))
  {
    hide Quote;
    hide Decimal;
    hide ReadText;
    match v
    case Null =>
      assert ("null" + t)[0] == 'n';
      AfterStart("null", t);
    case Text(x) => ReadsText(x, t);
    case Number(n) => ReadsNumber(n, t);
  }

  // ----- fields

  function ReadField(s: string): (r: Option<(Field, string)>) {
    if s == "" || s[0] != '"' then None
    else
      match ReadText(s[1..])
      case None => None
      case Some((name, rest)) =>
        if rest == "" || rest[0] != ':' then None
        else
          match ReadValue(rest[1..])
          case None => None
          case Some((value, after)) => Some((Field(name, value), after))
  }

  /** So many fields, separated by commas, and what follows them. */
  function ReadFields(s: string, n: nat): (r: Option<(seq<Field>, string)>)
    decreases n
  {
    if n == 0 then Some(([], s))
    else
      match ReadField(s)
      case None => None
      case Some((field, rest)) =>
        if n == 1 then Some(([field], rest))
        else if rest == "" || rest[0] != ',' then None
        else
          match ReadFields(rest[1..], n - 1)
          case None => None
          case Some((more, after)) => Some(([field] + more, after))
  }

  lemma ReadsField(f: Field, t: string)
    requires Ends(t)
    ensures ReadField(FieldJson(f) + t) == Some((f, t))
  {
    hide EscapeAll;
    hide ReadText;
    hide ReadValue;
    hide ValueJson;
    var v := ValueJson(f.value) + t;
    var s := FieldJson(f) + t;
    assert s == "\"" + (EscapeAll(f.name) + ("\"" + (":" + v)));
    assert s[1..] == EscapeAll(f.name) + ("\"" + (":" + v));
    ReadsEscaped(f.name, ":" + v);
    assert (":" + v)[1..] == v;
    ReadsValue(f.value, t);
  }

  /** The fields from the i-th on, comma-separated. */
  function FieldsFrom(fields: seq<Field>, i: nat): (s: string)
    requires i < |fields|
    decreases |fields| - i
  {
    if i == |fields| - 1 then FieldJson(fields[i]) else FieldJson(fields[i]) + ("," + FieldsFrom(fields, i + 1))
  }

  lemma {:induction false} FieldsAreFrom(fields: seq<Field>, i: nat)
    requires i < |fields|
    ensures FieldsJson(fields, |fields|) == (if i == 0 then "" else FieldsJson(fields, i) + ",") + FieldsFrom(fields, i)
    decreases |fields| - i
  {
    hide FieldJson;
    var n := |fields|;
    if i == n - 1 {
      if i == 0 { assert "" + FieldsFrom(fields, 0) == FieldsJson(fields, 1); }
    } else {
      FieldsAreFrom(fields, i + 1);
      var f, rest := FieldJson(fields[i]), FieldsFrom(fields, i + 1);
      if i == 0 {
        assert f + "," + rest == "" + (f + ("," + rest));
      } else {
        assert FieldsJson(fields, i) + "," + f + "," + rest == FieldsJson(fields, i) + "," + (f + ("," + rest));
      }
    }
  }

  lemma {:induction false} ReadsFieldsFrom(fields: seq<Field>, i: nat, t: string)
    requires i < |fields| && Ends(t)
    ensures ReadFields(FieldsFrom(fields, i) + t, |fields| - i) == Some((fields[i..], t))
    decreases |fields| - i
  {
    hide FieldJson;
    hide ReadField;
    if i == |fields| - 1 {
      ReadsField(fields[i], t);
      assert fields[i..] == [fields[i]];
    } else {
      var rest := FieldsFrom(fields, i + 1) + t;
      assert FieldsFrom(fields, i) + t == FieldJson(fields[i]) + ("," + rest);
      ReadsField(fields[i], "," + rest);
      assert ("," + rest)[1..] == rest;
      ReadsFieldsFrom(fields, i + 1, t);
      assert fields[i..] == [fields[i]] + fields[i + 1..];
    }
  }

  lemma ReadsFields(fields: seq<Field>, t: string)
    requires fields != [] && Ends(t)
    ensures ReadFields(FieldsJson(fields, |fields|) + t, |fields|) == Some((fields, t))
  {
    hide FieldsFrom;
    hide FieldsJson;
    hide ReadFields;
    FieldsAreFrom(fields, 0);
    assert "" + FieldsFrom(fields, 0) == FieldsFrom(fields, 0);
    ReadsFieldsFrom(fields, 0, t);
    assert fields[0..] == fields;
  }

  // ----- attempts

  function StageNamed(name: string): (s: Option<Stage>) {
    if name == "explain" then Some(Explain)
    else if name == "trace" then Some(Trace)
    else if name == "rebuild" then Some(Rebuild)
    else if name == "debug" then Some(Debug)
    else if name == "defend" then Some(Defend)
    else None
  }

  function OutcomeNamed(name: string): (o: Option<Outcome>) {
    if name == "pass" then Some(Pass) else if name == "needs-work" then Some(NeedsWork) else None
  }

  /** The text up to the first slash, and what follows the slash. */
  function UpToSlash(s: string, i: nat): (r: Option<(string, string)>)
    requires i <= |s|
    decreases |s| - i
  {
    if i == |s| then None else if s[i] == '/' then Some((s[..i], s[i + 1..])) else UpToSlash(s, i + 1)
  }

  /** The path below the Casebook root that this text names. */
  function PathNamed(s: string): (p: Option<Path>) {
    match After(s, "cases/")
    case None => None
    case Some(rest) =>
      match UpToSlash(rest, 0)
      case None => None
      case Some((id, tail)) =>
        if tail == "attempts.jsonl" then Some(Log(id))
        else if After(tail, "evidence/").Some? then Some(Evidence(id, After(tail, "evidence/").value))
        else if After(tail, "practice-receipts/").Some? then Some(Practice(id, After(tail, "practice-receipts/").value))
        else None
  }

  /** The value of the field with this name. */
  function ValueOf(fields: seq<Field>, name: string): (v: Option<Value>) {
    if fields == [] then None else if fields[0].name == name then Some(fields[0].value) else ValueOf(fields[1..], name)
  }

  function TextOf(fields: seq<Field>, name: string): (t: Option<string>) {
    match ValueOf(fields, name)
    case Some(Text(text)) => Some(text)
    case _ => None
  }

  function NumberOf(fields: seq<Field>, name: string): (n: Option<nat>) {
    match ValueOf(fields, name)
    case Some(Number(n)) => Some(n)
    case _ => None
  }

  function ReceiptOf(fields: seq<Field>): (r: Option<Receipt>) {
    var id, source, archived := TextOf(fields, "id"), TextOf(fields, "source_path"), TextOf(fields, "archived_path");
    var sha256, size, captured := TextOf(fields, "sha256"), NumberOf(fields, "byte_size"), TextOf(fields, "captured_at");
    if id.Some? && source.Some? && archived.Some? && PathNamed(archived.value).Some? && sha256.Some? && size.Some? && captured.Some?
    then Some(Receipt(id.value, source.value, PathNamed(archived.value).value, sha256.value, size.value, captured.value))
    else None
  }

  function AttemptOf(fields: seq<Field>, receipt: Option<Receipt>): (a: Option<Attempt>) {
    var id, stage, outcome := TextOf(fields, "case_id"), TextOf(fields, "stage"), TextOf(fields, "outcome");
    var created, note := TextOf(fields, "created_at"), ValueOf(fields, "note");
    if id.Some? && stage.Some? && StageNamed(stage.value).Some? && outcome.Some? && OutcomeNamed(outcome.value).Some?
       && created.Some? && note.Some? && !note.value.Number?
    then Some(Attempt(id.value, StageNamed(stage.value).value, OutcomeNamed(outcome.value).value, created.value,
                      if note.value.Text? then Some(note.value.text) else None, receipt))
    else None
  }

  /** The receipt of a record, an object or null, and what follows it. */
  function ReadReceipt(s: string): (r: Option<(Option<Receipt>, string)>) {
    match After(s, "null")
    case Some(rest) => Some((None, rest))
    case None =>
      match After(s, "{")
      case None => None
      case Some(inner) =>
        match ReadFields(inner, 7)
        case None => None
        case Some((fields, rest)) =>
          match After(rest, "}")
          case None => None
          case Some(after) =>
            match ReceiptOf(fields)
            case None => None
            case Some(receipt) => Some((Some(receipt), after))
  }

  /** A whole record. */
  function ReadAttempt(s: string): (a: Option<Attempt>) {
    match After(s, "{")
    case None => None
    case Some(inner) =>
      match ReadFields(inner, 6)
      case None => None
      case Some((fields, rest)) =>
        match After(rest, ",\"receipt\":")
        case None => None
        case Some(tail) =>
          match ReadReceipt(tail)
          case None => None
          case Some((receipt, end)) => if end == "}" then AttemptOf(fields, receipt) else None
  }

  lemma StageComesBack(s: Stage)
    ensures StageNamed(StageText(s)) == Some(s)
  {
    match s
    case Explain =>
    case Trace => assert "trace"[0] != "explain"[0];
    case Rebuild => assert |"rebuild"| == |"explain"| && "rebuild"[0] != "explain"[0];
    case Debug => assert |"debug"| == |"trace"| && "debug"[0] != "trace"[0];
    case Defend => assert |"defend"| == 6 && |"rebuild"| == 7;
  }

  lemma {:induction false} SlashFound(id: string, tail: string, i: nat)
    requires '/' !in id && i <= |id|
    ensures UpToSlash(id + ("/" + tail), i) == Some((id, tail))
    decreases |id| - i
  {
    var s := id + ("/" + tail);
    if i == |id| {
      assert s[i] == '/' && s[..i] == id && s[i + 1..] == tail;
    } else {
      assert s[i] == id[i];
      SlashFound(id, tail, i + 1);
    }
  }

  /** What follows the case id and a slash in a path. */
  function TailOf(p: Path): (tail: string) {
    match p
    case Evidence(_, name) => "evidence/" + name
    case Practice(_, name) => "practice-receipts/" + name
    case Log(_) => "attempts.jsonl"
  }

  lemma PathIsTail(p: Path)
    ensures PathText(p) == "cases/" + (p.caseId + ("/" + TailOf(p)))
  {
    hide PathText;
    PathParts(p);
    TailIsTail(p);
    hide PathTail;
    hide TailOf;
  }

  lemma TailIsTail(p: Path)
    ensures PathTail(p) == "/" + TailOf(p)
  {
    match p
    case Evidence(_, name) => Seam("/", "evidence/", name);
    case Practice(_, name) => Seam("/", "practice-receipts/", name);
    case Log(_) => assert "/" + "attempts.jsonl" == "/attempts.jsonl";
  }

  lemma Seam(a: string, b: string, c: string)
    ensures a + b + c == a + (b + c)
  {
  }

  lemma TailComesBack(p: Path)
    ensures TailOf(p) == "attempts.jsonl" <==> p.Log?
    ensures p.Evidence? ==> After(TailOf(p), "evidence/") == Some(p.name)
    ensures p.Practice? ==> After(TailOf(p), "evidence/") == None && After(TailOf(p), "practice-receipts/") == Some(p.name)
  {
    hide After;
    var tail := TailOf(p);
    match p
    case Evidence(_, name) =>
      AfterStart("evidence/", name);
      assert tail[0] == 'e';
    case Practice(_, name) =>
      AfterStart("practice-receipts/", name);
      assert tail[0] == 'p';
      OtherStart(tail, "evidence/");
    case Log(_) =>
  }

  lemma PathComesBack(p: Path)
    requires PlainPath(p)
    ensures PathNamed(PathText(p)) == Some(p)
  {
    hide UpToSlash;
    hide After;
    hide TailOf;
    hide PathText;
    PathIsTail(p);
    AfterStart("cases/", p.caseId + ("/" + TailOf(p)));
    SlashFound(p.caseId, TailOf(p), 0);
    TailComesBack(p);
  }

  // ----- the round trip

  lemma FieldsComeBack(a: Attempt)
    ensures AttemptOf(AttemptFields(a), a.receipt) == Some(a)
  {
    hide StageNamed;
    hide StageText;
    StageComesBack(a.stage);
    var fields := AttemptFields(a);
    AttemptValues(a);
    assert OutcomeNamed(if a.outcome == Pass then "pass" else "needs-work") == Some(a.outcome) by { OutcomeComesBack(a.outcome); }
    hide OutcomeNamed;
    hide ValueOf;
    hide AttemptFields;
  }

  lemma OutcomeComesBack(o: Outcome)
    ensures OutcomeNamed(if o == Pass then "pass" else "needs-work") == Some(o)
  {
  }

  lemma {:induction false} ValueAt(fields: seq<Field>, k: nat)
    requires k < |fields| && forall j :: 0 <= j < k ==> fields[j].name != fields[k].name
    ensures ValueOf(fields, fields[k].name) == Some(fields[k].value)
    decreases k
  {
    if k > 0 {
      assert fields[1..][k - 1] == fields[k];
      forall j | 0 <= j < k - 1 ensures fields[1..][j].name != fields[1..][k - 1].name { assert fields[1..][j] == fields[j + 1]; }
      ValueAt(fields[1..], k - 1);
    }
  }

  predicate NamesDiffer(fields: seq<Field>) {
    forall i, j :: 0 <= i < j < |fields| ==> fields[i].name != fields[j].name
  }

  lemma AttemptNamesDiffer(a: Attempt)
    ensures NamesDiffer(AttemptFields(a))
  {
    hide StageText;
    hide TextOrNull;
    var fields := AttemptFields(a);
    assert |fields[0].name| == 14 && |fields[1].name| == 7 && |fields[2].name| == 5 && |fields[3].name| == 7 && |fields[4].name| == 10
        && |fields[5].name| == 4;
    assert fields[1].name[0] == 'c' && fields[3].name[0] == 'o';
  }

  lemma AttemptValues(a: Attempt)
    ensures var fields := AttemptFields(a);
            && ValueOf(fields, "case_id") == Some(Text(a.caseId)) && ValueOf(fields, "stage") == Some(Text(StageText(a.stage)))
            && ValueOf(fields, "outcome") == Some(Text(if a.outcome == Pass then "pass" else "needs-work"))
            && ValueOf(fields, "created_at") == Some(Text(a.createdAt)) && ValueOf(fields, "note") == Some(TextOrNull(a.note))
  {
    hide ValueOf;
    hide StageText;
    var fields := AttemptFields(a);
    AttemptNamesDiffer(a);
    ValueAt(fields, 1);
    ValueAt(fields, 2);
    ValueAt(fields, 3);
    ValueAt(fields, 4);
    ValueAt(fields, 5);
  }

  lemma ReceiptNamesDiffer(r: Receipt)
    ensures NamesDiffer(ReceiptFields(r))
  {
    hide PathText;
    var fields := ReceiptFields(r);
    assert |fields[0].name| == 14 && |fields[1].name| == 2 && |fields[2].name| == 11 && |fields[3].name| == 13 && |fields[4].name| == 6
        && |fields[5].name| == 9 && |fields[6].name| == 11;
    assert fields[2].name[0] == 's' && fields[6].name[0] == 'c';
  }

  lemma ReceiptValues(r: Receipt)
    ensures var fields := ReceiptFields(r);
            && ValueOf(fields, "id") == Some(Text(r.id)) && ValueOf(fields, "source_path") == Some(Text(r.sourcePath))
            && ValueOf(fields, "archived_path") == Some(Text(PathText(r.archived))) && ValueOf(fields, "sha256") == Some(Text(r.sha256))
            && ValueOf(fields, "byte_size") == Some(Number(r.byteSize)) && ValueOf(fields, "captured_at") == Some(Text(r.capturedAt))
  {
    hide ValueOf;
    hide PathText;
    var fields := ReceiptFields(r);
    ReceiptNamesDiffer(r);
    ValueAt(fields, 1);
    ValueAt(fields, 2);
    ValueAt(fields, 3);
    ValueAt(fields, 4);
    ValueAt(fields, 5);
    ValueAt(fields, 6);
  }

  lemma ReceiptComesBack(r: Receipt)
    requires PlainPath(r.archived)
    ensures ReceiptOf(ReceiptFields(r)) == Some(r)
  {
    hide ValueOf;
    hide PathText;
    hide PathNamed;
    hide ReceiptFields;
    ReceiptValues(r);
    PathComesBack(r.archived);
  }

  lemma ReadsReceipt(a: Attempt, t: string)
    requires a.receipt.Some? ==> PlainPath(a.receipt.value.archived)
    ensures ReadReceipt(ReceiptJson(a) + t) == Some((a.receipt, t))
  {
    hide FieldsJson;
    hide ReadFields;
    hide ReceiptOf;
    hide ReceiptFields;
    hide After;
    if a.receipt.None? {
      AfterStart("null", t);
    } else {
      var r := a.receipt.value;
      var fields := ReceiptFields(r);
      assert |fields| == 7 by { ReceiptFieldCount(r); }
      var rest := "}" + t;
      var inner := FieldsJson(fields, 7) + rest;
      assert ReceiptJson(a) + t == "{" + inner;
      assert ("{" + inner)[0] == '{';
      OtherStart("{" + inner, "null");
      AfterStart("{", inner);
      ReadsFields(fields, rest);
      AfterStart("}", t);
      ReceiptComesBack(r);
    }
  }

  lemma ReceiptFieldCount(r: Receipt)
    ensures |ReceiptFields(r)| == 7
  {
    hide PathText;
  }

  lemma KeyIs()
    ensures "," + (Quote("receipt") + ":") == ",\"receipt\":"
  {
    hide Quote;
    QuotedKey();
    assert "\"receipt\"" + ":" == "\"receipt\":";
  }

  lemma QuotedKey()
    ensures Quote("receipt") == "\"receipt\""
  {
    PlainStays("receipt");
    hide EscapeAll;
  }

  lemma {:induction false} PlainStays(s: string)
    requires forall k :: 0 <= k < |s| ==> 'a' <= s[k] <= 'z'
    ensures EscapeAll(s) == s
  {
    if s != "" {
      PlainStays(s[1..]);
      assert Escape(s[0]) == [s[0]] && [s[0]] + s[1..] == s;
    }
  }

  /** Reading a written record gives the attempt back, for paths without slashes in their parts. */
  lemma ReadsAttempt(a: Attempt)
    requires a.receipt.Some? ==> PlainPath(a.receipt.value.archived)
    ensures ReadAttempt(AttemptJson(a)) == Some(a)
  {
    hide FieldsJson;
    hide ReadFields;
    hide ReadReceipt;
    hide ReceiptJson;
    hide AttemptOf;
    hide AttemptFields;
    hide AttemptJson;
    hide After;
    hide Quote;
    var fields := AttemptFields(a);
    assert |fields| == 6 by { FieldCount(a); }
    var key := ",\"receipt\":";
    var tail := ReceiptJson(a) + "}";
    var inner := FieldsJson(fields, 6) + (key + tail);
    AttemptJsonParts(a, "");
    KeyIs();
    assert AttemptJson(a) + "" == AttemptJson(a) && "}" + "" == "}";
    assert "," + (Quote("receipt") + ":" + tail) == "," + (Quote("receipt") + ":") + tail;
    assert AttemptJson(a) == "{" + inner;
    AfterStart("{", inner);
    assert (key + tail)[0] == ',';
    ReadsFields(fields, key + tail);
    AfterStart(key, tail);
    ReadsReceipt(a, "}");
    FieldsComeBack(a);
  }
}
