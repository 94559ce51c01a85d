/** The records of src/soloscale/casebook_models.py and what their validators accept. */
module CaseModels {
  import opened Wrappers
  import opened PyText

  datatype Stage = Explain | Trace | Rebuild | Debug | Defend

  datatype Outcome = Pass | NeedsWork

  /** Where an archived file lives below the Casebook root. */
  datatype Path = Evidence(caseId: string, name: string) | Practice(caseId: string, name: string) | Log(caseId: string)

  datatype Receipt = Receipt(id: string, sourcePath: string, archived: Path, sha256: string, byteSize: nat, capturedAt: string)

  datatype Attempt = Attempt(caseId: string, stage: Stage, outcome: Outcome, createdAt: string,
                             note: Option<string>, receipt: Option<Receipt>)

  // ----- texts and identifiers

  /** `\s` of the validators' patterns: unlike `str.isspace`, without U+001C to U+001F. */
  predicate IsPatternSpace(c: char) {
    IsSpace(c) && !(0x1C <= c as int <= 0x1F)
  }

  /** `NonBlankStr`. */
  predicate NonBlankText(s: string) {
    exists k :: 0 <= k < |s| && !IsPatternSpace(s[k])
  }

  predicate IsSlugChar(c: char) {
    'a' <= c <= 'z' || '0' <= c <= '9'
  }

  /** `CaseId`: 3 to 80 lowercase letters and digits in groups joined by single hyphens. */
  predicate ValidCaseId(id: string) {
    && 3 <= |id| <= 80 && IsSlugChar(id[0]) && IsSlugChar(id[|id| - 1])
    && (forall k :: 0 <= k < |id| ==> IsSlugChar(id[k]) || id[k] == '-')
    && (forall k :: 0 < k < |id| ==> id[k - 1] != '-' || id[k] != '-')
  }

  predicate IsAlphanumeric(c: char) {
    'A' <= c <= 'Z' || 'a' <= c <= 'z' || '0' <= c <= '9'
  }

  /** `ReceiptId`. */
  predicate ValidReceiptId(id: string) {
    && 1 <= |id| <= 128 && IsAlphanumeric(id[0])
    && forall k :: 0 <= k < |id| ==> IsAlphanumeric(id[k]) || id[k] in "._-"
  }

  predicate IsLowerHex(c: char) {
    '0' <= c <= '9' || 'a' <= c <= 'f'
  }

  predicate AllLowerHex(s: string) {
    forall k :: 0 <= k < |s| ==> IsLowerHex(s[k])
  }

  /** `Sha256Digest`. */
  predicate IsDigest(s: string) {
    |s| == 64 && AllLowerHex(s)
  }

  /** `uuid4().hex[:16]`. */
  type Token = s: string | |s| == 16 && AllLowerHex(s) witness "0000000000000000"

  lemma TokenMakesReceiptId(prefix: string, token: Token)
    requires prefix == "evidence-" || prefix == "practice-"
    ensures ValidReceiptId(prefix + token)
  {
  }

  // ----- times

  predicate InRange(s: string, low: nat, high: nat) {
    AllDigits(s) && low <= DigitsValue(s) <= high
  }

  predicate IsLeapYear(year: nat) {
    year % 4 == 0 && (year % 100 != 0 || year % 400 == 0)
  }

  function DaysIn(year: nat, month: nat): (days: nat) {
    if month == 2 then (if IsLeapYear(year) then 29 else 28)
    else if month in {4, 6, 9, 11} then 30
    else 31
  }

  predicate IsDate(s: string) {
    && |s| == 10 && s[4] == '-' && s[7] == '-'
    && InRange(s[..4], 1, 9999) && InRange(s[5..7], 1, 12)
    && InRange(s[8..], 1, DaysIn(DigitsValue(s[..4]), DigitsValue(s[5..7])))
  }

  predicate IsClockTime(s: string) {
    && |s| == 8 && s[2] == ':' && s[5] == ':'
    && InRange(s[..2], 0, 23) && InRange(s[3..5], 0, 59) && InRange(s[6..], 0, 59)
  }

  /** A moment in UTC as the records write it: microseconds are left out when they are zero. */
  predicate IsTimestamp(s: string) {
    && (|s| == 20 || |s| == 27) && s[10] == 'T' && s[|s| - 1] == 'Z'
    && IsDate(s[..10]) && IsClockTime(s[11..19])
    && (|s| == 27 ==> s[19] == '.' && InRange(s[20..26], 1, 999999))
  }

  const EPOCH: string := "1970-01-01T00:00:00Z"

  lemma EpochNumbers()
    ensures InRange("1970", 1, 9999) && InRange("01", 1, 12) && DigitsValue("01") == 1
  {
    assert "1970"[..3] == "197" && "197"[..2] == "19" && "19"[..1] == "1" && "1"[..0] == "";
    assert "01"[..1] == "0" && "0"[..0] == "";
  }

  lemma EpochDate()
    ensures IsDate("1970-01-01")
  {
    EpochNumbers();
    hide DigitsValue;
    var s := "1970-01-01";
    assert s[..4] == "1970";
    assert s[5..7] == "01";
    assert s[8..] == "01";
  }

  lemma EpochClock()
    ensures IsClockTime("00:00:00")
  {
    var s := "00:00:00";
    assert s[..2] == "00" && s[3..5] == "00" && s[6..] == "00";
    assert "00"[..1] == "0" && "0"[..0] == "";
  }

  lemma EpochIsTimestamp()
    ensures IsTimestamp(EPOCH)
  {
    hide IsDate;
    hide IsClockTime;
    assert EPOCH[..10] == "1970-01-01" && EPOCH[11..19] == "00:00:00";
    EpochDate();
    EpochClock();
  }

  /** `utc_now()`. */
  type Timestamp = s: string | IsTimestamp(s) witness (EpochIsTimestamp(); EPOCH)

  // ----- receipts and attempts

  /** No file of an operating system is this long. */
  const FILE_LIMIT: nat := 0x8000_0000_0000_0000

  /** `PracticeReceipt`; an archived path always starts with "cases/" and so is not blank. */
  predicate ValidReceipt(r: Receipt) {
    && ValidReceiptId(r.id) && NonBlankText(r.sourcePath) && IsDigest(r.sha256)
    && 0 < r.byteSize < FILE_LIMIT && IsTimestamp(r.capturedAt)
  }

  /** `validate_outcome_evidence`: a pass has a receipt, a needs-work attempt a note that is not blank. */
  predicate HasGrounds(outcome: Outcome, hasReceipt: bool, note: Option<string>) {
    match outcome
    case Pass => hasReceipt
    case NeedsWork => note.Some? && Strip(note.value) != ""
  }

  /** `PracticeAttempt`. */
  predicate ValidAttempt(a: Attempt) {
    && ValidCaseId(a.caseId) && IsTimestamp(a.createdAt) && HasGrounds(a.outcome, a.receipt.Some?, a.note)
    && (a.receipt.Some? ==> ValidReceipt(a.receipt.value))
  }
}
