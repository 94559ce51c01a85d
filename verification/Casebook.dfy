/** `CasebookStore` of src/soloscale/casebook_store.py: cases published whole, attempts appended to a
    log, receipts archived by digest, each step under arbitrary operating-system failures. */
module Casebook {
  import opened Wrappers
  import opened PyText
  import opened Utf8
  import opened Sorting
  import opened CaseModels
  import opened Mastery
  import opened AttemptLog
  import opened Archive

  datatype StoreError = InvalidCaseId | DuplicateCase | CaseNotFound | InvalidReceiptSource | MissingReceipt
    | MissingNote | SkippedStage | LogUnreadable | InvalidRecord | AppendFailed

  /** The texts of a learning case that must not be blank. */
  datatype Narrative = Narrative(title: string, project: string, problem: string, expected: string, actual: string,
                                 rootCause: string, resolution: string, verification: seq<string>, concepts: seq<string>)

  /** What case.json holds: the narrative and the evidence receipts. */
  datatype LearningCase = LearningCase(id: string, narrative: Narrative, evidence: seq<Receipt>)

  /** The directory of a published case. */
  datatype CaseDir = CaseDir(record: LearningCase, evidence: Directory, practice: Directory, log: Bytes)

  type FileBytes = b: Bytes | |b| < FILE_LIMIT witness []

  /** A file to archive; None when it cannot be read. */
  datatype Source = Source(path: string, content: Option<FileBytes>)

  datatype WriteResult = Raised | Wrote(n: int)

  /** What goes wrong during one operation: copying the k-th source, validating the record, opening the
      log, the result of the k-th `os.write`, `fsync`, closing, and refreshing the packet. */
  datatype Faults = Faults(copy: nat -> bool, record: bool, open: bool, write: nat -> WriteResult, sync: bool, close: bool, packet: bool)

  ghost predicate NoFaults(f: Faults) {
    !f.record && !f.open && !f.sync && (forall k: nat :: !f.copy(k)) && forall k: nat :: f.write(k).Wrote? && f.write(k).n > 0
  }

  /** An attempt as committed, the mastery it leads to, and what was not done after the commit. */
  datatype Recorded = Recorded(attempt: Attempt, mastery: Snapshot, packetRefreshed: bool, closeWarning: bool)

  datatype Scope = EvidenceScope | PracticeScope

  datatype Problem = Missing | SizeMismatch | DigestMismatch

  datatype Failure = Failure(scope: Scope, receiptId: string, problem: Problem)

  // ----- what a learning case must hold

  predicate NonBlankTexts(texts: seq<string>) {
    texts != [] && forall k :: 0 <= k < |texts| ==> NonBlankText(texts[k])
  }

  predicate ValidNarrative(n: Narrative) {
    && NonBlankTexts([n.title, n.project, n.problem, n.expected, n.actual, n.rootCause, n.resolution])
    && NonBlankTexts(n.verification) && NonBlankTexts(n.concepts)
  }

  // ----- receipts and their verification

  function ReadableSource(s: Source): (b: bool) {
    s.content.Some? && s.content.value != []
  }

  function FileAt(dirs: map<string, CaseDir>, path: Path): (content: Option<Bytes>) {
    if path.caseId !in dirs then None
    else
      var dir := dirs[path.caseId];
      match path
      case Evidence(_, name) => if name in dir.evidence then Some(dir.evidence[name]) else None
      case Practice(_, name) => if name in dir.practice then Some(dir.practice[name]) else None
      case Log(_) => Some(dir.log)
  }

  function VerifyReceipt(hash: Hash, dirs: map<string, CaseDir>, r: Receipt): (p: Option<Problem>) {
    var content := FileAt(dirs, r.archived);
    if content.None? then Some(Missing)
    else if |content.value| != r.byteSize then Some(SizeMismatch)
    else if hash(content.value) != r.sha256 then Some(DigestMismatch)
    else None
  }

  /** The failures of the first i receipts. */
  function FailuresOf(hash: Hash, dirs: map<string, CaseDir>, scope: Scope, receipts: seq<Receipt>, i: nat): (r: seq<Failure>)
    requires i <= |receipts|
  {
    if i == 0 then []
    else
      var problem := VerifyReceipt(hash, dirs, receipts[i - 1]);
      FailuresOf(hash, dirs, scope, receipts, i - 1)
      + if problem.Some? then [Failure(scope, receipts[i - 1].id, problem.value)] else []
  }

  function ReceiptsOf(attempts: seq<Attempt>): (r: seq<Receipt>) {
    if attempts == [] then []
    else (if attempts[0].receipt.Some? then [attempts[0].receipt.value] else []) + ReceiptsOf(attempts[1..])
  }

  /** The receipts are those of the attempts at these positions, in order. */
  ghost predicate AreReceiptsAt(attempts: seq<Attempt>, receipts: seq<Receipt>, at: seq<nat>) {
    && |at| == |receipts| && (forall j, k :: 0 <= j < k < |at| ==> at[j] < at[k])
    && forall j :: 0 <= j < |at| ==> at[j] < |attempts| && attempts[at[j]].receipt == Some(receipts[j])
  }

  lemma {:induction false} LastReceipt(attempts: seq<Attempt>)
    requires attempts != []
    ensures var n := |attempts| - 1;
            ReceiptsOf(attempts) == ReceiptsOf(attempts[..n]) + if attempts[n].receipt.Some? then [attempts[n].receipt.value] else []
  {
    var n := |attempts| - 1;
    if n > 0 {
      LastReceipt(attempts[1..]);
      assert attempts[1..][..n - 1] == attempts[..n][1..];
    } else {
      assert attempts[1..] == [];
    }
  }

  /** The receipts are those of the attempts that have one, each once, in order. */
  lemma {:induction false} ReceiptsAreTheAttempts(attempts: seq<Attempt>) returns (at: seq<nat>)
    ensures AreReceiptsAt(attempts, ReceiptsOf(attempts), at)
    ensures forall k :: k in at <==> 0 <= k < |attempts| && attempts[k].receipt.Some?
  {
    if attempts == [] {
      at := [];
    } else {
      var n := |attempts| - 1;
      LastReceipt(attempts);
      at := ReceiptsAreTheAttempts(attempts[..n]);
      assert forall j :: 0 <= j < |at| ==> at[j] in at;
      assert AreReceiptsAt(attempts, ReceiptsOf(attempts[..n]), at);
      if attempts[n].receipt.Some? { at := at + [n]; }
    }
  }

  /** The archived file of the receipt holds content of its digest and size. */
  predicate Sound(hash: Hash, dirs: map<string, CaseDir>, r: Receipt) {
    var content := FileAt(dirs, r.archived);
    content.Some? && hash(content.value) == r.sha256 && |content.value| == r.byteSize
  }

  /** No failure is reported exactly when every receipt is sound. */
  lemma {:induction false} NoFailuresIffSound(hash: Hash, dirs: map<string, CaseDir>, scope: Scope, receipts: seq<Receipt>, i: nat)
    requires i <= |receipts|
    ensures FailuresOf(hash, dirs, scope, receipts, i) == [] <==> forall k :: 0 <= k < i ==> Sound(hash, dirs, receipts[k])
  {
    if i > 0 {
      NoFailuresIffSound(hash, dirs, scope, receipts, i - 1);
    }
  }

  /** What a report of this problem says about the receipt's file. */
  ghost predicate HasProblem(hash: Hash, dirs: map<string, CaseDir>, r: Receipt, problem: Problem) {
    var content := FileAt(dirs, r.archived);
    match problem
    case Missing => content.None?
    case SizeMismatch => content.Some? && |content.value| != r.byteSize
    case DigestMismatch => content.Some? && |content.value| == r.byteSize && hash(content.value) != r.sha256
  }

  /** The failures are about the receipts at these positions, in order, each with a problem it has. */
  ghost predicate Reports(hash: Hash, dirs: map<string, CaseDir>, scope: Scope, receipts: seq<Receipt>, failures: seq<Failure>, at: seq<nat>) {
    && |at| == |failures| && (forall j, k :: 0 <= j < k < |at| ==> at[j] < at[k])
    && forall j :: 0 <= j < |at| ==>
         && at[j] < |receipts| && failures[j].scope == scope && failures[j].receiptId == receipts[at[j]].id
         && HasProblem(hash, dirs, receipts[at[j]], failures[j].problem)
  }

  /** The report names the receipts that are not sound, all of them, in order, and what is wrong with
      each. */
  lemma {:induction false} FailuresAreReported(hash: Hash, dirs: map<string, CaseDir>, scope: Scope, receipts: seq<Receipt>, i: nat)
    returns (at: seq<nat>)
    requires i <= |receipts|
    ensures Reports(hash, dirs, scope, receipts, FailuresOf(hash, dirs, scope, receipts, i), at)
    ensures forall k :: k in at <==> 0 <= k < i && !Sound(hash, dirs, receipts[k])
  {
    hide VerifyReceipt;
    hide Sound;
    if i == 0 {
      at := [];
    } else {
      at := FailuresAreReported(hash, dirs, scope, receipts, i - 1);
      var problem := VerifyReceipt(hash, dirs, receipts[i - 1]);
      ProblemIsReal(hash, dirs, receipts[i - 1]);
      if problem.Some? {
        ReportsMore(hash, dirs, scope, receipts, FailuresOf(hash, dirs, scope, receipts, i - 1), at, i - 1, problem.value);
        at := at + [i - 1];
      }
    }
  }

  lemma ProblemIsReal(hash: Hash, dirs: map<string, CaseDir>, r: Receipt)
    ensures var problem := VerifyReceipt(hash, dirs, r);
            && (problem.None? <==> Sound(hash, dirs, r)) && (problem.Some? ==> HasProblem(hash, dirs, r, problem.value))
  {
    hide FileAt;
  }

  lemma ReportsMore(hash: Hash, dirs: map<string, CaseDir>, scope: Scope, receipts: seq<Receipt>, failures: seq<Failure>, at: seq<nat>,
                    k: nat, problem: Problem)
    requires Reports(hash, dirs, scope, receipts, failures, at) && k < |receipts| && forall j :: j in at ==> j < k
    requires HasProblem(hash, dirs, receipts[k], problem)
    ensures Reports(hash, dirs, scope, receipts, failures + [Failure(scope, receipts[k].id, problem)], at + [k])
  {
    hide HasProblem;
    assert forall j :: 0 <= j < |at| ==> at[j] in at;
  }

  // ----- the invariant, case by case

  /** The receipt's file is in the directory, under its name, with its digest and size. */
  predicate InDirectory(hash: Hash, dir: Directory, r: Receipt) {
    !r.archived.Log? && HoldsContent(hash, dir, Archived(r.sha256, r.byteSize, r.archived.name, false))
  }

  /** A committed attempt: valid, of this case, and its receipt's file in the practice directory. */
  predicate GoodAttempt(hash: Hash, id: string, practice: Directory, a: Attempt) {
    && a.caseId == id && ValidAttempt(a)
    && (a.receipt.Some? ==> a.receipt.value.archived.Practice? && a.receipt.value.archived.caseId == id
                            && InDirectory(hash, practice, a.receipt.value) && PlainPath(a.receipt.value.archived))
  }

  predicate GoodAttempts(hash: Hash, id: string, practice: Directory, log: seq<Attempt>) {
    forall k :: 0 <= k < |log| ==> GoodAttempt(hash, id, practice, log[k])
  }

  predicate GoodEvidence(hash: Hash, id: string, evidence: Directory, receipts: seq<Receipt>) {
    forall k :: 0 <= k < |receipts| ==>
      && receipts[k].archived.Evidence? && receipts[k].archived.caseId == id && ValidReceipt(receipts[k])
      && InDirectory(hash, evidence, receipts[k])
  }

  /** The log file is exactly the committed attempts, gated; every receipt has its file. */
  ghost predicate GoodCase(hash: Hash, id: string, dir: CaseDir, log: seq<Attempt>) {
    && ValidCaseId(id) && dir.record.id == id
    && dir.log == Encode(LogText(log)) && GatedLog(log)
    && GoodAttempts(hash, id, dir.practice, log)
    && GoodEvidence(hash, id, dir.evidence, dir.record.evidence)
  }

  lemma GoodLogIsRecordable(hash: Hash, id: string, practice: Directory, log: seq<Attempt>)
    requires GoodAttempts(hash, id, practice, log)
    ensures RecordableLog(log) && forall k :: 0 <= k < |log| ==> log[k].caseId == id
  {
    hide InDirectory;
    hide PlainPath;
  }

  lemma {:induction false} ReceiptsAreSound(hash: Hash, id: string, dirs: map<string, CaseDir>, log: seq<Attempt>)
    requires id in dirs && GoodAttempts(hash, id, dirs[id].practice, log)
    ensures forall k :: 0 <= k < |ReceiptsOf(log)| ==> Sound(hash, dirs, ReceiptsOf(log)[k])
  {
    if log != [] {
      assert GoodAttempt(hash, id, dirs[id].practice, log[0]);
      forall k | 0 <= k < |log[1..]| ensures GoodAttempt(hash, id, dirs[id].practice, log[1..][k]) { assert log[1..][k] == log[k + 1]; }
      ReceiptsAreSound(hash, id, dirs, log[1..]);
    }
  }

  lemma EvidenceIsSound(hash: Hash, id: string, dirs: map<string, CaseDir>, receipts: seq<Receipt>)
    requires id in dirs && GoodEvidence(hash, id, dirs[id].evidence, receipts)
    ensures forall k :: 0 <= k < |receipts| ==> Sound(hash, dirs, receipts[k])
  {
  }

  predicate AllSound(hash: Hash, dirs: map<string, CaseDir>, receipts: seq<Receipt>) {
    forall k :: 0 <= k < |receipts| ==> Sound(hash, dirs, receipts[k])
  }

  /** In a good case every receipt, of the evidence and in the log, is sound. */
  lemma GoodCaseIsSound(hash: Hash, id: string, dirs: map<string, CaseDir>, log: seq<Attempt>)
    requires id in dirs && GoodCase(hash, id, dirs[id], log)
    ensures AllSound(hash, dirs, dirs[id].record.evidence) && AllSound(hash, dirs, ReceiptsOf(log))
  {
    hide GoodAttempts;
    hide GoodEvidence;
    hide Sound;
    ReceiptsAreSound(hash, id, dirs, log);
    EvidenceIsSound(hash, id, dirs, dirs[id].record.evidence);
  }

  // ----- a failed attempt undone

  /** A new file never has the name of one an earlier receipt uses, and earlier receipts keep their
      files when it is added. */
  lemma NewFileKeepsReceipts(hash: Hash, id: string, practice: Directory, name: string, content: Bytes, log: seq<Attempt>)
    requires GoodAttempts(hash, id, practice, log) && name !in practice
    ensures GoodAttempts(hash, id, practice[name := content], log)
    ensures forall k :: 0 <= k < |log| && log[k].receipt.Some? ==> log[k].receipt.value.archived != Practice(id, name)
  {
    var more := practice[name := content];
    forall k | 0 <= k < |log| ensures GoodAttempt(hash, id, more, log[k]) {
      assert GoodAttempt(hash, id, practice, log[k]);
    }
  }

  lemma LogSnoc(log: seq<Attempt>, a: Attempt)
    ensures Encode(LogText(log + [a])) == Encode(LogText(log)) + Encode(AttemptJson(a) + "\n")
  {
    assert (log + [a])[..|log|] == log;
    EncodeAppend(LogText(log), AttemptJson(a) + "\n");
  }

  /** Committing a good attempt that passes the gate keeps the case good. */
  lemma CommitKeepsGood(hash: Hash, id: string, dir: CaseDir, log: seq<Attempt>, practice: Directory, a: Attempt)
    requires GoodCase(hash, id, dir, log) && GoodAttempts(hash, id, practice, log) && GoodAttempt(hash, id, practice, a)
    requires a.outcome == Pass ==> MissingPrerequisites(SnapshotOf(id, ResultsOf(log)), a.stage) == []
    ensures GoodCase(hash, id, dir.(practice := practice, log := dir.log + Encode(AttemptJson(a) + "\n")), log + [a])
  {
    hide GoodAttempt;
    hide GatedLog;
    hide MissingPrerequisites;
    hide SnapshotOf;
    hide ResultsOf;
    hide AttemptJson;
    hide LogText;
    hide GoodEvidence;
    hide ValidCaseId;
    LogSnoc(log, a);
    GatedSnoc(id, log, a);
  }

  // ----- evidence

  /** `hexdigest` of SHA-256. */
  ghost predicate HexDigests(hash: Hash) {
    forall b: Bytes :: IsDigest(hash(b))
  }

  function EvidenceId(token: Token): (id: string) {
    "evidence-" + token
  }

  function EvidenceIds(tokens: seq<Token>): (ids: seq<string>) {
    seq(|tokens|, k requires 0 <= k < |tokens| => EvidenceId(tokens[k]))
  }

  lemma EvidenceIdsDiffer(tokens: seq<Token>)
    ensures Distinct(EvidenceIds(tokens)) <==> Distinct(tokens)
  {
    var ids := EvidenceIds(tokens);
    if Distinct(tokens) {
      forall i, j | 0 <= i < j < |ids| ensures ids[i] != ids[j] {
        if ids[i] == ids[j] { Cancel("evidence-", tokens[i], tokens[j]); }
      }
    }
    if Distinct(ids) {
      forall i, j | 0 <= i < j < |tokens| ensures tokens[i] != tokens[j] { assert ids[i] != ids[j]; }
    }
  }

  /** The receipts of the first sources, in order, with their digests and sizes. */
  predicate DescribesSources(hash: Hash, sources: seq<Source>, tokens: seq<Token>, now: Timestamp, receipts: seq<Receipt>) {
    |receipts| <= |sources| == |tokens| && forall k :: 0 <= k < |receipts| ==>
      ReadableSource(sources[k]) && receipts[k].id == EvidenceId(tokens[k]) && receipts[k].capturedAt == now
      && receipts[k].sourcePath == sources[k].path
      && receipts[k].sha256 == hash(sources[k].content.value) && receipts[k].byteSize == |sources[k].content.value|
  }

  /** Of what the store puts into a receipt, only the source's path can be invalid: it can be blank.  A
      path with bytes that are no text, which fails in the same way, is outside this model of text. */
  lemma ReceiptValidIff(hash: Hash, r: Receipt, source: Source, prefix: string, token: Token, now: Timestamp)
    requires HexDigests(hash) && ReadableSource(source) && (prefix == "evidence-" || prefix == "practice-")
    requires r == Receipt(prefix + token, source.path, r.archived, hash(source.content.value), |source.content.value|, now)
    ensures ValidReceipt(r) <==> NonBlankText(source.path)
  {
    hide IsTimestamp;
    hide ValidReceiptId;
    TokenMakesReceiptId(prefix, token);
  }

  lemma CaseIdHasNoSlash(id: string)
    requires ValidCaseId(id)
    ensures '/' !in id
  {
  }

  lemma DigestHasNoSlash(hash: Hash, content: Bytes)
    requires HexDigests(hash)
    ensures '/' !in hash(content)
  {
    assert IsDigest(hash(content));
  }

  function ArchivedPaths(receipts: seq<Receipt>): (paths: seq<Path>) {
    seq(|receipts|, k requires 0 <= k < |receipts| => receipts[k].archived)
  }

  lemma NewEvidence(hash: Hash, id: string, dir: Directory, receipts: seq<Receipt>, r: Receipt, content: Bytes)
    requires GoodEvidence(hash, id, dir, receipts) && Distinct(ArchivedPaths(receipts))
    requires r.archived.Evidence? && r.archived.caseId == id && r.archived.name !in dir
    requires r.sha256 == hash(content) && r.byteSize == |content| && ValidReceipt(r)
    ensures GoodEvidence(hash, id, dir[r.archived.name := content], receipts + [r])
    ensures Distinct(ArchivedPaths(receipts + [r]))
  {
    var more := receipts + [r];
    forall k | 0 <= k < |receipts| ensures more[k].archived != r.archived {
      assert InDirectory(hash, dir, receipts[k]);
    }
    forall i, j | 0 <= i < j < |more| ensures ArchivedPaths(more)[i] != ArchivedPaths(more)[j] {
      if j < |receipts| { assert ArchivedPaths(receipts)[i] != ArchivedPaths(receipts)[j]; }
    }
  }

  predicate AllReadable(sources: seq<Source>) {
    forall k :: 0 <= k < |sources| ==> ReadableSource(sources[k])
  }

  predicate HasBlankPath(sources: seq<Source>) {
    exists k :: 0 <= k < |sources| && !NonBlankText(sources[k].path)
  }

  ghost predicate CopyStops(faults: Faults, n: nat) {
    exists k: nat :: k < n && faults.copy(k)
  }

  /** What must be so for `create_case` to fail with this error. */
  ghost predicate PreventsCase(e: StoreError, dirs: map<string, CaseDir>, id: string, narrative: Narrative, sources: seq<Source>,
                               tokens: seq<Token>, faults: Faults) {
    match e
    case InvalidCaseId => !ValidCaseId(id)
    case DuplicateCase => ValidCaseId(id) && id in dirs
    case InvalidReceiptSource => ValidCaseId(id) && id !in dirs && (!AllReadable(sources) || CopyStops(faults, |sources|))
    case InvalidRecord =>
      && ValidCaseId(id) && id !in dirs && AllReadable(sources)
      && (sources == [] || HasBlankPath(sources) || !Distinct(tokens) || !ValidNarrative(narrative) || faults.record)
    case _ => false
  }

  // ----- recording

  /** The attempt asked for: its note stripped, its receipt describing the source. */
  predicate IsRequested(hash: Hash, a: Attempt, id: string, stage: Stage, outcome: Outcome, source: Option<Source>,
                        note: Option<string>, token: Token, now: Timestamp) {
    && a.caseId == id && a.stage == stage && a.outcome == outcome && a.createdAt == now
    && a.note == (if note.Some? then Some(Strip(note.value)) else None)
    && (a.receipt.Some? <==> source.Some?)
    && (source.Some? ==> Describes(hash, a.receipt.value, source.value, token, now))
  }

  function PracticeId(token: Token): (id: string) {
    "practice-" + token
  }

  predicate Describes(hash: Hash, r: Receipt, source: Source, token: Token, now: Timestamp) {
    && r.id == PracticeId(token) && r.capturedAt == now && r.sourcePath == source.path && ReadableSource(source)
    && r.sha256 == hash(source.content.value) && r.byteSize == |source.content.value|
  }

  /** A pass has a source and skips no stage, a needs-work attempt has a note, a source can be read and is
      not empty. */
  predicate Acceptable(log: seq<Attempt>, id: string, stage: Stage, outcome: Outcome, source: Option<Source>, note: Option<string>) {
    && HasGrounds(outcome, source.Some?, note)
    && (outcome == Pass ==> MissingPrerequisites(SnapshotOf(id, ResultsOf(log)), stage) == [])
    && (source.Some? ==> ReadableSource(source.value))
  }

  /** What must be so for `record_attempt` to refuse a request with this error: of several faults, the
      missing receipt or note comes first and the source last. */
  ghost predicate Refuses(e: StoreError, log: seq<Attempt>, stage: Stage, outcome: Outcome, source: Option<Source>, note: Option<string>) {
    match e
    case MissingReceipt => outcome == Pass && source.None?
    case SkippedStage => outcome == Pass && source.Some? && !EarlierStagesPassed(log, stage)
    case MissingNote => outcome == NeedsWork && (note.Some? ==> Strip(note.value) == "")
    case InvalidReceiptSource =>
      && source.Some? && !ReadableSource(source.value)
      && (if outcome == Pass then EarlierStagesPassed(log, stage) else note.Some? && Strip(note.value) != "")
    case _ => false
  }

  /** A request that is not acceptable is refused for exactly one reason. */
  lemma RefusedForOneReason(log: seq<Attempt>, id: string, stage: Stage, outcome: Outcome, source: Option<Source>, note: Option<string>)
    ensures !Acceptable(log, id, stage, outcome, source, note) <==> exists e :: Refuses(e, log, stage, outcome, source, note)
    ensures forall e, f :: Refuses(e, log, stage, outcome, source, note) && Refuses(f, log, stage, outcome, source, note) ==> e == f
  {
    GateMeaning(id, log, stage);
    hide MissingPrerequisites;
    hide SnapshotOf;
    hide ResultsOf;
    hide EarlierStagesPassed;
    hide ReadableSource;
    hide Strip;
    assert Acceptable(log, id, stage, outcome, source, note) ==> forall e :: !Refuses(e, log, stage, outcome, source, note);
    if !Acceptable(log, id, stage, outcome, source, note) {
      assert Refuses(MissingReceipt, log, stage, outcome, source, note) || Refuses(SkippedStage, log, stage, outcome, source, note)
          || Refuses(MissingNote, log, stage, outcome, source, note) || Refuses(InvalidReceiptSource, log, stage, outcome, source, note);
    }
  }

  /** What must be so for `record_attempt` to fail with this error before it touches a file. */
  ghost predicate TurnsDown(e: StoreError, committed: map<string, seq<Attempt>>, id: string, stage: Stage, outcome: Outcome,
                            source: Option<Source>, note: Option<string>) {
    match e
    case InvalidCaseId => !ValidCaseId(id)
    case CaseNotFound => ValidCaseId(id) && id !in committed
    case LogUnreadable => ValidCaseId(id) && id in committed && !CleanLog(committed[id])
    case _ => ValidCaseId(id) && id in committed && CleanLog(committed[id]) && Refuses(e, committed[id], stage, outcome, source, note)
  }

  ghost predicate TurnedDown(committed: map<string, seq<Attempt>>, id: string, stage: Stage, outcome: Outcome,
                             source: Option<Source>, note: Option<string>) {
    exists e :: TurnsDown(e, committed, id, stage, outcome, source, note)
  }

  /** The failures after that, one for each place where the operating system or a validator can stop it. */
  ghost predicate StopsStoring(e: StoreError, source: Option<Source>, faults: Faults) {
    match e
    case InvalidReceiptSource => source.Some? && faults.copy(0)
    case InvalidRecord => faults.record || (source.Some? && !NonBlankText(source.value.path))
    case AppendFailed => AppendStops(faults)
    case _ => false
  }

  ghost predicate AppendStops(f: Faults) {
    f.open || f.sync || exists k :: f.write(k).Raised? || f.write(k).n <= 0
  }

  /** A request is turned down for exactly one reason, or it is acceptable and its case's log can be
      read. */
  lemma TurnedDownForOneReason(committed: map<string, seq<Attempt>>, id: string, stage: Stage, outcome: Outcome,
                               source: Option<Source>, note: Option<string>)
    ensures TurnedDown(committed, id, stage, outcome, source, note) <==>
              !(ValidCaseId(id) && id in committed && CleanLog(committed[id]) && Acceptable(committed[id], id, stage, outcome, source, note))
    ensures forall e, f :: (TurnsDown(e, committed, id, stage, outcome, source, note)
                            && TurnsDown(f, committed, id, stage, outcome, source, note)) ==> e == f
  {
    hide ValidCaseId;
    hide CleanLog;
    hide Acceptable;
    if ValidCaseId(id) && id in committed && CleanLog(committed[id]) {
      var log := committed[id];
      RefusedForOneReason(log, id, stage, outcome, source, note);
      NeverRefusal(log, stage, outcome, source, note);
      hide Refuses;
      forall e ensures TurnsDown(e, committed, id, stage, outcome, source, note) <==> Refuses(e, log, stage, outcome, source, note) { }
    } else {
      var e := if !ValidCaseId(id) then InvalidCaseId else if id !in committed then CaseNotFound else LogUnreadable;
      assert TurnsDown(e, committed, id, stage, outcome, source, note);
    }
  }

  lemma LoadErrorTurnsDown(committed: map<string, seq<Attempt>>, id: string, stage: Stage, outcome: Outcome,
                           source: Option<Source>, note: Option<string>)
    requires !(ValidCaseId(id) && id in committed && CleanLog(committed[id]))
    ensures var e := if !ValidCaseId(id) then InvalidCaseId else if id !in committed then CaseNotFound else LogUnreadable;
            TurnsDown(e, committed, id, stage, outcome, source, note)
  {
  }

  lemma RefusalTurnsDown(e: StoreError, committed: map<string, seq<Attempt>>, id: string, stage: Stage, outcome: Outcome,
                         source: Option<Source>, note: Option<string>)
    requires ValidCaseId(id) && id in committed && CleanLog(committed[id])
    requires Refuses(e, committed[id], stage, outcome, source, if note.Some? then Some(Strip(note.value)) else None)
    ensures TurnsDown(e, committed, id, stage, outcome, source, note) && TurnedDown(committed, id, stage, outcome, source, note)
    ensures !Acceptable(committed[id], id, stage, outcome, source, note)
  {
    hide ValidCaseId;
    hide CleanLog;
    hide Acceptable;
    AcceptableStripped(committed[id], id, stage, outcome, source, note);
    assert Refuses(e, committed[id], stage, outcome, source, note);
    hide Refuses;
    NeverRefusal(committed[id], stage, outcome, source, note);
    RefusedForOneReason(committed[id], id, stage, outcome, source, note);
  }

  lemma NeverRefusal(log: seq<Attempt>, stage: Stage, outcome: Outcome, source: Option<Source>, note: Option<string>)
    ensures !Refuses(InvalidCaseId, log, stage, outcome, source, note) && !Refuses(CaseNotFound, log, stage, outcome, source, note)
         && !Refuses(LogUnreadable, log, stage, outcome, source, note)
  {
  }

  lemma GateMeaning(id: string, log: seq<Attempt>, stage: Stage)
    ensures MissingPrerequisites(SnapshotOf(id, ResultsOf(log)), stage) == [] <==> EarlierStagesPassed(log, stage)
  {
    MissingCorrect(ResultsOf(log), stage, 0);
  }

  /** Only the case's log grows, by appending, and its practice directory, by new files. */
  ghost predicate OnlyAdds(before: map<string, CaseDir>, after: map<string, CaseDir>, id: string)
    requires id in before
  {
    && id in after && after == before[id := after[id]]
    && after[id].record == before[id].record && after[id].evidence == before[id].evidence
    && before[id].log <= after[id].log
    && forall name :: name in before[id].practice ==> name in after[id].practice && after[id].practice[name] == before[id].practice[name]
  }

  predicate AllOf(attempts: seq<Attempt>, id: string) {
    forall k :: 0 <= k < |attempts| ==> attempts[k].caseId == id
  }

  /** Reading the log of a good case gives the committed attempts, exactly when all of them are clean. */
  lemma ReadCommitted(hash: Hash, read: Reader, id: string, dir: CaseDir, log: seq<Attempt>)
    requires GoodCase(hash, id, dir, log) && ReadsBack(read) && RejectsCutRecords(read)
    ensures ReadLog(read, dir.log) == if CleanLog(log) then Some(log) else None
    ensures AllOf(log, id)
  {
    hide ReadsBack;
    hide RejectsCutRecords;
    hide GatedLog;
    hide GoodAttempts;
    hide GoodEvidence;
    hide CleanLog;
    hide ReadLog;
    hide LogText;
    GoodLogIsRecordable(hash, id, dir.practice, log);
    ReplayIff(read, log);
  }

  /** The receipt's file is in the directory, which is as before or has this one file more. */
  predicate Stored(hash: Hash, id: string, before: Directory, after: Directory, r: Receipt) {
    && r.archived.Practice? && r.archived.caseId == id && PlainPath(r.archived) && InDirectory(hash, after, r)
    && (after == before || (r.archived.name !in before && after == before[r.archived.name := after[r.archived.name]]))
  }

  /** Committing the requested attempt after its receipt was stored keeps the case good. */
  lemma RecordedIsGood(hash: Hash, id: string, dir: CaseDir, log: seq<Attempt>, practice: Directory, a: Attempt)
    requires GoodCase(hash, id, dir, log)
    requires a.caseId == id && ValidAttempt(a)
    requires if a.receipt.Some? then Stored(hash, id, dir.practice, practice, a.receipt.value) else practice == dir.practice
    requires a.outcome == Pass ==> MissingPrerequisites(SnapshotOf(id, ResultsOf(log)), a.stage) == []
    ensures GoodCase(hash, id, dir.(practice := practice, log := dir.log + Encode(AttemptJson(a) + "\n")), log + [a])
  {
    hide MissingPrerequisites;
    hide SnapshotOf;
    hide ResultsOf;
    hide AttemptJson;
    hide GatedLog;
    hide LogText;
    hide ValidAttempt;
    hide ValidCaseId;
    if practice != dir.practice {
      var name := a.receipt.value.archived.name;
      NewFileKeepsReceipts(hash, id, dir.practice, name, practice[name], log);
    }
    CommitKeepsGood(hash, id, dir, log, practice, a);
  }

  lemma GrowthOnlyAdds(before: map<string, CaseDir>, after: map<string, CaseDir>, id: string, a: Attempt)
    requires id in before && id in after
    requires after == before[id := before[id].(practice := after[id].practice, log := before[id].log + Encode(AttemptJson(a) + "\n"))]
    requires forall name :: name in before[id].practice ==> name in after[id].practice && after[id].practice[name] == before[id].practice[name]
    ensures OnlyAdds(before, after, id)
  {
    hide AttemptJson;
    hide Encode;
  }

  /** The checks of `record_attempt` before it touches any file. */
  method CheckRequest(attempts: seq<Attempt>, id: string, stage: Stage, outcome: Outcome, source: Option<Source>, normalizedNote: Option<string>)
    returns (refusal: Option<StoreError>)
    requires AllOf(attempts, id)
    requires normalizedNote.Some? ==> Strip(normalizedNote.value) == normalizedNote.value
    ensures refusal.None? <==> Acceptable(attempts, id, stage, outcome, source, normalizedNote)
    ensures refusal.Some? ==> Refuses(refusal.value, attempts, stage, outcome, source, normalizedNote)
  {
    GateMeaning(id, attempts, stage);
    hide MissingPrerequisites;
    hide SnapshotOf;
    hide ResultsOf;
    hide EarlierStagesPassed;
    hide ReadableSource;
    if outcome == Pass {
      if source.None? {
        return Some(MissingReceipt);
      }
      var latest := DeriveMastery(id, attempts);
      if MissingPrerequisites(latest.value, stage) != [] {
        return Some(SkippedStage);
      }
    } else if normalizedNote.None? || normalizedNote.value == "" {
      return Some(MissingNote);
    }
    if source.Some? && !ReadableSource(source.value) {
      return Some(InvalidReceiptSource);
    }
    return None;
  }

  ghost predicate AllGood(hash: Hash, dirs: map<string, CaseDir>, committed: map<string, seq<Attempt>>) {
    dirs.Keys == committed.Keys && forall id :: id in dirs ==> GoodCase(hash, id, dirs[id], committed[id])
  }

  lemma GoodCases(hash: Hash, dirs: map<string, CaseDir>, committed: map<string, seq<Attempt>>)
    requires AllGood(hash, dirs, committed)
    ensures dirs.Keys == committed.Keys && forall id :: id in dirs ==> ValidCaseId(id) && GoodCase(hash, id, dirs[id], committed[id])
  {
    hide ValidCaseId;
  }

  /** What storing an attempt did to the published cases: its line appended, its receipt stored. */
  ghost predicate StoredAttempt(hash: Hash, before: map<string, CaseDir>, after: map<string, CaseDir>, id: string, a: Attempt) {
    && id in before && id in after
    && after == before[id := before[id].(practice := after[id].practice, log := before[id].log + Encode(AttemptJson(a) + "\n"))]
    && OnlyAdds(before, after, id)
    && (if a.receipt.Some? then Stored(hash, id, before[id].practice, after[id].practice, a.receipt.value)
        else after[id].practice == before[id].practice)
  }

  /** Storing an acceptable attempt keeps every case good. */
  lemma StoringKeepsAllGood(hash: Hash, before: map<string, CaseDir>, after: map<string, CaseDir>,
                            committed: map<string, seq<Attempt>>, id: string, a: Attempt, source: Option<Source>)
    requires AllGood(hash, before, committed) && id in committed && StoredAttempt(hash, before, after, id, a)
    requires a.caseId == id && ValidAttempt(a)
    requires Acceptable(committed[id], id, a.stage, a.outcome, source, a.note)
    ensures AllGood(hash, after, committed[id := committed[id] + [a]])
  {
    hide ValidAttempt;
    hide HasGrounds;
    hide GoodCase;
    hide OnlyAdds;
    hide Stored;
    hide AttemptJson;
    hide Encode;
    hide MissingPrerequisites;
    hide SnapshotOf;
    hide ResultsOf;
    hide Strip;
    RecordedIsGood(hash, id, before[id], committed[id], after[id].practice, a);
  }

  lemma PublishingKeepsAllGood(hash: Hash, dirs: map<string, CaseDir>, committed: map<string, seq<Attempt>>, id: string, dir: CaseDir)
    requires AllGood(hash, dirs, committed) && id !in dirs && GoodCase(hash, id, dir, [])
    ensures AllGood(hash, dirs[id := dir], committed[id := []])
  {
    hide GoodCase;
  }

  lemma AcceptableMeans(log: seq<Attempt>, id: string, stage: Stage, outcome: Outcome, source: Option<Source>, note: Option<string>)
    requires Acceptable(log, id, stage, outcome, source, note)
    ensures HasGrounds(outcome, source.Some?, note) && (source.Some? ==> ReadableSource(source.value))
  {
  }

  /** Whether a request is acceptable does not depend on the blanks around its note. */
  lemma AcceptableStripped(log: seq<Attempt>, id: string, stage: Stage, outcome: Outcome, source: Option<Source>, note: Option<string>)
    ensures var stripped := if note.Some? then Some(Strip(note.value)) else None;
            && (Acceptable(log, id, stage, outcome, source, stripped) <==> Acceptable(log, id, stage, outcome, source, note))
            && (forall e :: Refuses(e, log, stage, outcome, source, stripped) <==> Refuses(e, log, stage, outcome, source, note))
            && (stripped.Some? ==> Strip(stripped.value) == stripped.value)
  {
    hide MissingPrerequisites;
    hide Strip;
    if note.Some? { StripIdempotent(note.value); }
  }

  // ----- a file left behind

  /** The directory has one new file, with this content. */
  ghost predicate OneFileMore(before: Directory, after: Directory, content: Bytes) {
    exists name :: name !in before && after == before[name := content]
  }

  /** The case's practice directory has one new file, and nothing else changed. */
  ghost predicate FileAdded(before: map<string, CaseDir>, after: map<string, CaseDir>, id: string, content: Bytes) {
    && id in before && id in after
    && after == before[id := before[id].(practice := after[id].practice)]
    && OneFileMore(before[id].practice, after[id].practice, content)
  }

  /** The source is archived as a new file, and then its receipt is not valid: that file stays. */
  predicate LeavesFile(hash: Hash, practice: Directory, source: Option<Source>, faults: Faults): (b: bool)
    ensures b ==> source.Some? && source.value.content.Some?
  {
    && source.Some? && ReadableSource(source.value) && !faults.copy(0) && !NonBlankText(source.value.path)
    && !HeldUnderDigest(hash, practice, source.value.content.value)
  }

  /** The request passes every check made before archiving, and then its receipt is not valid. */
  ghost predicate LeavesUnusedFile(hash: Hash, dirs: map<string, CaseDir>, log: seq<Attempt>, id: string, stage: Stage,
                                   outcome: Outcome, source: Option<Source>, note: Option<string>, faults: Faults): (b: bool)
    ensures b ==> source.Some? && source.value.content.Some?
  {
    && id in dirs && CleanLog(log) && Acceptable(log, id, stage, outcome, source, note)
    && LeavesFile(hash, dirs[id].practice, source, faults)
  }

  /** A request that is not turned down leaves an unused file exactly when archiving its source does. */
  lemma UnusedUnlessTurnedDown(hash: Hash, dirs: map<string, CaseDir>, committed: map<string, seq<Attempt>>, id: string, stage: Stage,
                               outcome: Outcome, source: Option<Source>, note: Option<string>, faults: Faults)
    requires AllGood(hash, dirs, committed)
    ensures var log := if id in committed then committed[id] else [];
            LeavesUnusedFile(hash, dirs, log, id, stage, outcome, source, note, faults) <==>
              !TurnedDown(committed, id, stage, outcome, source, note) && id in dirs && LeavesFile(hash, dirs[id].practice, source, faults)
  {
    hide Acceptable;
    hide CleanLog;
    hide ValidCaseId;
    hide LeavesFile;
    hide TurnedDown;
    hide GoodCase;
    hide AllGood;
    GoodCases(hash, dirs, committed);
    TurnedDownForOneReason(committed, id, stage, outcome, source, note);
  }

  lemma FileAddedKeepsAllGood(hash: Hash, before: map<string, CaseDir>, after: map<string, CaseDir>,
                              committed: map<string, seq<Attempt>>, id: string, content: Bytes)
    requires AllGood(hash, before, committed) && FileAdded(before, after, id, content)
    ensures AllGood(hash, after, committed)
  {
    hide GoodAttempts;
    hide GoodEvidence;
    hide GatedLog;
    hide ValidCaseId;
    hide LogText;
    hide Encode;
    var practice := before[id].practice;
    var name :| name !in practice && after[id].practice == practice[name := content];
    NewFileKeepsReceipts(hash, id, practice, name, content, committed[id]);
    assert GoodCase(hash, id, before[id], committed[id]);
    assert GoodCase(hash, id, after[id], committed[id]);
  }

  /** A first pass whose receipt is a readable file named by one blank meets every check made before
      archiving, and leaves its file behind. */
  lemma BlankPathLeavesFile(hash: Hash, id: string, content: FileBytes, faults: Faults)
    requires content != [] && !faults.copy(0)
    ensures var source := Some(Source(" ", Some(content)));
            Acceptable([], id, Explain, Pass, source, None) && LeavesFile(hash, map[], source, faults)
  {
  }

  // ----- the store

  class CasebookStore {
    const hash: Hash
    const read: Reader
    var dirs: map<string, CaseDir>
    ghost var committed: map<string, seq<Attempt>>

    ghost predicate Valid()
      reads this
    {
      && HexDigests(hash) && ReadsBack(read) && RejectsCutRecords(read)
      && AllGood(hash, dirs, committed)
    }

    constructor (hash: Hash, read: Reader)
      requires HexDigests(hash) && ReadsBack(read) && RejectsCutRecords(read)
      ensures Valid() && dirs == map[] && this.hash == hash && this.read == read
    {
      this.hash := hash;
      this.read := read;
      dirs := map[];
      committed := map[];
    }

    /** `create_case`: publishes the whole case or nothing. */
    method CreateCase(id: string, narrative: Narrative, sources: seq<Source>, tokens: seq<Token>, now: Timestamp, faults: Faults)
      returns (r: Result<LearningCase, StoreError>)
      requires Valid() && |tokens| == |sources|
      modifies this
      ensures Valid()
      ensures r.Err? ==> dirs == old(dirs) && committed == old(committed)
      ensures r.Ok? ==>
                && id !in old(dirs) && id in dirs
                && dirs == old(dirs)[id := dirs[id]] && committed == old(committed)[id := []]
                && dirs[id].record == r.value == LearningCase(id, narrative, r.value.evidence)
                && dirs[id].practice == map[] && dirs[id].log == []
                && |r.value.evidence| == |sources| && DescribesSources(hash, sources, tokens, now, r.value.evidence)
      ensures NoFaults(faults) ==>
                (r.Ok? <==> ValidCaseId(id) && id !in old(dirs) && sources != [] && Distinct(tokens) && ValidNarrative(narrative)
                            && forall k :: 0 <= k < |sources| ==> ReadableSource(sources[k]) && NonBlankText(sources[k].path))
      ensures r.Err? ==> PreventsCase(r.error, old(dirs), id, narrative, sources, tokens, faults)
    {
      hide GoodCase;
      hide HasBlankPath;
      hide CopyStops;
      hide ReadsBack;
      hide RejectsCutRecords;
      hide ValidCaseId;
      hide ValidNarrative;
      hide NonBlankText;
      hide HexDigests;
      hide DescribesSources;
      hide ReadableSource;
      if !ValidCaseId(id) {
        return Err(InvalidCaseId);
      }
      if id in dirs {
        return Err(DuplicateCase);
      }
      if exists k :: 0 <= k < |sources| && !ReadableSource(sources[k]) {
        return Err(InvalidReceiptSource);
      }
      var archived := ArchiveEvidence(id, sources, tokens, now, faults);
      if archived.Err? {
        return Err(archived.error);
      }
      var (evidence, receipts) := archived.value;
      EvidenceIdsDiffer(tokens);
      DistinctIffSetSize(EvidenceIds(tokens));
      DistinctIffSetSize(ArchivedPaths(receipts));
      if |sources| == 0 || !ValidNarrative(narrative) || |ToSet(EvidenceIds(tokens))| != |tokens|
         || |ToSet(ArchivedPaths(receipts))| != |receipts| || faults.record {
        return Err(InvalidRecord);
      }
      var record := LearningCase(id, narrative, receipts);
      EmptyCaseIsGood(hash, id, evidence, record);
      PublishingKeepsAllGood(hash, dirs, committed, id, CaseDir(record, evidence, map[], []));
      dirs := dirs[id := CaseDir(record, evidence, map[], [])];
      committed := committed[id := []];
      r := Ok(record);
    }

    /** The sources archived in a directory of their own, each with its receipt; a receipt that is not
        valid ends it, like a failing copy. */
    method ArchiveEvidence(id: string, sources: seq<Source>, tokens: seq<Token>, now: Timestamp, faults: Faults)
      returns (r: Result<(Directory, seq<Receipt>), StoreError>)
      requires HexDigests(hash) && |tokens| == |sources| && forall k :: 0 <= k < |sources| ==> ReadableSource(sources[k])
      ensures r.Ok? ==>
                && GoodEvidence(hash, id, r.value.0, r.value.1) && Distinct(ArchivedPaths(r.value.1))
                && |r.value.1| == |sources| && DescribesSources(hash, sources, tokens, now, r.value.1)
                && forall k :: 0 <= k < |sources| ==> NonBlankText(sources[k].path)
      ensures NoFaults(faults) && (forall k :: 0 <= k < |sources| ==> NonBlankText(sources[k].path)) ==> r.Ok?
      ensures r.Err? ==> if r.error == InvalidReceiptSource then CopyStops(faults, |sources|) else r.error == InvalidRecord && HasBlankPath(sources)
    {
      hide GoodEvidence;
      hide Distinct;
      hide ValidReceipt;
      hide NonBlankText;
      hide HexDigests;
      var dir: Directory := map[];
      var receipts: seq<Receipt> := [];
      assert GoodEvidence(hash, id, dir, receipts) && Distinct(ArchivedPaths(receipts)) by { NoEvidence(hash, id); }
      for k := 0 to |sources|
        invariant |receipts| == k && DescribesSources(hash, sources, tokens, now, receipts)
        invariant GoodEvidence(hash, id, dir, receipts) && Distinct(ArchivedPaths(receipts))
        invariant forall j :: 0 <= j < k ==> NonBlankText(sources[j].path)
      {
        if faults.copy(k) {
          return Err(InvalidReceiptSource);
        }
        var content := sources[k].content.value;
        var a, after := ArchiveFile(hash, dir, content);
        var receipt := Receipt(EvidenceId(tokens[k]), sources[k].path, Evidence(id, a.name), a.digest, a.size, now);
        ReceiptValidIff(hash, receipt, sources[k], "evidence-", tokens[k], now);
        if !ValidReceipt(receipt) {
          return Err(InvalidRecord);
        }
        NewEvidence(hash, id, dir, receipts, receipt, content);
        dir := after;
        receipts := receipts + [receipt];
      }
      return Ok((dir, receipts));
    }

    /** `read_attempts`: in a good store, the committed attempts, exactly when all of them are clean. */
    method LoadAttempts(id: string) returns (r: Result<seq<Attempt>, StoreError>)
      ensures r == if ValidCaseId(id) && id in dirs && ReadLog(read, dirs[id].log).Some?
                   then Ok(ReadLog(read, dirs[id].log).value)
                   else Err(if !ValidCaseId(id) then InvalidCaseId else if id !in dirs then CaseNotFound else LogUnreadable)
      ensures Valid() ==> dirs.Keys == committed.Keys
      ensures Valid() ==> (r.Ok? <==> id in committed && CleanLog(committed[id]))
      ensures Valid() && r.Ok? ==> r.value == committed[id] && AllOf(r.value, id) && ValidCaseId(id)
    {
      hide GoodCase;
      hide ReadsBack;
      hide RejectsCutRecords;
      hide CleanLog;
      hide ReadLog;
      hide ValidCaseId;
      if Valid() { GoodCases(hash, dirs, committed); }
      if !ValidCaseId(id) {
        return Err(InvalidCaseId);
      }
      if id !in dirs {
        return Err(CaseNotFound);
      }
      if Valid() { ReadCommitted(hash, read, id, dirs[id], committed[id]); }
      var attempts := ReadAttempts(read, dirs[id].log);
      r := if attempts.None? then Err(LogUnreadable) else Ok(attempts.value);
    }

    /** `_append_attempt`: the whole line or, after any short or failed write, nothing; a failing close
        is only reported. */
    method AppendAttempt(id: string, a: Attempt, faults: Faults) returns (r: Result<bool, StoreError>)
      requires id in dirs
      modifies this`dirs
      ensures r.Err? ==> dirs == old(dirs)
      ensures r.Ok? ==> dirs == old(dirs)[id := old(dirs[id]).(log := old(dirs[id].log) + Encode(AttemptJson(a) + "\n"))] && r.value == faults.close
      ensures NoFaults(faults) ==> r.Ok?
      ensures r.Err? ==> r.error == AppendFailed && AppendStops(faults)
    {
      hide AttemptJson;
      hide Encode;
      var encoded := Encode(AttemptJson(a) + "\n");
      if faults.open {
        return Err(AppendFailed);
      }
      var originalLength := |dirs[id].log|;
      var totalWritten := 0;
      var failed := false;
      var call := 0;
      assert dirs[id].log + encoded[..0] == dirs[id].log;
      assert dirs[id := dirs[id].(log := dirs[id].log)] == dirs;
      while totalWritten < |encoded|
        invariant totalWritten <= |encoded| && id in dirs
        invariant dirs == old(dirs)[id := old(dirs[id]).(log := old(dirs[id].log) + encoded[..totalWritten])]
        invariant !failed
        decreases |encoded| - totalWritten
      {
        var result := faults.write(call);
        if result.Raised? || result.n <= 0 {
          failed := true;
          break;
        }
        var n := Min(result.n, |encoded| - totalWritten);
        Reassociate(old(dirs[id].log), encoded[..totalWritten], encoded[totalWritten..totalWritten + n]);
        assert encoded[..totalWritten] + encoded[totalWritten..totalWritten + n] == encoded[..totalWritten + n];
        dirs := dirs[id := dirs[id].(log := dirs[id].log + encoded[totalWritten..totalWritten + n])];
        totalWritten := totalWritten + n;
        call := call + 1;
      }
      if failed || faults.sync {
        if totalWritten > 0 {
          dirs := dirs[id := dirs[id].(log := dirs[id].log[..originalLength])];
        }
        assert dirs[id] == old(dirs[id]);
        return Err(AppendFailed);
      }
      assert encoded[..totalWritten] == encoded;
      r := Ok(faults.close);
    }

    /** `_archive_practice_receipt`: the receipt, and the name of the file when it is new.  The file is in
        place before the receipt is validated, and stays when the receipt is not valid. */
    method ArchiveReceipt(id: string, source: Source, token: Token, now: Timestamp, faults: Faults)
      returns (r: Result<(Receipt, Option<string>), StoreError>)
      requires id in dirs && ReadableSource(source) && HexDigests(hash) && ValidCaseId(id)
      modifies this`dirs
      ensures r.Ok? <==> !faults.copy(0) && NonBlankText(source.path)
      ensures r.Err? ==> r.error == if faults.copy(0) then InvalidReceiptSource else InvalidRecord
      ensures r.Err? ==> (dirs == old(dirs) <==> !LeavesFile(hash, old(dirs[id].practice), Some(source), faults))
      ensures LeavesFile(hash, old(dirs[id].practice), Some(source), faults) ==>
                r == Err(InvalidRecord) && FileAdded(old(dirs), dirs, id, source.content.value)
      ensures r.Ok? ==>
                && id in dirs && dirs == old(dirs)[id := old(dirs[id]).(practice := dirs[id].practice)]
                && Stored(hash, id, old(dirs[id].practice), dirs[id].practice, r.value.0)
                && ValidReceipt(r.value.0) && Describes(hash, r.value.0, source, token, now)
                && (r.value.1.None? ==> dirs == old(dirs))
                && (r.value.1.Some? ==> dirs[id].practice - {r.value.1.value} == old(dirs[id].practice))
    {
      hide HexDigests;
      hide ValidReceipt;
      hide NonBlankText;
      hide ValidCaseId;
      if faults.copy(0) {
        return Err(InvalidReceiptSource);
      }
      CaseIdHasNoSlash(id);
      DigestHasNoSlash(hash, source.content.value);
      var before := dirs[id].practice;
      var a, practice := ArchiveReusingIdentical(hash, before, source.content.value);
      dirs := dirs[id := dirs[id].(practice := practice)];
      assert practice == before <==> !a.isNew;
      var receipt := Receipt(PracticeId(token), source.path, Practice(id, a.name), a.digest, a.size, now);
      ReceiptValidIff(hash, receipt, source, "practice-", token, now);
      if !ValidReceipt(receipt) {
        return Err(InvalidRecord);
      }
      r := Ok((receipt, if a.isNew then Some(a.name) else None));
    }

    /** Archives the receipt, if any, and appends the attempt; when that fails, a newly archived file is
        removed again, unless it was its receipt that failed. */
    method StoreAttempt(id: string, stage: Stage, outcome: Outcome, source: Option<Source>, note: Option<string>,
                        token: Token, now: Timestamp, faults: Faults)
      returns (r: Result<(Attempt, bool), StoreError>)
      requires id in dirs && HexDigests(hash) && ValidCaseId(id)
      requires HasGrounds(outcome, source.Some?, note) && (source.Some? ==> ReadableSource(source.value))
      modifies this`dirs
      ensures r.Err? ==> (dirs == old(dirs) <==> !LeavesFile(hash, old(dirs[id].practice), source, faults))
      ensures LeavesFile(hash, old(dirs[id].practice), source, faults) ==>
                r == Err(InvalidRecord) && FileAdded(old(dirs), dirs, id, source.value.content.value)
      ensures r.Ok? ==>
                && StoredAttempt(hash, old(dirs), dirs, id, r.value.0) && ValidAttempt(r.value.0)
                && r.value == (Attempt(id, stage, outcome, now, note, r.value.0.receipt), faults.close)
                && (r.value.0.receipt.Some? <==> source.Some?)
                && (source.Some? ==> Describes(hash, r.value.0.receipt.value, source.value, token, now))
      ensures NoFaults(faults) ==> (r.Ok? <==> (source.Some? ==> NonBlankText(source.value.path)))
      ensures r.Err? ==> StopsStoring(r.error, source, faults)
    {
      hide AttemptJson;
      hide AppendStops;
      hide OnlyAdds;
      hide HexDigests;
      hide InDirectory;
      hide PlainPath;
      hide ValidReceipt;
      hide ValidCaseId;
      hide HasGrounds;
      hide IsTimestamp;
      hide NonBlankText;
      hide HeldUnderDigest;
      hide OneFileMore;
      hide ReadableSource;
      var receipt: Option<Receipt> := None;
      var newlyArchived: Option<string> := None;
      if source.Some? {
        var archived := ArchiveReceipt(id, source.value, token, now, faults);
        if archived.Err? {
          return Err(archived.error);
        }
        receipt := Some(archived.value.0);
        newlyArchived := archived.value.1;
      }
      var attempt := Attempt(id, stage, outcome, now, note, receipt);
      var appended := Err(InvalidRecord);
      if !faults.record && ValidAttempt(attempt) {
        appended := AppendAttempt(id, attempt, faults);
      }
      if appended.Err? {
        if newlyArchived.Some? {
          dirs := dirs[id := dirs[id].(practice := dirs[id].practice - {newlyArchived.value})];
        }
        return Err(appended.error);
      }
      if receipt.None? { assert dirs[id].practice == old(dirs[id].practice); }
      GrowthOnlyAdds(old(dirs), dirs, id, attempt);
      r := Ok((attempt, appended.value));
    }

    /** The attempts so far, when the request can be granted; otherwise why it is turned down. */
    method LoadForRequest(id: string, stage: Stage, outcome: Outcome, source: Option<Source>, note: Option<string>)
      returns (r: Result<(seq<Attempt>, Option<string>), StoreError>)
      requires Valid()
      ensures r.Ok? ==>
                && ValidCaseId(id) && id in dirs && id in committed && CleanLog(committed[id]) && AllOf(committed[id], id)
                && r.value == (committed[id], if note.Some? then Some(Strip(note.value)) else None)
                && Acceptable(committed[id], id, stage, outcome, source, note)
                && Acceptable(committed[id], id, stage, outcome, source, r.value.1)
                && HasGrounds(outcome, source.Some?, r.value.1) && (source.Some? ==> ReadableSource(source.value))
      ensures r.Ok? <==> !TurnedDown(committed, id, stage, outcome, source, note)
      ensures r.Err? ==>
                && TurnsDown(r.error, committed, id, stage, outcome, source, note)
                && !(id in committed && CleanLog(committed[id]) && Acceptable(committed[id], id, stage, outcome, source, note))
    {
      hide GoodCase;
      hide CleanLog;
      hide Acceptable;
      hide TurnsDown;
      hide Refuses;
      hide Strip;
      hide ReadableSource;
      hide AllGood;
      hide HasGrounds;
      hide ValidCaseId;
      hide HexDigests;
      hide ReadsBack;
      hide RejectsCutRecords;
      hide ReadLog;
      assert dirs.Keys == committed.Keys && forall id :: id in dirs ==> ValidCaseId(id) by { GoodCases(hash, dirs, committed); }
      var attempts := LoadAttempts(id);
      if attempts.Err? {
        LoadErrorTurnsDown(committed, id, stage, outcome, source, note);
        assert TurnedDown(committed, id, stage, outcome, source, note);
        return Err(attempts.error);
      }
      hide TurnedDown;
      var normalizedNote := if note.Some? then Some(Strip(note.value)) else None;
      AcceptableStripped(committed[id], id, stage, outcome, source, note);
      var refusal := CheckRequest(attempts.value, id, stage, outcome, source, normalizedNote);
      if refusal.Some? {
        RefusalTurnsDown(refusal.value, committed, id, stage, outcome, source, note);
        return Err(refusal.value);
      }
      TurnedDownForOneReason(committed, id, stage, outcome, source, note);
      AcceptableMeans(committed[id], id, stage, outcome, source, normalizedNote);
      r := Ok((attempts.value, normalizedNote));
    }

    /** `record_attempt`: commits the attempt, with its receipt archived, or commits nothing; what is
        archived for a receipt with a blank path stays, unless it was there before. */
    method RecordAttempt(id: string, stage: Stage, outcome: Outcome, source: Option<Source>, note: Option<string>,
                         token: Token, now: Timestamp, faults: Faults)
      returns (r: Result<Recorded, StoreError>)
      requires Valid()
      modifies this
      ensures Valid()
      ensures r.Err? ==> committed == old(committed)
      ensures var log := if id in old(committed) then old(committed[id]) else [];
              var left := LeavesUnusedFile(hash, old(dirs), log, id, stage, outcome, source, note, faults);
              && (r.Err? ==> (dirs == old(dirs) <==> !left))
              && (left ==> r == Err(InvalidRecord) && FileAdded(old(dirs), dirs, id, source.value.content.value))
      ensures r.Ok? ==>
                && id in old(committed) && committed == old(committed)[id := old(committed[id]) + [r.value.attempt]]
                && StoredAttempt(hash, old(dirs), dirs, id, r.value.attempt)
                && IsRequested(hash, r.value.attempt, id, stage, outcome, source, note, token, now)
                && r.value.mastery == SnapshotOf(id, ResultsOf(committed[id]))
                && r.value.closeWarning == faults.close && r.value.packetRefreshed == !faults.packet
      ensures NoFaults(faults) ==>
                (r.Ok? <==> id in old(committed) && CleanLog(old(committed[id]))
                            && Acceptable(old(committed[id]), id, stage, outcome, source, note)
                            && (source.Some? ==> NonBlankText(source.value.path)))
      ensures r.Err? ==>
                if TurnedDown(old(committed), id, stage, outcome, source, note)
                then TurnsDown(r.error, old(committed), id, stage, outcome, source, note)
                else StopsStoring(r.error, source, faults)
    {
      hide GoodCase;
      hide CleanLog;
      hide ResultsOf;
      hide SnapshotOf;
      hide Acceptable;
      hide StoredAttempt;
      hide HexDigests;
      hide Strip;
      hide Describes;
      hide NoFaults;
      hide AllGood;
      hide HasGrounds;
      hide ValidAttempt;
      hide ValidCaseId;
      hide NonBlankText;
      hide LeavesFile;
      hide FileAdded;
      hide IsTimestamp;
      hide AllLowerHex;
      hide HasAllStages;
      hide ReadsBack;
      hide RejectsCutRecords;
      hide TurnsDown;
      hide LeavesUnusedFile;
      hide StopsStoring;
      hide TurnedDown;
      hide ReadableSource;
      var loaded := LoadForRequest(id, stage, outcome, source, note);
      UnusedUnlessTurnedDown(hash, dirs, committed, id, stage, outcome, source, note, faults);
      if loaded.Err? {
        return Err(loaded.error);
      }
      var (attempts, normalizedNote) := loaded.value;
      ghost var log := committed[id];
      var stored := StoreAttempt(id, stage, outcome, source, normalizedNote, token, now, faults);
      if stored.Err? {
        if LeavesFile(hash, old(dirs[id].practice), source, faults) {
          FileAddedKeepsAllGood(hash, old(dirs), dirs, committed, id, source.value.content.value);
        }
        return Err(stored.error);
      }
      var (attempt, closeWarning) := stored.value;
      StoringKeepsAllGood(hash, old(dirs), dirs, committed, id, attempt, source);
      committed := committed[id := log + [attempt]];
      var mastery := DeriveMastery(id, attempts + [attempt]);
      r := Ok(Recorded(attempt, mastery.value, !faults.packet, closeWarning));
    }

    /** `verify_integrity`: the failures of the case's evidence and of the receipts in its log. */
    method VerifyIntegrity(id: string) returns (r: Result<seq<Failure>, StoreError>)
      ensures r.Err? <==> !ValidCaseId(id) || id !in dirs || ReadLog(read, dirs[id].log).None?
      ensures r.Ok? ==>
                var evidence, practice := dirs[id].record.evidence, ReceiptsOf(ReadLog(read, dirs[id].log).value);
                && r.value == FailuresOf(hash, dirs, EvidenceScope, evidence, |evidence|) + FailuresOf(hash, dirs, PracticeScope, practice, |practice|)
                && (r.value == [] <==> AllSound(hash, dirs, evidence) && AllSound(hash, dirs, practice))
      ensures Valid() ==> (r.Ok? <==> id in committed && CleanLog(committed[id])) && (r.Ok? ==> r.value == [])
    {
      hide GoodCase;
      hide ReadsBack;
      hide RejectsCutRecords;
      hide ReadLog;
      hide CleanLog;
      hide FailuresOf;
      hide AllSound;
      hide ValidCaseId;
      var attempts := LoadAttempts(id);
      if attempts.Err? {
        return Err(attempts.error);
      }
      var evidence, practice := dirs[id].record.evidence, ReceiptsOf(attempts.value);
      var evidenceFailures := CheckReceipts(EvidenceScope, evidence);
      var practiceFailures := CheckReceipts(PracticeScope, practice);
      if Valid() { GoodCaseIsSound(hash, id, dirs, committed[id]); }
      r := Ok(evidenceFailures + practiceFailures);
    }

    method CheckReceipts(scope: Scope, receipts: seq<Receipt>) returns (failures: seq<Failure>)
      ensures failures == FailuresOf(hash, dirs, scope, receipts, |receipts|)
      ensures failures == [] <==> AllSound(hash, dirs, receipts)
    {
      failures := [];
      for i := 0 to |receipts|
        invariant failures == FailuresOf(hash, dirs, scope, receipts, i)
      {
        var problem := VerifyReceipt(hash, dirs, receipts[i]);
        if problem.Some? {
          failures := failures + [Failure(scope, receipts[i].id, problem.value)];
        }
      }
      NoFailuresIffSound(hash, dirs, scope, receipts, |receipts|);
    }
  }

  lemma NoEvidence(hash: Hash, id: string)
    ensures GoodEvidence(hash, id, map[], []) && Distinct(ArchivedPaths([]))
  {
  }

  lemma EmptyCaseIsGood(hash: Hash, id: string, evidence: Directory, record: LearningCase)
    requires ValidCaseId(id) && record.id == id && GoodEvidence(hash, id, evidence, record.evidence)
    ensures GoodCase(hash, id, CaseDir(record, evidence, map[], []), [])
  {
    hide ValidCaseId;
    hide GoodEvidence;
  }
}
