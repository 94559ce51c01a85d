/** The five-stage practice gate of src/soloscale/casebook_models.py and src/soloscale/casebook_store.py:
    mastery derived from an attempt log, and the separately written validator of a mastery snapshot. */
module Mastery {
  import opened Wrappers
  import opened CaseModels

  const STAGE_COUNT: nat := 5

  datatype Status = Captured | InPractice | InterviewReady

  type StageResults = map<Stage, Option<Outcome>>

  datatype Snapshot = Snapshot(caseId: string, results: StageResults, passed: seq<Stage>,
                               next: Option<Stage>, status: Status, ready: bool)

  datatype WrongCase = WrongCase

  /** The position of a stage in `list(PracticeStage)`. */
  function Rank(stage: Stage): (i: nat)
    ensures i < STAGE_COUNT
  {
    match stage
    case Explain => 0
    case Trace => 1
    case Rebuild => 2
    case Debug => 3
    case Defend => 4
  }

  function StageAt(i: nat): (stage: Stage)
    requires i < STAGE_COUNT
    ensures forall s: Stage :: Rank(s) == i <==> s == stage
  {
    if i == 0 then Explain else if i == 1 then Trace else if i == 2 then Rebuild else if i == 3 then Debug else Defend
  }

  // ----- deriving mastery

  /** The outcome of the last attempt at a stage. */
  function Latest(attempts: seq<Attempt>, stage: Stage): (r: Option<Outcome>) {
    if attempts == [] then None
    else
      var last := attempts[|attempts| - 1];
      if last.stage == stage then Some(last.outcome) else Latest(attempts[..|attempts| - 1], stage)
  }

  /** The n-th attempt is the last one at the stage. */
  ghost predicate IsLastAt(attempts: seq<Attempt>, stage: Stage, n: nat) {
    n < |attempts| && attempts[n].stage == stage && forall k :: n < k < |attempts| ==> attempts[k].stage != stage
  }

  /** A stage's result is the outcome of the attempt at it that no other attempt at it follows. */
  lemma {:induction false} LatestMeaning(attempts: seq<Attempt>, stage: Stage, n: nat)
    ensures IsLastAt(attempts, stage, n) ==> Latest(attempts, stage) == Some(attempts[n].outcome)
    ensures Latest(attempts, stage) == None <==> forall k :: 0 <= k < |attempts| ==> attempts[k].stage != stage
  {
    if attempts != [] {
      var before := attempts[..|attempts| - 1];
      LatestMeaning(before, stage, n);
      assert forall k :: 0 <= k < |before| ==> before[k] == attempts[k];
    }
  }

  function ResultsOf(attempts: seq<Attempt>): (r: StageResults)
    ensures HasAllStages(r)
    ensures forall stage: Stage :: r[stage] == Latest(attempts, stage)
  {
    map stage: Stage | Rank(stage) < STAGE_COUNT :: Latest(attempts, stage)
  }

  predicate HasAllStages(results: StageResults) {
    forall stage: Stage :: stage in results
  }

  /** The stages from the i-th on whose result is a pass. */
  function PassedFrom(results: StageResults, i: nat): (r: seq<Stage>)
    requires HasAllStages(results) && i <= STAGE_COUNT
    decreases STAGE_COUNT - i
  {
    if i == STAGE_COUNT then []
    else (if results[StageAt(i)] == Some(Pass) then [StageAt(i)] else []) + PassedFrom(results, i + 1)
  }

  /** The first stage from the i-th on whose result is not a pass. */
  function FirstNotPassed(results: StageResults, i: nat): (r: Option<Stage>)
    requires HasAllStages(results) && i <= STAGE_COUNT
    decreases STAGE_COUNT - i
  {
    if i == STAGE_COUNT then None
    else if results[StageAt(i)] != Some(Pass) then Some(StageAt(i))
    else FirstNotPassed(results, i + 1)
  }

  predicate NothingAttempted(results: StageResults) {
    forall stage: Stage :: stage in results ==> results[stage] == None
  }

  function SnapshotOf(caseId: string, results: StageResults): (s: Snapshot)
    requires HasAllStages(results)
  {
    var next := FirstNotPassed(results, 0);
    Snapshot(caseId, results, PassedFrom(results, 0), next,
             if next.None? then InterviewReady else if NothingAttempted(results) then Captured else InPractice,
             next.None?)
  }

  /** `derive_mastery`: each attempt overwrites its stage's result; a foreign attempt is an error. */
  method DeriveMastery(caseId: string, attempts: seq<Attempt>) returns (r: Result<Snapshot, WrongCase>)
    ensures r.Err? <==> exists k :: 0 <= k < |attempts| && attempts[k].caseId != caseId
    ensures r.Ok? ==> r.value == SnapshotOf(caseId, ResultsOf(attempts)) && HasAllStages(r.value.results)
  {
    var results: StageResults := map stage: Stage | Rank(stage) < STAGE_COUNT :: None;
    for k := 0 to |attempts|
      invariant forall j :: 0 <= j < k ==> attempts[j].caseId == caseId
      invariant results == ResultsOf(attempts[..k])
    {
      if attempts[k].caseId != caseId {
        return Err(WrongCase);
      }
      assert attempts[..k + 1][..k] == attempts[..k];
      results := results[attempts[k].stage := Some(attempts[k].outcome)];
    }
    assert attempts[..|attempts|] == attempts;
    r := Ok(SnapshotOf(caseId, results));
  }

  // ----- the validator of a snapshot, written independently

  /** `[stage for stage in PracticeStage if stage_results[stage] is PASS]`, characterised: the passed
      stages, each once, in stage order. */
  ghost predicate ListsPassedInOrder(passed: seq<Stage>, results: StageResults)
    requires HasAllStages(results)
  {
    && (forall stage :: stage in passed <==> results[stage] == Some(Pass))
    && (forall i, j :: 0 <= i < j < |passed| ==> Rank(passed[i]) < Rank(passed[j]))
  }

  ghost predicate IsFirstNotPassed(next: Option<Stage>, results: StageResults)
    requires HasAllStages(results)
  {
    match next
    case None => forall stage: Stage :: results[stage] == Some(Pass)
    case Some(s) => results[s] != Some(Pass) && forall stage: Stage :: Rank(stage) < Rank(s) ==> results[stage] == Some(Pass)
  }

  ghost predicate AnyAttempted(results: StageResults) {
    exists stage: Stage :: stage in results && results[stage] != None
  }

  /** `MasterySnapshot`'s two validators. */
  ghost predicate ValidSnapshot(s: Snapshot) {
    && HasAllStages(s.results)
    && ListsPassedInOrder(s.passed, s.results)
    && IsFirstNotPassed(s.next, s.results)
    && (var allPassed := |s.passed| == STAGE_COUNT;
        && s.status == (if allPassed then InterviewReady else if AnyAttempted(s.results) then InPractice else Captured)
        && s.ready == allPassed)
  }

  lemma {:induction false} PassedFromCorrect(results: StageResults, i: nat)
    requires HasAllStages(results) && i <= STAGE_COUNT
    ensures var passed := PassedFrom(results, i);
            && (forall stage :: stage in passed <==> Rank(stage) >= i && results[stage] == Some(Pass))
            && (forall j, k :: 0 <= j < k < |passed| ==> Rank(passed[j]) < Rank(passed[k]))
            && (|passed| == STAGE_COUNT - i <==> FirstNotPassed(results, i).None?) && |passed| <= STAGE_COUNT - i
    decreases STAGE_COUNT - i
  {
    hide Rank;
    hide StageAt;
    if i < STAGE_COUNT {
      PassedFromCorrect(results, i + 1);
    }
  }

  lemma {:induction false} FirstNotPassedCorrect(results: StageResults, i: nat)
    requires HasAllStages(results) && i <= STAGE_COUNT
    requires forall stage: Stage :: Rank(stage) < i ==> results[stage] == Some(Pass)
    ensures IsFirstNotPassed(FirstNotPassed(results, i), results)
    decreases STAGE_COUNT - i
  {
    if i < STAGE_COUNT {
      if results[StageAt(i)] == Some(Pass) {
        FirstNotPassedCorrect(results, i + 1);
      }
    }
  }

  /** A snapshot satisfies the validator exactly when it is the one derived from its results: what is
      derived is always valid, and the validator leaves no other choice. */
  lemma ValidIffDerived(s: Snapshot)
    ensures ValidSnapshot(s) <==> HasAllStages(s.results) && s == SnapshotOf(s.caseId, s.results)
  {
    hide PassedFrom;
    hide FirstNotPassed;
    hide ListsPassedInOrder;
    hide IsFirstNotPassed;
    hide NothingAttempted;
    hide AnyAttempted;
    if HasAllStages(s.results) {
      var passed, next := PassedFrom(s.results, 0), FirstNotPassed(s.results, 0);
      PassedList(s.results);
      FirstNotPassedCorrect(s.results, 0);
      assert AnyAttempted(s.results) <==> !NothingAttempted(s.results) by { AnyOrNothing(s.results); }
      if ListsPassedInOrder(s.passed, s.results) { SameList(s.passed, passed, s.results); }
      if IsFirstNotPassed(s.next, s.results) { SameNext(s.next, next, s.results); }
    }
  }

  lemma AnyOrNothing(results: StageResults)
    ensures AnyAttempted(results) <==> !NothingAttempted(results)
  {
  }

  lemma PassedList(results: StageResults)
    requires HasAllStages(results)
    ensures ListsPassedInOrder(PassedFrom(results, 0), results)
    ensures |PassedFrom(results, 0)| == STAGE_COUNT <==> FirstNotPassed(results, 0).None?
  {
    PassedFromCorrect(results, 0);
  }

  lemma SameNext(a: Option<Stage>, b: Option<Stage>, results: StageResults)
    requires HasAllStages(results) && IsFirstNotPassed(a, results) && IsFirstNotPassed(b, results)
    ensures a == b
  {
    if a.Some? && b.Some? {
      assert StageAt(Rank(a.value)) == a.value && StageAt(Rank(b.value)) == b.value;
    }
  }

  lemma SameList(a: seq<Stage>, b: seq<Stage>, results: StageResults)
    requires HasAllStages(results) && ListsPassedInOrder(a, results) && ListsPassedInOrder(b, results)
    ensures a == b
  {
    SameOrder(a, b);
  }

  /** What `derive_mastery` returns is always accepted, also after needs-work regressions. */
  lemma DerivedIsValid(caseId: string, attempts: seq<Attempt>)
    ensures ValidSnapshot(SnapshotOf(caseId, ResultsOf(attempts)))
  {
    hide Latest;
    hide ValidSnapshot;
    ValidIffDerived(SnapshotOf(caseId, ResultsOf(attempts)));
  }

  lemma HasElement<T>(s: seq<T>)
    ensures |s| > 0 ==> exists x :: x in s
  {
    if |s| > 0 { assert s[0] in s; }
  }

  lemma {:induction false} SameOrder(a: seq<Stage>, b: seq<Stage>)
    requires forall stage: Stage :: stage in a <==> stage in b
    requires forall i, j :: 0 <= i < j < |a| ==> Rank(a[i]) < Rank(a[j])
    requires forall i, j :: 0 <= i < j < |b| ==> Rank(b[i]) < Rank(b[j])
    ensures a == b
  {
    if a == [] {
      HasElement(b);
    } else {
      assert a[0] in b;
      assert b[0] in a;
      var i :| 0 <= i < |a| && a[i] == b[0];
      var j :| 0 <= j < |b| && b[j] == a[0];
      assert a[0] == b[0];
      forall stage: Stage ensures stage in a[1..] <==> stage in b[1..] {
        assert stage in a <==> stage == a[0] || stage in a[1..];
        assert stage in b <==> stage == b[0] || stage in b[1..];
        assert forall k :: 0 < k < |a| ==> a[k] != a[0];
        assert forall k :: 0 < k < |b| ==> b[k] != b[0];
      }
      SameOrder(a[1..], b[1..]);
    }
  }

  // ----- the gate

  /** The earlier stages, from the i-th on, whose latest attempt is not a pass. */
  function MissingFrom(results: StageResults, stage: Stage, i: nat): (r: seq<Stage>)
    requires HasAllStages(results) && i <= Rank(stage)
    decreases Rank(stage) - i
  {
    if i == Rank(stage) then []
    else (if results[StageAt(i)] != Some(Pass) then [StageAt(i)] else []) + MissingFrom(results, stage, i + 1)
  }

  /** `missing_prerequisites` of `record_attempt`. */
  function MissingPrerequisites(s: Snapshot, stage: Stage): (r: seq<Stage>)
    requires HasAllStages(s.results)
  {
    MissingFrom(s.results, stage, 0)
  }

  lemma {:induction false} MissingCorrect(results: StageResults, stage: Stage, i: nat)
    requires HasAllStages(results) && i <= Rank(stage)
    ensures MissingFrom(results, stage, i) == [] <==> forall p: Stage :: i <= Rank(p) < Rank(stage) ==> results[p] == Some(Pass)
    decreases Rank(stage) - i
  {
    if i < Rank(stage) {
      MissingCorrect(results, stage, i + 1);
    }
  }

  /** A pass at a stage gets through the gate exactly when the stage is not after the snapshot's next
      stage. */
  lemma GateIsNextStage(caseId: string, attempts: seq<Attempt>, stage: Stage)
    ensures var s := SnapshotOf(caseId, ResultsOf(attempts));
            MissingPrerequisites(s, stage) == [] <==> (s.next.Some? ==> Rank(stage) <= Rank(s.next.value))
  {
    FirstNotPassedCorrect(ResultsOf(attempts), 0);
    MissingCorrect(ResultsOf(attempts), stage, 0);
  }

  /** Each pass in the log came when every earlier stage's latest attempt was a pass. */
  ghost predicate GatedLog(log: seq<Attempt>) {
    forall n :: 0 <= n < |log| && log[n].outcome == Pass ==> EarlierStagesPassed(log[..n], log[n].stage)
  }

  ghost predicate EarlierStagesPassed(log: seq<Attempt>, stage: Stage) {
    forall p: Stage :: Rank(p) < Rank(stage) ==> Latest(log, p) == Some(Pass)
  }

  /** Appending keeps the log gated when a pass meets no missing prerequisite. */
  lemma GatedSnoc(caseId: string, log: seq<Attempt>, a: Attempt)
    requires GatedLog(log)
    requires a.outcome == Pass ==> MissingPrerequisites(SnapshotOf(caseId, ResultsOf(log)), a.stage) == []
    ensures GatedLog(log + [a])
  {
    hide Latest;
    hide EarlierStagesPassed;
    MissingCorrect(ResultsOf(log), a.stage, 0);
    var more := log + [a];
    forall n | 0 <= n < |more| && more[n].outcome == Pass ensures EarlierStagesPassed(more[..n], more[n].stage) {
      if n < |log| {
        assert more[..n] == log[..n];
      } else {
        assert more[..n] == log;
        GateOpens(log, a.stage);
      }
    }
  }

  lemma GateOpens(log: seq<Attempt>, stage: Stage)
    requires MissingFrom(ResultsOf(log), stage, 0) == []
    ensures EarlierStagesPassed(log, stage)
  {
    MissingCorrect(ResultsOf(log), stage, 0);
  }

  /** The first pass at a stage, or the log's length. */
  function FirstPass(log: seq<Attempt>, stage: Stage, i: nat): (n: nat)
    requires i <= |log|
    ensures i <= n <= |log|
    ensures n < |log| ==> log[n].stage == stage && log[n].outcome == Pass
    ensures forall k :: i <= k < n ==> !(log[k].stage == stage && log[k].outcome == Pass)
    decreases |log| - i
  {
    if i == |log| || (log[i].stage == stage && log[i].outcome == Pass) then i else FirstPass(log, stage, i + 1)
  }

  /** A stage whose latest result is a pass has passed before. */
  lemma {:induction false} LatestPassHappened(log: seq<Attempt>, stage: Stage)
    requires Latest(log, stage) == Some(Pass)
    ensures exists k :: 0 <= k < |log| && log[k].stage == stage && log[k].outcome == Pass
  {
    var n := |log| - 1;
    if log[n].stage != stage {
      LatestPassHappened(log[..n], stage);
      var k :| 0 <= k < n && log[..n][k].stage == stage && log[..n][k].outcome == Pass;
      assert log[k].stage == stage && log[k].outcome == Pass;
    }
  }

  /** In a gated log, first passes come in stage order, whatever regressions happen in between. */
  lemma FirstPassesInStageOrder(log: seq<Attempt>, earlier: Stage, later: Stage)
    requires GatedLog(log) && Rank(earlier) < Rank(later)
    requires FirstPass(log, later, 0) < |log|
    ensures FirstPass(log, earlier, 0) < FirstPass(log, later, 0)
  {
    hide Latest;
    var n := FirstPass(log, later, 0);
    assert EarlierStagesPassed(log[..n], log[n].stage);
    LatestPassHappened(log[..n], earlier);
    var k :| 0 <= k < n && log[..n][k].stage == earlier && log[..n][k].outcome == Pass;
    assert log[k].stage == earlier && log[k].outcome == Pass;
  }

  /** The case is interview-ready exactly when the latest attempt at every stage is a pass, and merely
      captured exactly when nothing was attempted. */
  lemma StatusMeaning(caseId: string, attempts: seq<Attempt>)
    ensures var s := SnapshotOf(caseId, ResultsOf(attempts));
            && (s.status == InterviewReady <==> forall stage: Stage :: Latest(attempts, stage) == Some(Pass))
            && (s.status == Captured <==> attempts == [])
  {
    hide Latest;
    hide FirstNotPassed;
    var results := ResultsOf(attempts);
    FirstNotPassedCorrect(results, 0);
    var next := FirstNotPassed(results, 0);
    if next.Some? {
      assert Latest(attempts, next.value) == results[next.value] != Some(Pass);
    } else {
      forall stage: Stage ensures Latest(attempts, stage) == Some(Pass) { assert results[stage] == Some(Pass); }
    }
    NothingIffEmpty(attempts);
    if attempts == [] { LatestOfNothing(Explain); }
  }

  lemma LatestOfNothing(stage: Stage)
    ensures Latest([], stage) == None
  {
  }

  lemma NothingIffEmpty(attempts: seq<Attempt>)
    ensures NothingAttempted(ResultsOf(attempts)) <==> attempts == []
  {
    if attempts != [] {
      var last := attempts[|attempts| - 1];
      assert ResultsOf(attempts)[last.stage] == Some(last.outcome);
    }
  }
}
