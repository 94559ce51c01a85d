/** What every retrieval run of src/soloscale/evidence_agent.py keeps: its hit and query budgets, and
    what it achieves when the store answers every search in full. */
module AgentProperties {
  import opened PyText
  import opened Retrieval
  import opened QueryBudget
  import opened ContextRecord
  import opened AgentRun

  /** Each round's budget is an equal share, rounded up, of what was left; rounds follow each other. */
  ghost predicate GoodRounds(limits: Limits, rounds: seq<Round>, known: nat) {
    && |rounds| <= limits.maxRounds
    && known == AfterRound(rounds, |rounds|)
    && (forall k :: 0 <= k < |rounds| ==> GoodRound(limits, rounds, k))
  }

  function AfterRound(rounds: seq<Round>, k: nat): (n: nat)
    requires k <= |rounds|
  {
    if k == 0 then 0 else rounds[k - 1].after
  }

  ghost predicate GoodRound(limits: Limits, rounds: seq<Round>, k: nat)
    requires k < |rounds| <= limits.maxRounds
  {
    && rounds[k].before == AfterRound(rounds, k) < limits.maxHits
    && rounds[k].budget == CeilDiv(limits.maxHits - rounds[k].before, limits.maxRounds - k)
    && rounds[k].before <= rounds[k].after <= rounds[k].before + rounds[k].budget
    && rounds[k].searches <= limits.maxQueries
  }

  /** The number of searches of the first k rounds. */
  function SearchesUpTo(rounds: seq<Round>, k: nat): (n: nat)
    requires k <= |rounds|
  {
    if k == 0 then 0 else SearchesUpTo(rounds, k - 1) + rounds[k - 1].searches
  }

  lemma {:induction false} SearchesOfMore(rounds: seq<Round>, r: Round, k: nat)
    requires k <= |rounds|
    ensures SearchesUpTo(rounds + [r], k) == SearchesUpTo(rounds, k)
  {
    if k > 0 { SearchesOfMore(rounds, r, k - 1); }
  }

  /** Rounds of at most so many searches each have at most that many times their number together. */
  lemma {:induction false} SearchesBounded(limits: Limits, rounds: seq<Round>, k: nat)
    requires k <= |rounds| <= limits.maxRounds && forall j :: 0 <= j < |rounds| ==> GoodRound(limits, rounds, j)
    ensures SearchesUpTo(rounds, k) <= k * limits.maxQueries
  {
    if k > 0 {
      SearchesBounded(limits, rounds, k - 1);
      assert GoodRound(limits, rounds, k - 1);
      assert (k - 1) * limits.maxQueries + limits.maxQueries == k * limits.maxQueries;
    }
  }

  /** Chunk ids are distinct and within the hit budget; no query ran twice up to case and spacing, no
      round ran more than its queries; no limit was clipped; round budgets are as planned. */
  ghost predicate GoodProgress(a: Agent, p: Progress) {
    && Keyed(p.state.retrieved) && Known(p) <= a.limits.maxHits
    && |p.steps| == SearchesUpTo(p.rounds, |p.rounds|)
    && FoldDistinct(a.fold, StepQueries(p.steps))
    && GoodSteps(p.steps, 0, a.limits.maxHits)
    && GoodRounds(a.limits, p.rounds, Known(p))
  }

  /** Every search filled its quota and every round used exactly its budget. */
  ghost predicate FullProgress(identityOf: string -> string, p: Progress) {
    && Consistent(identityOf, p.state.retrieved) && FilledSteps(p.steps, 0)
    && forall k :: 0 <= k < |p.rounds| ==> p.rounds[k].after == p.rounds[k].before + p.rounds[k].budget
  }

  /** Queries ready to run: few, different, and none of them executed before. */
  ghost predicate GoodPending(a: Agent, steps: seq<Step>, pending: seq<string>) {
    && |pending| <= a.limits.maxQueries && FoldDistinct(a.fold, pending)
    && forall k :: 0 <= k < |pending| ==> a.fold(pending[k]) !in Folds(a.fold, StepQueries(steps))
  }

  lemma NormalizedArePending(a: Agent, steps: seq<Step>, queries: seq<string>)
    ensures GoodPending(a, steps, Clip(Usable(a.fold, queries, 0, Folds(a.fold, StepQueries(steps))), a.limits.maxQueries))
  {
    hide Usable;
    hide Folds;
    var seen := Folds(a.fold, StepQueries(steps));
    var usable := Usable(a.fold, queries, 0, seen);
    UsableCorrect(a.fold, queries, 0, seen);
    var pending := Clip(usable, a.limits.maxQueries);
    forall k | 0 <= k < |pending| ensures a.fold(pending[k]) !in seen {
      assert pending[k] == usable[k] && usable[k] in usable;
    }
  }

  /** Running a prefix of the pending queries keeps the executed ones different. */
  lemma StepsStayDistinct(a: Agent, before: seq<Step>, after: seq<Step>, pending: seq<string>)
    requires FoldDistinct(a.fold, StepQueries(before)) && GoodPending(a, before, pending)
    requires before <= after && |after| <= |before| + |pending|
    requires forall k :: |before| <= k < |after| ==> after[k].query == pending[k - |before|]
    ensures FoldDistinct(a.fold, StepQueries(after))
  {
    var n := |before|;
    forall i, j | 0 <= i < j < |after| ensures a.fold(after[i].query) != a.fold(after[j].query) {
      if j < n {
        assert StepQueries(before)[i] == after[i].query && StepQueries(before)[j] == after[j].query;
      } else if i < n {
        assert StepQueries(before)[i] == after[i].query;
        assert after[i].query in StepQueries(before);
      } else {
        assert pending[i - n] == after[i].query && pending[j - n] == after[j].query;
      }
    }
  }

  lemma RoundAppended(limits: Limits, rounds: seq<Round>, known: nat, r: Round)
    requires GoodRounds(limits, rounds, known) && |rounds| < limits.maxRounds && known < limits.maxHits
    requires r.before == known && r.before <= r.after <= r.before + r.budget && r.searches <= limits.maxQueries
    requires r.budget == CeilDiv(limits.maxHits - known, limits.maxRounds - |rounds|)
    ensures GoodRounds(limits, rounds + [r], r.after)
  {
    hide CeilDiv;
    var more := rounds + [r];
    forall k | 0 <= k < |more| ensures GoodRound(limits, more, k) {
      assert AfterRound(more, k) == AfterRound(rounds, k);
      if k < |rounds| { assert GoodRound(limits, rounds, k) && more[k] == rounds[k]; }
    }
  }

  lemma SearchRoundKeeps(a: Agent, w: World, identityOf: string -> string, p: Progress, pending: seq<string>)
    requires GoodProgress(a, p) && GoodPending(a, p.steps, pending) && pending != []
    requires |p.rounds| < a.limits.maxRounds && Known(p) < a.limits.maxHits
    ensures var r := SearchRound(a, w, p, pending, |p.rounds| + 1);
            && (r.Ok? ==> GoodProgress(a, r.value) && |r.value.rounds| == |p.rounds| + 1)
            && (r.Ok? ==> p.steps <= r.value.steps)
            && (r.Ok? && AnsweredInFull(w.search, identityOf, r.value.steps) && FullProgress(identityOf, p) ==> FullProgress(identityOf, r.value))
            && (AnswersInFull(w.search, identityOf, a.limits.maxHits) && FullProgress(identityOf, p) ==> r.Ok?)
  {
    hide RoundFrom;
    hide Keyed;
    hide Consistent;
    hide AnswersInFull;
    hide AnsweredInFull;
    hide WithinBudget;
    hide FoldDistinct;
    hide GoodPending;
    hide GoodRounds;
    hide FilledQuota;
    hide CeilDiv;
    var budget := RoundBudget(a, p, |p.rounds| + 1);
    CeilDivBounds(a.limits.maxHits - Known(p), a.limits.maxRounds - |p.rounds|);
    RoundCorrect(w.search, p, pending, 0, Known(p) + budget, a.limits.maxHits);
    if FullProgress(identityOf, p) {
      FullRound(w.search, identityOf, p, pending, 0, Known(p) + budget, a.limits.maxHits);
    }
    var r := SearchRound(a, w, p, pending, |p.rounds| + 1);
    if r.Ok? {
      var q := r.value;
      SizeOfPending(a, p.steps, pending);
      StepsStayDistinct(a, p.steps, q.steps, pending);
      RoundAppended(a.limits, p.rounds, Known(p), q.rounds[|p.rounds|]);
      SearchesOfMore(p.rounds, q.rounds[|p.rounds|], |p.rounds|);
    }
  }

  lemma SizeOfPending(a: Agent, steps: seq<Step>, pending: seq<string>)
    requires GoodPending(a, steps, pending)
    ensures |pending| <= a.limits.maxQueries
  {
  }

  lemma {:induction false} RetrieveFromKeeps(a: Agent, w: World, identityOf: string -> string, p: Progress, pending: seq<string>)
    requires GoodProgress(a, p) && GoodPending(a, p.steps, pending) && |p.rounds| <= a.limits.maxRounds
    ensures var r := RetrieveFrom(a, w, p, pending, |p.rounds| + 1);
            && (r.Ok? ==> GoodProgress(a, r.value) && p.steps <= r.value.steps)
            && (r.Ok? && AnsweredInFull(w.search, identityOf, r.value.steps) && FullProgress(identityOf, p) ==> FullProgress(identityOf, r.value))
    decreases a.limits.maxRounds - |p.rounds|
  {
    hide GoodProgress;
    hide FullProgress;
    hide SearchRound;
    hide AnswersInFull;
    hide AnsweredInFull;
    hide ExpansionOf;
    hide NextQueries;
    hide GoodPending;
    var round := |p.rounds| + 1;
    assert Known(p) <= a.limits.maxHits by { RespectsBudget(a, p); }
    if round <= a.limits.maxRounds && pending != [] && Known(p) < a.limits.maxHits {
      SearchRoundKeeps(a, w, identityOf, p, pending);
      var next := SearchRound(a, w, p, pending, round);
      if next.Ok? {
        var e := ExpansionOf(w, round, next.value.state);
        if e.Ok? {
          NextQueriesArePending(a, w, next.value, e.value, round);
          RetrieveFromKeeps(a, w, identityOf, next.value, NextQueries(a, w, next.value, e.value, round));
          var r := RetrieveFrom(a, w, p, pending, round);
          if r.Ok? && AnsweredInFull(w.search, identityOf, r.value.steps) {
            EarlierStepsAnswered(w.search, identityOf, next.value.steps, r.value.steps);
          }
        }
      }
    }
  }

  lemma EarlierStepsAnswered(search: Search, identityOf: string -> string, steps: seq<Step>, more: seq<Step>)
    requires steps <= more && AnsweredInFull(search, identityOf, more)
    ensures AnsweredInFull(search, identityOf, steps)
  {
    hide IsFullAnswer;
    forall n | 0 <= n < |steps| ensures steps[n] == more[n] { }
  }

  lemma RespectsBudget(a: Agent, p: Progress)
    requires GoodProgress(a, p)
    ensures Known(p) <= a.limits.maxHits && |p.rounds| <= a.limits.maxRounds
  {
  }

  lemma NextQueriesArePending(a: Agent, w: World, p: Progress, e: Expansion, round: nat)
    ensures GoodPending(a, p.steps, NextQueries(a, w, p, e, round))
  {
    NormalizedArePending(a, p.steps, w.coverage(round, ListJson(RecordsOf(a, p.state, e))).additional);
  }

  /** Another round follows exactly when the reasoner asks for more, rounds and hits are left, and one of
      its queries is not blank and was not executed before. */
  lemma AnotherRoundIff(a: Agent, w: World, p: Progress, e: Expansion, round: nat)
    ensures var coverage := w.coverage(round, ListJson(RecordsOf(a, p.state, e)));
            NextQueries(a, w, p, e, round) != []
            <==> !coverage.finish && round != a.limits.maxRounds && Known(p) < a.limits.maxHits && a.limits.maxQueries > 0
                 && exists q :: q in coverage.additional && IsUsable(a.fold, q, Folds(a.fold, StepQueries(p.steps)))
  {
    hide Usable;
    hide IsUsable;
    hide Folds;
    hide RecordsOf;
    hide ListJson;
    var additional := w.coverage(round, ListJson(RecordsOf(a, p.state, e))).additional;
    UsableIff(a.fold, additional, 0, Folds(a.fold, StepQueries(p.steps)));
    assert additional[0..] == additional;
  }

  lemma {:induction false} UsableIff(fold: Casefold, queries: seq<string>, i: nat, seen: set<string>)
    requires i <= |queries|
    ensures Usable(fold, queries, i, seen) != [] <==> exists q :: q in queries[i..] && IsUsable(fold, q, seen)
    decreases |queries| - i
  {
    hide IsUsable;
    if i < |queries| {
      UsableIff(fold, queries, i + 1, seen);
      assert queries[i..] == [queries[i]] + queries[i + 1..];
    }
  }

  lemma FirstQueries(a: Agent, proposed: seq<string>)
    ensures GoodPending(a, [], Clip(Usable(a.fold, proposed, 0, {}), a.limits.maxQueries))
  {
    hide Usable;
    hide GoodPending;
    assert Folds(a.fold, StepQueries([])) == {};
    NormalizedArePending(a, [], proposed);
  }

  lemma NothingDone(a: Agent, identityOf: string -> string)
    ensures GoodProgress(a, START) && FullProgress(identityOf, START)
  {
  }

  lemma RetrieveKeeps(a: Agent, w: World, identityOf: string -> string, proposed: seq<string>)
    requires Retrieve(a, w, proposed).Ok?
    ensures var p := Retrieve(a, w, proposed).value;
            && GoodProgress(a, p)
            && (AnsweredInFull(w.search, identityOf, p.steps) ==> FullProgress(identityOf, p))
  {
    hide Usable;
    hide Clip;
    hide RetrieveFrom;
    hide GoodPending;
    hide GoodProgress;
    hide FullProgress;
    hide AnsweredInFull;
    FirstQueries(a, proposed);
    NothingDone(a, identityOf);
    RetrieveFromKeeps(a, w, identityOf, START, Clip(Usable(a.fold, proposed, 0, {}), a.limits.maxQueries));
  }

  /** Whatever the store and the reasoner answer: a run that ends well stays inside every budget. */
  lemma RetrievalStaysInBudget(a: Agent, w: World, proposed: seq<string>)
    requires Retrieve(a, w, proposed).Ok?
    ensures GoodProgress(a, Retrieve(a, w, proposed).value)
  {
    hide Retrieve;
    RetrieveKeeps(a, w, _ => "", proposed);
  }

  /** When every executed search returned its full limit of distinct, identity-consistent chunks, every search
      filled its quota, every round used exactly its budget, and running all the rounds used exactly
      the hit budget. */
  lemma FullAnswersUseTheBudget(a: Agent, w: World, identityOf: string -> string, proposed: seq<string>)
    requires Retrieve(a, w, proposed).Ok? && AnsweredInFull(w.search, identityOf, Retrieve(a, w, proposed).value.steps)
    ensures var p := Retrieve(a, w, proposed).value;
            && FullProgress(identityOf, p)
            && (|p.rounds| == a.limits.maxRounds > 0 ==> Known(p) == a.limits.maxHits)
  {
    hide Retrieve;
    RetrieveKeeps(a, w, identityOf, proposed);
    var p := Retrieve(a, w, proposed).value;
    if |p.rounds| == a.limits.maxRounds > 0 {
      var last := |p.rounds| - 1;
      assert GoodRound(a.limits, p.rounds, last);
      CeilDivBounds(a.limits.maxHits - p.rounds[last].before, 1);
    }
  }

  /** A store that answers everything within the hit budget in full has answered every executed search
      in full. */
  lemma FullStoreAnswersEveryStep(a: Agent, w: World, identityOf: string -> string, proposed: seq<string>)
    requires Retrieve(a, w, proposed).Ok? && AnswersInFull(w.search, identityOf, a.limits.maxHits)
    ensures AnsweredInFull(w.search, identityOf, Retrieve(a, w, proposed).value.steps)
  {
    hide Retrieve;
    hide IsFullAnswer;
    RetrievalStaysInBudget(a, w, proposed);
    var steps := Retrieve(a, w, proposed).value.steps;
    forall n | 0 <= n < |steps| ensures IsFullAnswer(identityOf, w.search(n, steps[n].query, steps[n].requestedLimit), steps[n].requestedLimit) {
      assert WithinBudget(steps[n], a.limits.maxHits);
    }
  }
}
