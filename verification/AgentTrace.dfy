/** The course of a whole retrieval run of src/soloscale/evidence_agent.py: which queries each round runs,
    with which limits, from which state to which, and why the run goes on or ends. */
module AgentTrace {
  import opened Wrappers
  import opened PyText
  import opened Retrieval
  import opened QueryBudget
  import opened ContextRecord
  import opened AgentRun
  import opened AgentProperties
  import opened SearchMeaning

  // ----- the usable queries

  /** The k-th query is not blank, not excluded, and no earlier one is the same up to case and spacing. */
  ghost predicate IsFresh(fold: Casefold, queries: seq<string>, from: nat, excluded: set<string>, k: nat)
    requires k < |queries|
  {
    var q := Collapse(queries[k]);
    && q != "" && fold(q) !in excluded
    && forall j :: from <= j < k ==> Collapse(queries[j]) == "" || fold(Collapse(queries[j])) != fold(q)
  }

  /** The collapsed queries at these positions, which are all the fresh ones, in order. */
  ghost predicate AreFresh(fold: Casefold, queries: seq<string>, from: nat, excluded: set<string>, usable: seq<string>, at: seq<nat>) {
    && |at| == |usable| && (forall i, j :: 0 <= i < j < |at| ==> at[i] < at[j])
    && (forall i :: 0 <= i < |at| ==>
          from <= at[i] < |queries| && IsFresh(fold, queries, from, excluded, at[i]) && usable[i] == Collapse(queries[at[i]]))
    && (forall k :: from <= k < |queries| && IsFresh(fold, queries, from, excluded, k) ==> k in at)
  }

  lemma {:induction false} UsableAreFresh(fold: Casefold, queries: seq<string>, i: nat, seen: set<string>) returns (at: seq<nat>)
    requires i <= |queries|
    ensures AreFresh(fold, queries, i, seen, Usable(fold, queries, i, seen), at)
    decreases |queries| - i
  {
    hide Collapse;
    hide AreFresh;
    if i == |queries| {
      at := [];
      assert AreFresh(fold, queries, i, seen, [], []) by { NothingFresh(fold, queries, seen); }
    } else if IsUsable(fold, queries[i], seen) {
      var q := Collapse(queries[i]);
      var later := UsableAreFresh(fold, queries, i + 1, seen + {fold(q)});
      at := [i] + later;
      FreshFirst(fold, queries, i, seen, Usable(fold, queries, i + 1, seen + {fold(q)}), later);
    } else {
      at := UsableAreFresh(fold, queries, i + 1, seen);
      StaleFirst(fold, queries, i, seen, Usable(fold, queries, i + 1, seen), at);
    }
  }

  lemma NothingFresh(fold: Casefold, queries: seq<string>, seen: set<string>)
    ensures AreFresh(fold, queries, |queries|, seen, [], [])
  {
  }

  lemma FreshFirst(fold: Casefold, queries: seq<string>, i: nat, seen: set<string>, rest: seq<string>, later: seq<nat>)
    requires i < |queries| && IsUsable(fold, queries[i], seen)
    requires AreFresh(fold, queries, i + 1, seen + {fold(Collapse(queries[i]))}, rest, later)
    ensures AreFresh(fold, queries, i, seen, [Collapse(queries[i])] + rest, [i] + later)
  {
    hide Collapse;
    var more, at := seen + {fold(Collapse(queries[i]))}, [i] + later;
    forall k | i < k < |queries|
      ensures IsFresh(fold, queries, i + 1, more, k) <==> IsFresh(fold, queries, i, seen, k)
    {
    }
    assert at[0] == i && forall x :: x in later ==> x in at;
    forall k | i <= k < |queries| && IsFresh(fold, queries, i, seen, k) ensures k in at {
      if k > i { assert IsFresh(fold, queries, i + 1, more, k); }
    }
    forall j | 0 <= j < |at|
      ensures i <= at[j] < |queries| && IsFresh(fold, queries, i, seen, at[j]) && ([Collapse(queries[i])] + rest)[j] == Collapse(queries[at[j]])
    {
      if j > 0 { assert at[j] == later[j - 1]; }
    }
  }

  lemma StaleFirst(fold: Casefold, queries: seq<string>, i: nat, seen: set<string>, rest: seq<string>, at: seq<nat>)
    requires i < |queries| && !IsUsable(fold, queries[i], seen) && AreFresh(fold, queries, i + 1, seen, rest, at)
    ensures AreFresh(fold, queries, i, seen, rest, at)
  {
    hide Collapse;
    forall k | i < k < |queries| ensures IsFresh(fold, queries, i + 1, seen, k) <==> IsFresh(fold, queries, i, seen, k) { }
  }

  /** The first usable queries, at most so many: fresh ones, in order, none of them executed before. */
  ghost predicate AreFirstUsable(a: Agent, proposed: seq<string>, executed: seq<string>, r: seq<string>) {
    exists usable: seq<string>, at: seq<nat> ::
      && AreFresh(a.fold, proposed, 0, Folds(a.fold, executed), usable, at)
      && r == usable[..Min(|usable|, a.limits.maxQueries)]
  }

  lemma ClippedAreFirst(a: Agent, proposed: seq<string>, executed: seq<string>)
    ensures AreFirstUsable(a, proposed, executed, Clip(Usable(a.fold, proposed, 0, Folds(a.fold, executed)), a.limits.maxQueries))
  {
    hide AreFresh;
    hide Folds;
    hide Usable;
    var usable := Usable(a.fold, proposed, 0, Folds(a.fold, executed));
    var at := UsableAreFresh(a.fold, proposed, 0, Folds(a.fold, executed));
    assert Clip(usable, a.limits.maxQueries) == usable[..Min(|usable|, a.limits.maxQueries)];
  }

  // ----- one search

  /** The share is an equal one of what is left, rounded up. */
  predicate IsShare(share: nat, left: nat, parts: nat) {
    share * parts >= left && (share > 0 ==> (share - 1) * parts < left)
  }

  lemma CeilIsShare(left: nat, parts: nat)
    requires parts > 0
    ensures IsShare(CeilDiv(left, parts), left, parts)
  {
    var q := (left + parts - 1) / parts;
    assert q * parts <= left + parts - 1 < (q + 1) * parts;
    assert (q + 1) * parts == q * parts + parts;
    if q > 0 { assert (q - 1) * parts == q * parts - parts; }
  }

  /** The search with this limit led from the one state to the other. */
  ghost predicate IsSearch(search: Search, n: nat, before: State, step: Step, after: State) {
    var hits := search(n, step.query, step.requestedLimit);
    && step.known == |before.retrieved| && step.requestedLimit == step.quota + step.known
    && Ids(after.retrieved) == Ids(before.retrieved) + step.accepted
    && !HasContradiction(before, hits, 0, step.quota)
    && exists c :: 0 <= c <= |hits| && StopsAt(Ids(before.retrieved), hits, 0, c, step.quota) && HasTaken(before, hits, 0, c, step.query, after)
  }

  lemma OneSearch(search: Search, p: Progress, query: string, quota: nat, maxHits: nat)
    requires quota + Known(p) <= maxHits && SearchOnce(search, p, query, quota, maxHits).Ok?
    ensures var r := SearchOnce(search, p, query, quota, maxHits).value;
            && r.rounds == p.rounds && |r.steps| == |p.steps| + 1 && p.steps <= r.steps
            && r.steps[|p.steps|].query == query && r.steps[|p.steps|].quota == quota
            && IsSearch(search, |p.steps|, p.state, r.steps[|p.steps|], r.state)
  {
    hide Accept;
    hide Ids;
    hide StopsAt;
    hide HasTaken;
    hide HasContradiction;
    var hits := search(|p.steps|, query, quota + Known(p));
    var c := AcceptMeaning(p.state, hits, 0, quota, query);
    AcceptAppends(p.state, hits, 0, quota, query);
    var next := Accept(p.state, hits, 0, quota, query).value;
    LengthOfIds(p.state.retrieved);
    LengthOfIds(next.retrieved);
    assert Ids(next.retrieved) == Ids(p.state.retrieved) + Ids(next.retrieved)[Known(p)..];
  }

  // ----- one round

  /** The j-th search of a round with this target and these queries. */
  ghost predicate IsSearchOf(search: Search, n: nat, before: State, step: Step, after: State, queries: seq<string>, j: nat, target: nat)
    requires j < |queries|
  {
    && step.query == queries[j] && |before.retrieved| < target
    && IsShare(step.quota, target - |before.retrieved|, |queries| - j) && IsSearch(search, n, before, step, after)
  }

  /** The searches of a round, one for each of its queries, until the target is reached. */
  ghost predicate IsRound(search: Search, first: nat, steps: seq<Step>, states: seq<State>, queries: seq<string>, from: nat, target: nat) {
    && |states| == |steps| + 1 && from + |steps| <= |queries|
    && (forall j :: 0 <= j < |steps| ==> IsSearchOf(search, first + j, states[j], steps[j], states[j + 1], queries, from + j, target))
    && (from + |steps| < |queries| ==> |states[|steps|].retrieved| >= target)
  }

  lemma QuotaIsShare(remaining: nat, queries: nat)
    requires remaining > 0 && queries > 0
    ensures IsShare(Quota(remaining, queries), remaining, queries)
  {
    CeilDivBounds(remaining, queries);
    CeilIsShare(remaining, queries);
  }

  lemma {:induction false} RoundIs(search: Search, p: Progress, queries: seq<string>, i: nat, target: nat, maxHits: nat)
    returns (states: seq<State>)
    requires i <= |queries| && Keyed(p.state.retrieved) && Known(p) <= target <= maxHits
    requires RoundFrom(search, p, queries, i, target, maxHits).Ok?
    ensures var r := RoundFrom(search, p, queries, i, target, maxHits).value;
            && p.steps <= r.steps && r.rounds == p.rounds
            && IsRound(search, |p.steps|, r.steps[|p.steps|..], states, queries, i, target)
            && states[0] == p.state && states[|states| - 1] == r.state
    decreases |queries| - i
  {
    hide SearchOnce;
    hide Keyed;
    hide IsSearch;
    hide IsShare;
    hide WithinBudget;
    var r := RoundFrom(search, p, queries, i, target, maxHits).value;
    var n := |p.steps|;
    if i == |queries| || Known(p) >= target {
      states := [p.state];
      assert r.steps[n..] == [];
    } else {
      var remaining := target - Known(p);
      CeilDivBounds(remaining, |queries| - i);
      QuotaIsShare(remaining, |queries| - i);
      var quota := Quota(remaining, |queries| - i);
      SearchOnceCorrect(search, _ => "", p, queries[i], quota, maxHits);
      OneSearch(search, p, queries[i], quota, maxHits);
      var next := SearchOnce(search, p, queries[i], quota, maxHits).value;
      var later := RoundIs(search, next, queries, i + 1, target, maxHits);
      states := [p.state] + later;
      PrependSearch(search, n, p.state, next.steps[n], later, r.steps[n + 1..], queries, i, target);
      assert r.steps[n..] == [next.steps[n]] + r.steps[n + 1..];
    }
  }

  lemma PrependSearch(search: Search, first: nat, before: State, step: Step, later: seq<State>, steps: seq<Step>, queries: seq<string>, i: nat, target: nat)
    requires i < |queries| && later != [] && IsRound(search, first + 1, steps, later, queries, i + 1, target)
    requires IsSearchOf(search, first, before, step, later[0], queries, i, target)
    ensures IsRound(search, first, [step] + steps, [before] + later, queries, i, target)
  {
    hide IsSearchOf;
    var all, states := [step] + steps, [before] + later;
    forall j | 0 <= j < |all| ensures IsSearchOf(search, first + j, states[j], all[j], states[j + 1], queries, i + j, target) {
      if j > 0 {
        assert all[j] == steps[j - 1] && states[j] == later[j - 1] && states[j + 1] == later[j];
        assert first + j == first + 1 + (j - 1) && i + j == i + 1 + (j - 1);
      }
    }
  }

  // ----- the whole run

  /** What the reasoner answered after a round, when it had seen the context of that round's end. */
  ghost predicate IsAnswer(a: Agent, w: World, round: nat, st: State, answer: Coverage) {
    && ExpansionOf(w, round, st).Ok?
    && answer == w.coverage(round, ListJson(RecordsOf(a, st, ExpansionOf(w, round, st).value)))
  }

  /** The course of a run so far: for each round the queries it was given, the states before and after its
      searches, and the reasoner's answer. */
  datatype Course = Course(asked: seq<seq<string>>, states: seq<seq<State>>, answers: seq<Coverage>)

  /** The queries executed in the first k rounds. */
  function ExecutedBefore(p: Progress, k: nat): (queries: seq<string>)
    requires k <= |p.rounds| && SearchesUpTo(p.rounds, k) <= |p.steps|
  {
    StepQueries(p.steps[..SearchesUpTo(p.rounds, k)])
  }

  /** Round k: its budget is an equal share of the hits left, its searches follow its queries, and the
      reasoner answers at its end. */
  ghost predicate IsRoundOf(a: Agent, w: World, p: Progress, course: Course, k: nat)
    requires k < |p.rounds| <= a.limits.maxRounds && |course.asked| == |course.states| == |course.answers| == |p.rounds|
  {
    var first, next, round, states := SearchesUpTo(p.rounds, k), SearchesUpTo(p.rounds, k + 1), p.rounds[k], course.states[k];
    && first <= next <= |p.steps| && states != []
    && round.before == |states[0].retrieved| < a.limits.maxHits && round.after == |states[|states| - 1].retrieved|
    && IsShare(round.budget, a.limits.maxHits - round.before, a.limits.maxRounds - k)
    && course.asked[k] != []
    && IsRound(w.search, first, p.steps[first..next], states, course.asked[k], 0, round.before + round.budget)
    && IsAnswer(a, w, k + 1, states[|states| - 1], course.answers[k])
  }

  /** A round that was not the last one: the reasoner asked for more, and the next round starts where this
      one ended, with the first usable ones of its queries. */
  ghost predicate IsFollowed(a: Agent, p: Progress, course: Course, k: nat)
    requires k + 1 < |p.rounds| && |course.asked| == |course.states| == |course.answers| == |p.rounds|
    requires SearchesUpTo(p.rounds, k + 1) <= |p.steps|
  {
    && !course.answers[k].finish
    && AreFirstUsable(a, course.answers[k].additional, ExecutedBefore(p, k + 1), course.asked[k + 1])
    && course.states[k] != [] && course.states[k + 1] != []
    && course.states[k + 1][0] == course.states[k][|course.states[k]| - 1]
  }

  ghost predicate HasShape(p: Progress, course: Course) {
    && |course.asked| == |course.states| == |course.answers| == |p.rounds|
    && (forall k :: 0 <= k < |course.states| ==> course.states[k] != [])
  }

  ghost predicate AllRounds(a: Agent, w: World, p: Progress, course: Course)
    requires HasShape(p, course) && |p.rounds| <= a.limits.maxRounds
  {
    forall k :: 0 <= k < |p.rounds| ==> IsRoundOf(a, w, p, course, k)
  }

  ghost predicate AllFollowed(a: Agent, p: Progress, course: Course)
    requires HasShape(p, course)
  {
    forall k: nat :: k + 1 < |p.rounds| ==> IsFollowedAt(a, p, course, k)
  }

  ghost predicate IsFollowedAt(a: Agent, p: Progress, course: Course, k: nat)
    requires k + 1 < |p.rounds| && HasShape(p, course)
  {
    SearchesUpTo(p.rounds, k + 1) <= |p.steps| && IsFollowed(a, p, course, k)
  }

  /** The first round starts with nothing and the first usable proposed queries. */
  ghost predicate HasStart(a: Agent, proposed: seq<string>, course: Course) {
    course.asked != [] && AreFirstUsable(a, proposed, [], course.asked[0])
    && course.states != [] && course.states[0] != [] && course.states[0][0] == START.state
  }

  ghost predicate HasEnd(p: Progress, course: Course) {
    var n := |course.states|;
    n > 0 && course.states[n - 1] != [] && p.state == course.states[n - 1][|course.states[n - 1]| - 1]
  }

  ghost predicate IsCourse(a: Agent, w: World, proposed: seq<string>, p: Progress, course: Course) {
    && |p.rounds| <= a.limits.maxRounds && HasShape(p, course) && SearchesUpTo(p.rounds, |p.rounds|) == |p.steps|
    && AllRounds(a, w, p, course) && AllFollowed(a, p, course)
    && if p.rounds == [] then p.state == START.state else HasStart(a, proposed, course) && HasEnd(p, course)
  }

  /** Why a run is over: no round or hit is left, or the reasoner was satisfied, or it had no new query. */
  ghost predicate IsOver(a: Agent, p: Progress, course: Course)
    requires |course.answers| == |p.rounds|
  {
    || |p.rounds| == a.limits.maxRounds || Known(p) >= a.limits.maxHits
    || (|p.rounds| > 0 && (course.answers[|p.rounds| - 1].finish
                           || AreFirstUsable(a, course.answers[|p.rounds| - 1].additional, StepQueries(p.steps), [])))
  }

  /** One more round, its queries, states and answer. */
  function Extended(course: Course, asked: seq<string>, states: seq<State>, answer: Coverage): (r: Course) {
    Course(course.asked + [asked], course.states + [states], course.answers + [answer])
  }

  /** q continues p by one round. */
  ghost predicate AddsRound(p: Progress, q: Progress) {
    && |q.rounds| == |p.rounds| + 1 && p.rounds == q.rounds[..|p.rounds|] && p.steps <= q.steps
    && SearchesUpTo(p.rounds, |p.rounds|) == |p.steps| && SearchesUpTo(q.rounds, |q.rounds|) == |q.steps|
  }

  lemma SearchesStay(p: Progress, q: Progress, k: nat)
    requires AddsRound(p, q) && k <= |p.rounds|
    ensures SearchesUpTo(q.rounds, k) == SearchesUpTo(p.rounds, k) <= |p.steps|
  {
    var last := q.rounds[|p.rounds|];
    assert q.rounds == p.rounds + [last];
    SearchesOfMore(p.rounds, last, k);
    SearchesGrow(p.rounds, k, |p.rounds|);
  }

  lemma {:induction false} SearchesGrow(rounds: seq<Round>, j: nat, k: nat)
    requires j <= k <= |rounds|
    ensures SearchesUpTo(rounds, j) <= SearchesUpTo(rounds, k)
    decreases k
  {
    if j < k { SearchesGrow(rounds, j, k - 1); }
  }

  lemma RoundStays(a: Agent, w: World, p: Progress, q: Progress, course: Course, more: Course, k: nat)
    requires AddsRound(p, q) && k < |p.rounds| && |q.rounds| <= a.limits.maxRounds
    requires |course.asked| == |course.states| == |course.answers| == |p.rounds|
    requires |more.asked| == |more.states| == |more.answers| == |q.rounds|
    requires more.asked[k] == course.asked[k] && more.states[k] == course.states[k] && more.answers[k] == course.answers[k]
    requires IsRoundOf(a, w, p, course, k)
    ensures IsRoundOf(a, w, q, more, k)
  {
    hide IsRound;
    hide IsAnswer;
    hide IsShare;
    SearchesStay(p, q, k);
    SearchesStay(p, q, k + 1);
    var first, next := SearchesUpTo(p.rounds, k), SearchesUpTo(p.rounds, k + 1);
    assert q.steps[first..next] == p.steps[first..next];
    assert q.rounds[k] == p.rounds[k];
  }

  lemma FollowStays(a: Agent, p: Progress, q: Progress, course: Course, more: Course, k: nat)
    requires AddsRound(p, q) && k + 1 < |p.rounds|
    requires |course.asked| == |course.states| == |course.answers| == |p.rounds|
    requires |more.asked| == |more.states| == |more.answers| == |q.rounds|
    requires more.asked[k + 1] == course.asked[k + 1] && more.answers[k] == course.answers[k]
    requires more.states[k] == course.states[k] && more.states[k + 1] == course.states[k + 1]
    requires SearchesUpTo(p.rounds, k + 1) <= |p.steps| && IsFollowed(a, p, course, k)
    ensures SearchesUpTo(q.rounds, k + 1) <= |q.steps| && IsFollowed(a, q, more, k)
  {
    hide AreFirstUsable;
    SearchesStay(p, q, k + 1);
    var next := SearchesUpTo(p.rounds, k + 1);
    assert q.steps[..next] == p.steps[..next];
  }

  /** The queries ready for the next round are the first usable ones of what was proposed, or of what the
      reasoner asked for; there are none when the run is over. */
  ghost predicate IsPending(a: Agent, proposed: seq<string>, p: Progress, course: Course, pending: seq<string>)
    requires |course.answers| == |p.rounds|
  {
    if p.rounds == [] then pending != [] && AreFirstUsable(a, proposed, [], pending)
    else
      var last := course.answers[|p.rounds| - 1];
      if last.finish || |p.rounds| == a.limits.maxRounds || Known(p) >= a.limits.maxHits then pending == []
      else AreFirstUsable(a, last.additional, StepQueries(p.steps), pending)
  }

  lemma PendingEmptyIsOver(a: Agent, proposed: seq<string>, p: Progress, course: Course, pending: seq<string>)
    requires |course.answers| == |p.rounds| && IsPending(a, proposed, p, course, pending)
    requires pending == [] || |p.rounds| == a.limits.maxRounds || Known(p) >= a.limits.maxHits
    ensures IsOver(a, p, course)
  {
    hide AreFirstUsable;
  }

  /** The round that was just run. */
  lemma NewRound(a: Agent, w: World, p: Progress, pending: seq<string>, course: Course, answer: Coverage) returns (states: seq<State>)
    requires GoodProgress(a, p) && GoodPending(a, p.steps, pending) && pending != []
    requires |p.rounds| < a.limits.maxRounds && Known(p) < a.limits.maxHits
    requires SearchRound(a, w, p, pending, |p.rounds| + 1).Ok?
    requires IsAnswer(a, w, |p.rounds| + 1, SearchRound(a, w, p, pending, |p.rounds| + 1).value.state, answer)
    requires |course.asked| == |course.states| == |course.answers| == |p.rounds|
    ensures var q := SearchRound(a, w, p, pending, |p.rounds| + 1).value;
            && AddsRound(p, q) && states != [] && states[0] == p.state && states[|states| - 1] == q.state
            && IsRoundOf(a, w, q, Extended(course, pending, states, answer), |p.rounds|)
  {
    hide RoundFrom;
    hide Keyed;
    hide WithinBudget;
    hide FoldDistinct;
    hide GoodPending;
    hide IsRound;
    hide IsAnswer;
    hide IsShare;
    hide CeilDiv;
    hide GoodRounds;
    var n := |p.rounds|;
    SearchRoundKeeps(a, w, _ => "", p, pending);
    var q := SearchRound(a, w, p, pending, n + 1).value;
    var budget := RoundBudget(a, p, n + 1);
    CeilDivBounds(a.limits.maxHits - Known(p), a.limits.maxRounds - n);
    CeilIsShare(a.limits.maxHits - Known(p), a.limits.maxRounds - n);
    states := RoundIs(w.search, p, pending, 0, Known(p) + budget, a.limits.maxHits);
    assert q.rounds == p.rounds + [RoundOf(budget, p, q)];
    RoundShape(w.search, |p.steps|, q.steps[|p.steps|..], states, pending, 0, Known(p) + budget);
    SearchesOfMore(p.rounds, q.rounds[n], n);
    SearchesStay(p, q, n);
    assert q.steps[|p.steps|..|q.steps|] == q.steps[|p.steps|..];
  }

  lemma RoundShape(search: Search, first: nat, steps: seq<Step>, states: seq<State>, queries: seq<string>, from: nat, target: nat)
    requires IsRound(search, first, steps, states, queries, from, target)
    ensures |states| == |steps| + 1
  {
  }

  lemma ExtendedIsCourse(a: Agent, w: World, proposed: seq<string>, p: Progress, q: Progress, course: Course, pending: seq<string>, states: seq<State>, answer: Coverage)
    requires IsCourse(a, w, proposed, p, course) && IsPending(a, proposed, p, course, pending) && pending != []
    requires AddsRound(p, q) && |q.rounds| <= a.limits.maxRounds && Known(p) < a.limits.maxHits
    requires states != [] && states[0] == p.state && states[|states| - 1] == q.state
    requires IsRoundOf(a, w, q, Extended(course, pending, states, answer), |p.rounds|)
    ensures IsCourse(a, w, proposed, q, Extended(course, pending, states, answer))
  {
    hide IsRoundOf;
    hide AreFirstUsable;
    hide IsFollowed;
    hide AllRounds;
    hide AllFollowed;
    var more := Extended(course, pending, states, answer);
    RoundsStay(a, w, p, q, course, more);
    FollowedStay(a, proposed, p, q, course, more, pending);
    assert HasShape(q, more) && HasEnd(q, more);
    assert HasStart(a, proposed, more) by {
      if p.rounds != [] { assert more.asked[0] == course.asked[0] && more.states[0] == course.states[0]; }
    }
  }

  lemma RoundsStay(a: Agent, w: World, p: Progress, q: Progress, course: Course, more: Course)
    requires AddsRound(p, q) && |q.rounds| <= a.limits.maxRounds && HasShape(p, course) && HasShape(q, more)
    requires course.asked <= more.asked && course.states <= more.states && course.answers <= more.answers
    requires AllRounds(a, w, p, course) && IsRoundOf(a, w, q, more, |p.rounds|)
    ensures AllRounds(a, w, q, more)
  {
    hide IsRoundOf;
    forall k | 0 <= k < |q.rounds| ensures IsRoundOf(a, w, q, more, k) {
      if k < |p.rounds| { RoundStays(a, w, p, q, course, more, k); }
    }
  }

  lemma FollowedStay(a: Agent, proposed: seq<string>, p: Progress, q: Progress, course: Course, more: Course, pending: seq<string>)
    requires AddsRound(p, q) && |q.rounds| <= a.limits.maxRounds && Known(p) < a.limits.maxHits && HasShape(p, course) && HasShape(q, more)
    requires course.asked <= more.asked && course.states <= more.states && course.answers <= more.answers
    requires AllFollowed(a, p, course) && IsPending(a, proposed, p, course, pending) && pending != []
    requires more.asked[|p.rounds|] == pending && more.states[|p.rounds|][0] == p.state
    requires p.rounds != [] ==> HasEnd(p, course)
    ensures AllFollowed(a, q, more)
  {
    hide IsFollowed;
    hide AreFirstUsable;
    hide IsPending;
    forall k: nat | k + 1 < |q.rounds| ensures IsFollowedAt(a, q, more, k) {
      SearchesStay(p, q, k + 1);
      if k < |p.rounds| - 1 {
        assert IsFollowedAt(a, p, course, k);
        FollowStays(a, p, q, course, more, k);
      } else {
        LastIsFollowed(a, proposed, p, q, course, more, pending);
      }
    }
  }

  lemma LastIsFollowed(a: Agent, proposed: seq<string>, p: Progress, q: Progress, course: Course, more: Course, pending: seq<string>)
    requires AddsRound(p, q) && p.rounds != [] && |p.rounds| < a.limits.maxRounds && Known(p) < a.limits.maxHits
    requires |course.asked| == |course.states| == |course.answers| == |p.rounds|
    requires |more.asked| == |more.states| == |more.answers| == |q.rounds|
    requires IsPending(a, proposed, p, course, pending) && pending != []
    requires var n := |p.rounds|;
             && more.asked[n] == pending && more.answers[n - 1] == course.answers[n - 1] && more.states[n - 1] == course.states[n - 1]
             && course.states[n - 1] != [] && course.states[n - 1][|course.states[n - 1]| - 1] == p.state
             && more.states[n] != [] && more.states[n][0] == p.state
    requires SearchesUpTo(q.rounds, |p.rounds|) <= |q.steps|
    ensures IsFollowed(a, q, more, |p.rounds| - 1)
  {
    hide AreFirstUsable;
    SearchesStay(p, q, |p.rounds|);
    assert q.steps[..|p.steps|] == p.steps;
  }

  lemma NextIsPending(a: Agent, w: World, proposed: seq<string>, q: Progress, e: Expansion, course: Course)
    requires |course.answers| == |q.rounds| > 0
    requires course.answers[|q.rounds| - 1] == w.coverage(|q.rounds|, ListJson(RecordsOf(a, q.state, e)))
    ensures IsPending(a, proposed, q, course, NextQueries(a, w, q, e, |q.rounds|))
  {
    hide AreFirstUsable;
    hide Usable;
    hide Clip;
    hide RecordsOf;
    hide ListJson;
    ClippedAreFirst(a, course.answers[|q.rounds| - 1].additional, StepQueries(q.steps));
  }

  /** The whole course of a run that ended. */
  ghost predicate IsWholeCourse(a: Agent, w: World, proposed: seq<string>, p: Progress, course: Course) {
    IsCourse(a, w, proposed, p, course) && |course.answers| == |p.rounds| && IsOver(a, p, course)
  }

  lemma OneMoreRound(a: Agent, w: World, proposed: seq<string>, p: Progress, pending: seq<string>, course: Course, e: Expansion) returns (more: Course)
    requires GoodProgress(a, p) && GoodPending(a, p.steps, pending) && pending != []
    requires |p.rounds| < a.limits.maxRounds && Known(p) < a.limits.maxHits
    requires IsCourse(a, w, proposed, p, course) && |course.answers| == |p.rounds| && IsPending(a, proposed, p, course, pending)
    requires SearchRound(a, w, p, pending, |p.rounds| + 1).Ok?
    requires ExpansionOf(w, |p.rounds| + 1, SearchRound(a, w, p, pending, |p.rounds| + 1).value.state) == Ok(e)
    ensures var q := SearchRound(a, w, p, pending, |p.rounds| + 1).value;
            && GoodProgress(a, q) && |q.rounds| == |p.rounds| + 1 == |more.answers|
            && GoodPending(a, q.steps, NextQueries(a, w, q, e, |q.rounds|))
            && IsCourse(a, w, proposed, q, more) && IsPending(a, proposed, q, more, NextQueries(a, w, q, e, |q.rounds|))
  {
    hide GoodProgress;
    hide GoodPending;
    hide SearchRound;
    hide ExpansionOf;
    hide NextQueries;
    hide IsCourse;
    hide IsPending;
    hide IsRoundOf;
    hide RecordsOf;
    hide ListJson;
    var round := |p.rounds| + 1;
    CourseShape(a, w, proposed, p, course);
    SearchRoundKeeps(a, w, _ => "", p, pending);
    var q := SearchRound(a, w, p, pending, round).value;
    var answer := w.coverage(round, ListJson(RecordsOf(a, q.state, e)));
    var states := NewRound(a, w, p, pending, course, answer);
    more := Extended(course, pending, states, answer);
    ExtendedIsCourse(a, w, proposed, p, q, course, pending, states, answer);
    NextIsPending(a, w, proposed, q, e, more);
    NextQueriesArePending(a, w, q, e, round);
  }

  lemma {:induction false} RetrieveFromIs(a: Agent, w: World, proposed: seq<string>, p: Progress, pending: seq<string>, course: Course)
    returns (whole: Course)
    requires GoodProgress(a, p) && GoodPending(a, p.steps, pending) && |p.rounds| <= a.limits.maxRounds
    requires IsCourse(a, w, proposed, p, course) && |course.answers| == |p.rounds| && IsPending(a, proposed, p, course, pending)
    ensures var r := RetrieveFrom(a, w, p, pending, |p.rounds| + 1);
            r.Ok? ==> IsWholeCourse(a, w, proposed, r.value, whole)
    decreases a.limits.maxRounds - |p.rounds|
  {
    hide GoodProgress;
    hide GoodPending;
    hide SearchRound;
    hide ExpansionOf;
    hide NextQueries;
    hide IsCourse;
    hide IsPending;
    hide IsOver;
    whole := course;
    var round := |p.rounds| + 1;
    assert Known(p) <= a.limits.maxHits by { RespectsBudget(a, p); }
    if round > a.limits.maxRounds || pending == [] || Known(p) >= a.limits.maxHits {
      PendingEmptyIsOver(a, proposed, p, course, pending);
    } else {
      var next := SearchRound(a, w, p, pending, round);
      if next.Ok? && ExpansionOf(w, round, next.value.state).Ok? {
        var e := ExpansionOf(w, round, next.value.state).value;
        var more := OneMoreRound(a, w, proposed, p, pending, course, e);
        whole := RetrieveFromIs(a, w, proposed, next.value, NextQueries(a, w, next.value, e, round), more);
      }
    }
  }

  lemma CourseShape(a: Agent, w: World, proposed: seq<string>, p: Progress, course: Course)
    requires IsCourse(a, w, proposed, p, course)
    ensures |course.asked| == |course.states| == |course.answers| == |p.rounds|
  {
  }

  const NOTHING_YET: Course := Course([], [], [])

  /** Every run that ends well has a course, from the proposed queries on: each round runs the first usable
      queries it was given, with equal shares of its budget, until the budget is used; a next round follows
      with the first usable queries of the reasoner's answer; and the run is over only when it has to be. */
  lemma RunHasCourse(a: Agent, w: World, proposed: seq<string>) returns (course: Course)
    requires Retrieve(a, w, proposed).Ok?
    ensures IsWholeCourse(a, w, proposed, Retrieve(a, w, proposed).value, course)
  {
    hide Usable;
    hide Clip;
    hide RetrieveFrom;
    hide GoodPending;
    hide GoodProgress;
    hide AreFirstUsable;
    FirstQueries(a, proposed);
    NothingDone(a, _ => "");
    assert Folds(a.fold, []) == {};
    ClippedAreFirst(a, proposed, []);
    course := RetrieveFromIs(a, w, proposed, START, Clip(Usable(a.fold, proposed, 0, {}), a.limits.maxQueries), NOTHING_YET);
  }

  /** When no usable query was found, none may be run or every one is blank or was executed before. */
  lemma NoneUsable(a: Agent, proposed: seq<string>, executed: seq<string>)
    requires AreFirstUsable(a, proposed, executed, [])
    ensures a.limits.maxQueries == 0 || forall k :: 0 <= k < |proposed| ==>
              Collapse(proposed[k]) == "" || a.fold(Collapse(proposed[k])) in Folds(a.fold, executed)
  {
    hide Collapse;
    hide Folds;
    var usable, at :| AreFresh(a.fold, proposed, 0, Folds(a.fold, executed), usable, at) && [] == usable[..Min(|usable|, a.limits.maxQueries)];
    if a.limits.maxQueries > 0 {
      assert |usable| == 0;
      forall k | 0 <= k < |proposed|
        ensures Collapse(proposed[k]) == "" || a.fold(Collapse(proposed[k])) in Folds(a.fold, executed)
      {
        NothingFreshBefore(a.fold, proposed, Folds(a.fold, executed), k);
      }
    }
  }

  lemma {:induction false} NothingFreshBefore(fold: Casefold, queries: seq<string>, excluded: set<string>, k: nat)
    requires k < |queries| && forall j :: 0 <= j < |queries| ==> !IsFresh(fold, queries, 0, excluded, j)
    ensures Collapse(queries[k]) == "" || fold(Collapse(queries[k])) in excluded
    decreases k
  {
    hide Collapse;
    var q := Collapse(queries[k]);
    assert !IsFresh(fold, queries, 0, excluded, k);
    if q != "" && fold(q) !in excluded {
      var j :| 0 <= j < k && Collapse(queries[j]) != "" && fold(Collapse(queries[j])) == fold(q);
      NothingFreshBefore(fold, queries, excluded, j);
    }
  }

  /** A run that ends although rounds and hits are left ends because the reasoner was satisfied after its last
      round, or no query may be run, or all the queries it asked for are blank or were executed before. */
  lemma EndsEarlyOnlyWhenSatisfied(a: Agent, w: World, proposed: seq<string>) returns (answer: Coverage, st: State)
    requires Retrieve(a, w, proposed).Ok?
    requires var p := Retrieve(a, w, proposed).value; 0 < |p.rounds| < a.limits.maxRounds && Known(p) < a.limits.maxHits
    ensures var p := Retrieve(a, w, proposed).value;
            && st == p.state && IsAnswer(a, w, |p.rounds|, p.state, answer)
            && (answer.finish || a.limits.maxQueries == 0
                || forall k :: 0 <= k < |answer.additional| ==>
                     Collapse(answer.additional[k]) == "" || a.fold(Collapse(answer.additional[k])) in Folds(a.fold, StepQueries(p.steps)))
  {
    hide Retrieve;
    hide IsAnswer;
    hide AreFirstUsable;
    hide IsRound;
    hide IsShare;
    hide IsFollowed;
    hide Collapse;
    hide Folds;
    var p := Retrieve(a, w, proposed).value;
    var course := RunHasCourse(a, w, proposed);
    var last := |p.rounds| - 1;
    answer, st := course.answers[last], p.state;
    assert IsRoundOf(a, w, p, course, last);
    if !answer.finish { NoneUsable(a, answer.additional, StepQueries(p.steps)); }
  }
}
