/** The loop of `BoundedEvidenceAgent.run` in src/soloscale/evidence_agent.py: rounds of retrieval
    under one hit budget, until the reasoner is satisfied or a budget ends. */
module AgentRun {
  import opened Wrappers
  import opened PyText
  import opened Retrieval
  import opened QueryBudget
  import opened ContextRecord
  import opened ContextBuilder

  datatype Limits = Limits(maxRounds: nat, maxQueries: nat, maxHits: nat)

  datatype Coverage = Coverage(finish: bool, additional: seq<string>)

  datatype Claim = Claim(text: string, evidence: seq<string>)

  /** Everything the run is told from outside, as answers to its successive calls: the n-th search, the
      neighbours of the k-th retrieved chunk in the n-th expansion (0 is the last one), the coverage
      decision of a round, the draft, and the cited chunks as the store holds them at the end.  Any
      answers are possible. */
  datatype World = World(
    search: Search,
    neighbors: (nat, nat) -> seq<Hit>,
    coverage: (nat, string) -> Coverage,
    draft: string -> seq<Claim>,
    current: seq<string> -> seq<Hit>)

  /** The constructor's limits, the context configuration and the casefolding. */
  datatype Agent = Agent(limits: Limits, context: Config, fold: Casefold)

  function NeighborsOf(w: World, n: nat, count: nat): (r: seq<seq<Hit>>)
    ensures |r| == count
  {
    seq(count, k requires 0 <= k < count => w.neighbors(n, k))
  }

  function ContextConfig(a: Agent, st: State): (c: Config) {
    a.context.(queries := st.focus)
  }

  function ExpansionOf(w: World, n: nat, st: State): (e: Result<Expansion, AgentError>) {
    Expand(st.retrieved, NeighborsOf(w, n, |st.retrieved|))
  }

  function RecordsOf(a: Agent, st: State, e: Expansion): (r: seq<Record>) {
    ContextRecords(ContextConfig(a, st), e, IdSet(st.retrieved))
  }

  /** The follow-up queries of a round: usable, not yet executed, at most the configured number. */
  function FollowUps(a: Agent, p: Progress, additional: seq<string>): (queries: seq<string>) {
    Clip(Usable(a.fold, additional, 0, Folds(a.fold, StepQueries(p.steps))), a.limits.maxQueries)
  }

  function RoundBudget(a: Agent, p: Progress, round: nat): (b: nat)
    requires round <= a.limits.maxRounds && Known(p) <= a.limits.maxHits
  {
    CeilDiv(a.limits.maxHits - Known(p), a.limits.maxRounds - round + 1)
  }

  function RoundOf(budget: nat, before: Progress, after: Progress): (r: Round) {
    Round(budget, Known(before), Known(after), if |after.steps| >= |before.steps| then |after.steps| - |before.steps| else 0)
  }

  /** One round of searching, recorded. */
  function SearchRound(a: Agent, w: World, p: Progress, pending: seq<string>, round: nat): (r: Result<Progress, AgentError>)
    requires round <= a.limits.maxRounds && Known(p) <= a.limits.maxHits
  {
    var budget := RoundBudget(a, p, round);
    var r := RoundFrom(w.search, p, pending, 0, Known(p) + budget, a.limits.maxHits);
    if r.Err? then r
    else Ok(Progress(r.value.state, r.value.steps, p.rounds + [RoundOf(budget, p, r.value)]))
  }

  /** The queries of the next round, or none when the retrieval ends after this one. */
  function NextQueries(a: Agent, w: World, p: Progress, e: Expansion, round: nat): (queries: seq<string>) {
    var coverage := w.coverage(round, ListJson(RecordsOf(a, p.state, e)));
    if coverage.finish || round == a.limits.maxRounds || Known(p) >= a.limits.maxHits then []
    else FollowUps(a, p, coverage.additional)
  }

  /** The run from the given round on, as long as there are queries and room for hits. */
  function RetrieveFrom(a: Agent, w: World, p: Progress, pending: seq<string>, round: nat): (r: Result<Progress, AgentError>)
    requires round <= a.limits.maxRounds + 1
    decreases a.limits.maxRounds + 1 - round
  {
    if round > a.limits.maxRounds || pending == [] || Known(p) >= a.limits.maxHits then Ok(p)
    else
      var next := SearchRound(a, w, p, pending, round);
      if next.Err? then next
      else
        var e := ExpansionOf(w, round, next.value.state);
        if e.Err? then Err(e.error)
        else RetrieveFrom(a, w, next.value, NextQueries(a, w, next.value, e.value, round), round + 1)
  }

  const START: Progress := Progress(State([], map[]), [], [])

  /** The whole retrieval, from the proposed queries on. */
  function Retrieve(a: Agent, w: World, proposed: seq<string>): (r: Result<Progress, AgentError>) {
    var pending := Clip(Usable(a.fold, proposed, 0, {}), a.limits.maxQueries);
    if pending == [] then Err(NoUsableQuery) else RetrieveFrom(a, w, START, pending, 1)
  }

  method RunRetrieval(a: Agent, w: World, proposed: seq<string>) returns (r: Result<Progress, AgentError>)
    ensures r == Retrieve(a, w, proposed)
  {
    hide SearchRound;
    hide NextQueries;
    hide ExpansionOf;
    hide Usable;
    hide Clip;
    var pending, clipped := NormalizeQueries(a.fold, proposed, a.limits.maxQueries, []);
    assert Folds(a.fold, []) == {};
    if pending == [] {
      return Err(NoUsableQuery);
    }
    var p := START;
    var round := 1;
    while round <= a.limits.maxRounds
      invariant 1 <= round <= a.limits.maxRounds + 1
      invariant Retrieve(a, w, proposed) == RetrieveFrom(a, w, p, pending, round)
    {
      if pending == [] || Known(p) >= a.limits.maxHits {
        break;
      }
      var next := OneRound(a, w, p, pending, round);
      if next.Err? {
        return next;
      }
      p := next.value;
      var e := ExpandRetrieved(w, round, p.state);
      if e.Err? {
        return Err(e.error);
      }
      pending := DecideCoverage(a, w, p, e.value, round);
      round := round + 1;
    }
    r := Ok(p);
  }

  method ExpandRetrieved(w: World, n: nat, st: State) returns (e: Result<Expansion, AgentError>)
    ensures e == ExpansionOf(w, n, st)
  {
    e := ExpandContextHits(st.retrieved, NeighborsOf(w, n, |st.retrieved|));
  }

  /** Shows the context to the reasoner and returns the queries to run next, none to end the retrieval. */
  method DecideCoverage(a: Agent, w: World, p: Progress, e: Expansion, round: nat) returns (next: seq<string>)
    ensures next == NextQueries(a, w, p, e, round)
  {
    hide Usable;
    hide Clip;
    var text, ids, records := BuildContext(ContextConfig(a, p.state), e, IdSet(p.state.retrieved));
    var coverage := w.coverage(round, text);
    var clipped;
    next, clipped := NormalizeQueries(a.fold, coverage.additional, a.limits.maxQueries, StepQueries(p.steps));
    if coverage.finish || round == a.limits.maxRounds || Known(p) >= a.limits.maxHits {
      next := [];
    }
  }

  method OneRound(a: Agent, w: World, p: Progress, pending: seq<string>, round: nat) returns (r: Result<Progress, AgentError>)
    requires round <= a.limits.maxRounds && Known(p) <= a.limits.maxHits
    ensures r == SearchRound(a, w, p, pending, round)
  {
    hide RoundFrom;
    hide RoundOf;
    var globalRemaining := a.limits.maxHits - Known(p);
    var roundsRemaining := a.limits.maxRounds - round + 1;
    var budget := CeilDiv(globalRemaining, roundsRemaining);
    r := RunRound(w.search, p, pending, budget, a.limits.maxHits);
    if r.Ok? {
      r := Ok(Progress(r.value.state, r.value.steps, p.rounds + [RoundOf(budget, p, r.value)]));
    }
  }
}
