/** Query normalisation and the bounded retrieval rounds of `BoundedEvidenceAgent.run` in
    src/soloscale/evidence_agent.py: how a global hit budget is split over rounds and queries. */
module QueryBudget {
  import opened Wrappers
  import opened PyText
  import opened Sorting
  import opened Retrieval

  // ----- normalising queries

  /** The casefolded form; any folding of strings will do. */
  type Casefold = string -> string

  /** Whether the loop counts this query as usable after the folds in `seen`. */
  predicate IsUsable(fold: Casefold, query: string, seen: set<string>) {
    Collapse(query) != "" && fold(Collapse(query)) !in seen
  }

  /** The collapsed usable queries from the i-th on. */
  function Usable(fold: Casefold, queries: seq<string>, i: nat, seen: set<string>): (r: seq<string>)
    requires i <= |queries|
    decreases |queries| - i
  {
    if i == |queries| then []
    else if IsUsable(fold, queries[i], seen) then
      [Collapse(queries[i])] + Usable(fold, queries, i + 1, seen + {fold(Collapse(queries[i]))})
    else Usable(fold, queries, i + 1, seen)
  }

  function Folds(fold: Casefold, queries: seq<string>): (s: set<string>) {
    set q | q in queries :: fold(q)
  }

  /** The first usable queries in order, and whether more were usable than the limit. */
  method NormalizeQueries(fold: Casefold, queries: seq<string>, limit: nat, excluded: seq<string>)
    returns (result: seq<string>, clipped: bool)
    ensures var usable := Usable(fold, queries, 0, Folds(fold, excluded));
            result == Clip(usable, limit) && (clipped <==> |usable| > limit)
  {
    hide Collapse;
    hide Folds;
    var seen := Folds(fold, excluded);
    var usableCount := 0;
    result := [];
    ghost var usable: seq<string> := [];
    for i := 0 to |queries|
      invariant Usable(fold, queries, 0, Folds(fold, excluded)) == usable + Usable(fold, queries, i, seen)
      invariant usableCount == |usable| && result == Clip(usable, limit)
    {
      var normalized := Collapse(queries[i]);
      if normalized == "" || fold(normalized) in seen {
        continue;
      }
      ghost var rest := Usable(fold, queries, i + 1, seen + {fold(normalized)});
      assert usable + ([normalized] + rest) == (usable + [normalized]) + rest;
      usableCount := usableCount + 1;
      seen := seen + {fold(normalized)};
      usable := usable + [normalized];
      if |result| < limit {
        result := result + [normalized];
      }
    }
    assert usable + [] == usable;
    clipped := usableCount > limit;
  }

  /** Different queries, up to case and whitespace. */
  ghost predicate FoldDistinct(fold: Casefold, queries: seq<string>) {
    forall i, j :: 0 <= i < j < |queries| ==> fold(queries[i]) != fold(queries[j])
  }

  /** Usable queries are collapsed, non-empty, pairwise different and different from every excluded one. */
  lemma {:induction false} UsableCorrect(fold: Casefold, queries: seq<string>, i: nat, seen: set<string>)
    requires i <= |queries|
    ensures var r := Usable(fold, queries, i, seen);
            && FoldDistinct(fold, r)
            && (forall q :: q in r ==> q != "" && fold(q) !in seen && exists k :: i <= k < |queries| && q == Collapse(queries[k]))
    decreases |queries| - i
  {
    if i < |queries| {
      var q := Collapse(queries[i]);
      UsableCorrect(fold, queries, i + 1, if IsUsable(fold, queries[i], seen) then seen + {fold(q)} else seen);
    }
  }

  /** No query is dropped unless it is blank, excluded, or a repetition of one that is usable. */
  lemma {:induction false} UsableComplete(fold: Casefold, queries: seq<string>, i: nat, seen: set<string>, k: nat)
    requires i <= k < |queries| && Collapse(queries[k]) != ""
    ensures fold(Collapse(queries[k])) in seen || fold(Collapse(queries[k])) in Folds(fold, Usable(fold, queries, i, seen))
    decreases |queries| - i
  {
    var q := Collapse(queries[i]);
    if IsUsable(fold, queries[i], seen) {
      assert q in Usable(fold, queries, i, seen);
      if i < k {
        UsableComplete(fold, queries, i + 1, seen + {fold(q)}, k);
        var rest := Usable(fold, queries, i + 1, seen + {fold(q)});
        assert forall x :: x in rest ==> x in Usable(fold, queries, i, seen);
      }
    } else if i < k {
      UsableComplete(fold, queries, i + 1, seen, k);
    }
  }

  // ----- accepting the hits of one search

  /** What a run has retrieved so far, in order, and which queries found each chunk. */
  datatype State = State(retrieved: seq<Hit>, focus: map<string, seq<string>>)

  function MergeText(first: Option<string>, second: Option<string>): (r: Option<string>) {
    var a := if first.Some? then Strip(first.value) else "";
    var b := if second.Some? then Strip(second.value) else "";
    if a == "" && b == "" then None
    else if a == "" || a == b then Some(b)
    else if b == "" then Some(a)
    else Some(a + " | " + b)
  }

  /** A repeated hit updates metadata, channels and score, and nothing else. */
  function MergeHit(existing: Hit, hit: Hit): (r: Hit)
    ensures r.id == existing.id && r.identity == existing.identity && r.excerpt == existing.excerpt && r.role == existing.role
  {
    existing.(metadata := MergeText(existing.metadata, hit.metadata),
              channels := Dedupe(existing.channels + hit.channels),
              score := if existing.score < hit.score then hit.score else existing.score)
  }

  /** A repeated hit keeps the better score and the distinct channels of both. */
  lemma MergeHitKeeps(existing: Hit, hit: Hit)
    ensures var r := MergeHit(existing, hit);
            && r.score >= existing.score && r.score >= hit.score && (r.score == existing.score || r.score == hit.score)
            && Distinct(r.channels) && forall c :: c in r.channels <==> c in existing.channels || c in hit.channels
  {
    DedupeMembers(existing.channels + hit.channels);
    forall c ensures c in Dedupe(existing.channels + hit.channels) <==> c in existing.channels || c in hit.channels {
      DedupeMember(existing.channels + hit.channels, c);
    }
  }

  function AddFocus(focus: map<string, seq<string>>, id: string, query: string): (r: map<string, seq<string>>) {
    focus[id := (if id in focus then focus[id] else []) + [query]]
  }

  /** One returned hit: an error, a merge with a known chunk, or a new chunk. */
  function TakeHit(st: State, hit: Hit, query: string): (r: Result<State, AgentError>) {
    var at := Position(st.retrieved, hit.id);
    if at < |st.retrieved| then
      if st.retrieved[at].identity != hit.identity then Err(AmbiguousDuplicate)
      else Ok(State(st.retrieved[at := MergeHit(st.retrieved[at], hit)], AddFocus(st.focus, hit.id, query)))
    else Ok(State(st.retrieved + [hit], AddFocus(st.focus, hit.id, query)))
  }

  predicate IsKnown(st: State, hit: Hit) {
    hit.id in Ids(st.retrieved)
  }

  /** The hits from the i-th on, while the quota for new chunks lasts. */
  function Accept(st: State, hits: seq<Hit>, i: nat, quota: nat, query: string): (r: Result<State, AgentError>)
    requires i <= |hits|
    decreases |hits| - i
  {
    if i == |hits| || quota == 0 then Ok(st)
    else
      var next := TakeHit(st, hits[i], query);
      if next.Err? then next
      else Accept(next.value, hits, i + 1, if IsKnown(st, hits[i]) then quota else quota - 1, query)
  }

  /** An accepted hit keeps the known ids and appends its own when it is new. */
  lemma TakeHitIds(st: State, hit: Hit, query: string)
    requires TakeHit(st, hit, query).Ok?
    ensures Ids(TakeHit(st, hit, query).value.retrieved) == Ids(st.retrieved) + if IsKnown(st, hit) then [] else [hit.id]
  {
    hide AddFocus;
    var next := TakeHit(st, hit, query).value;
    if IsKnown(st, hit) {
      assert Ids(next.retrieved) == Ids(st.retrieved);
    }
  }

  method AcceptHits(st0: State, hits: seq<Hit>, quota: nat, query: string)
    returns (r: Result<State, AgentError>, accepted: seq<string>)
    ensures r == Accept(st0, hits, 0, quota, query)
    ensures r.Ok? ==> |accepted| <= quota && Ids(r.value.retrieved) == Ids(st0.retrieved) + accepted
  {
    hide TakeHit;
    hide IsKnown;
    hide Ids;
    var st := st0;
    accepted := [];
    var i := 0;
    while i < |hits| && |accepted| < quota
      invariant i <= |hits| && |accepted| <= quota
      invariant Accept(st0, hits, 0, quota, query) == Accept(st, hits, i, quota - |accepted|, query)
      invariant Ids(st.retrieved) == Ids(st0.retrieved) + accepted
    {
      var hit := hits[i];
      var next := TakeHit(st, hit, query);
      if next.Err? {
        return next, accepted;
      }
      TakeHitIds(st, hit, query);
      if !IsKnown(st, hit) {
        Reassociate(Ids(st0.retrieved), accepted, [hit.id]);
        accepted := accepted + [hit.id];
      }
      st := next.value;
      i := i + 1;
    }
    r := Ok(st);
  }

  /** Accepting keeps chunk ids distinct and only appends ids. */
  lemma {:induction false} AcceptKeepsKeyed(st: State, hits: seq<Hit>, i: nat, quota: nat, query: string)
    requires i <= |hits| && Keyed(st.retrieved) && Accept(st, hits, i, quota, query).Ok?
    ensures Keyed(Accept(st, hits, i, quota, query).value.retrieved)
    decreases |hits| - i
  {
    hide AddFocus;
    hide MergeHit;
    if i < |hits| && quota > 0 {
      var next := TakeHit(st, hits[i], query).value;
      if IsKnown(st, hits[i]) {
        assert Ids(next.retrieved) == Ids(st.retrieved);
      } else {
        KeyedSnoc(st.retrieved, hits[i]);
      }
      AcceptKeepsKeyed(next, hits, i + 1, if IsKnown(st, hits[i]) then quota else quota - 1, query);
    }
  }

  // ----- the pigeonhole

  /** The retrieved ids that do not occur among the first i hits. */
  function Unseen(st: State, hits: seq<Hit>, i: nat): (s: set<string>)
    requires i <= |hits|
  {
    set id | id in Ids(st.retrieved) && id !in Ids(hits)[..i]
  }

  /** Every hit agrees with one identity per chunk id. */
  ghost predicate Consistent(identityOf: string -> string, hits: seq<Hit>) {
    forall i :: 0 <= i < |hits| ==> hits[i].identity == identityOf(hits[i].id)
  }

  /** A known hit uses up one of the retrieved chunks not yet met; a new hit is appended. */
  lemma TakeHitStep(identityOf: string -> string, st: State, hits: seq<Hit>, i: nat, query: string)
    requires i < |hits| && Keyed(hits) && Consistent(identityOf, hits) && Consistent(identityOf, st.retrieved)
    ensures var r := TakeHit(st, hits[i], query);
            && r.Ok? && Consistent(identityOf, r.value.retrieved)
            && (if IsKnown(st, hits[i]) then |r.value.retrieved| == |st.retrieved| && |Unseen(r.value, hits, i + 1)| == |Unseen(st, hits, i)| - 1
                else |r.value.retrieved| == |st.retrieved| + 1 && |Unseen(r.value, hits, i + 1)| == |Unseen(st, hits, i)|)
  {
    hide AddFocus;
    var hit := hits[i];
    assert Ids(hits)[..i + 1] == Ids(hits)[..i] + [hit.id];
    forall j | 0 <= j < i ensures Ids(hits)[j] != hit.id { assert Ids(hits)[j] != Ids(hits)[i]; }
    var next := TakeHit(st, hit, query);
    if IsKnown(st, hit) {
      assert Ids(next.value.retrieved) == Ids(st.retrieved);
      assert Unseen(next.value, hits, i + 1) == Unseen(st, hits, i) - {hit.id};
      assert hit.id in Unseen(st, hits, i);
    } else {
      assert Ids(next.value.retrieved) == Ids(st.retrieved) + [hit.id];
      assert Unseen(next.value, hits, i + 1) == Unseen(st, hits, i);
    }
  }

  /** If the remaining hits outnumber the retrieved chunks not yet met by at least the quota, the quota
      is filled. */
  lemma {:induction false} QuotaIsFilled(identityOf: string -> string, st: State, hits: seq<Hit>, i: nat, quota: nat, query: string)
    requires i <= |hits| && Keyed(hits) && Consistent(identityOf, hits) && Consistent(identityOf, st.retrieved)
    requires |hits| - i >= quota + |Unseen(st, hits, i)|
    ensures var r := Accept(st, hits, i, quota, query);
            r.Ok? && |r.value.retrieved| == |st.retrieved| + quota && Consistent(identityOf, r.value.retrieved)
    decreases |hits| - i
  {
    hide TakeHit;
    hide IsKnown;
    hide Unseen;
    hide Keyed;
    hide Consistent;
    if i < |hits| && quota > 0 {
      TakeHitStep(identityOf, st, hits, i, query);
      var next := TakeHit(st, hits[i], query).value;
      QuotaIsFilled(identityOf, next, hits, i + 1, if IsKnown(st, hits[i]) then quota else quota - 1, query);
    }
  }

  lemma {:induction false} DistinctValues(s: seq<string>)
    ensures |set x | x in s| <= |s|
  {
    if s != [] {
      DistinctValues(s[1..]);
      assert (set x | x in s) == (set x | x in s[1..]) + {s[0]};
    }
  }

  /** A search that returns as many distinct, consistent hits as the quota plus what is already
      retrieved fills the quota. */
  lemma FullSearchFillsQuota(identityOf: string -> string, st: State, hits: seq<Hit>, quota: nat, query: string)
    requires Keyed(hits) && Consistent(identityOf, hits) && Consistent(identityOf, st.retrieved)
    requires |hits| == quota + |st.retrieved|
    ensures var r := Accept(st, hits, 0, quota, query);
            r.Ok? && |r.value.retrieved| == |st.retrieved| + quota && Consistent(identityOf, r.value.retrieved)
  {
    assert Unseen(st, hits, 0) == set id | id in Ids(st.retrieved);
    DistinctValues(Ids(st.retrieved));
    QuotaIsFilled(identityOf, st, hits, 0, quota, query);
  }

  // ----- one round

  /** The knowledge store's answer to the n-th search of a run; any answer is possible. */
  type Search = (nat, string, nat) -> seq<Hit>

  /** The answer is as long as asked for, its chunks are distinct and consistent with one identity per id. */
  ghost predicate IsFullAnswer(identityOf: string -> string, hits: seq<Hit>, limit: nat) {
    |hits| == limit && Keyed(hits) && Consistent(identityOf, hits)
  }

  /** A search step: how many chunks were known before it, its quota of new chunks, the limit asked
      for, and the ids accepted. */
  datatype Step = Step(query: string, known: nat, quota: nat, requestedLimit: nat, accepted: seq<string>)

  /** The limit is the quota plus what is already known: clipping it to the hit budget changed nothing. */
  predicate WithinBudget(step: Step, maxHits: nat) {
    step.requestedLimit == step.quota + step.known <= maxHits && |step.accepted| <= step.quota && step.quota >= 1
  }

  predicate FilledQuota(step: Step) {
    |step.accepted| == step.quota
  }

  /** Every executed search was answered in full, for its own query and limit. */
  ghost predicate AnsweredInFull(search: Search, identityOf: string -> string, steps: seq<Step>) {
    forall n :: 0 <= n < |steps| ==> IsFullAnswer(identityOf, search(n, steps[n].query, steps[n].requestedLimit), steps[n].requestedLimit)
  }

  /** Whatever is asked within the hit budget is answered in full. */
  ghost predicate AnswersInFull(search: Search, identityOf: string -> string, maxHits: nat) {
    forall n: nat, q: string, limit: nat :: limit <= maxHits ==> IsFullAnswer(identityOf, search(n, q, limit), limit)
  }

  /** A store that holds at least as many chunks as a run may retrieve, and returns the first ones of a
      ranking of them, answers everything in full. */
  lemma RankedStoreAnswersInFull(search: Search, identityOf: string -> string, ranking: (nat, string) -> seq<Hit>, maxHits: nat)
    requires forall n: nat, q: string :: |ranking(n, q)| >= maxHits && Keyed(ranking(n, q)) && Consistent(identityOf, ranking(n, q))
    requires forall n: nat, q: string, limit: nat :: limit <= maxHits ==> search(n, q, limit) == ranking(n, q)[..limit]
    ensures AnswersInFull(search, identityOf, maxHits)
  {
    forall n: nat, q: string, limit: nat | limit <= maxHits ensures IsFullAnswer(identityOf, search(n, q, limit), limit) {
      var hits := ranking(n, q);
      assert Ids(hits[..limit]) == Ids(hits)[..limit];
    }
  }

  function CeilDiv(a: nat, b: nat): (q: nat)
    requires b > 0
  {
    (a + b - 1) / b
  }

  lemma CeilDivBounds(a: nat, b: nat)
    requires a > 0 && b > 0
    ensures 1 <= CeilDiv(a, b) <= a
    ensures b == 1 ==> CeilDiv(a, b) == a
  {
    var q := CeilDiv(a, b);
    assert q * b <= a + b - 1;
    ScaleMonotone(a + 1, q, b);
    Product(a, b - 1);
    assert (a + 1) * b == a * (b - 1) + a + b;
  }

  lemma Product(a: nat, b: nat)
    ensures a * b >= 0
  {
  }

  lemma ScaleMonotone(p: nat, q: nat, b: nat)
    ensures p <= q ==> p * b <= q * b
  {
    if p <= q {
      Product(q - p, b);
    }
  }

  /** A round: its budget, the numbers of chunks known before and after it, and its number of searches. */
  datatype Round = Round(budget: nat, before: nat, after: nat, searches: nat)

  /** A run so far: its state, all its search steps and its completed rounds. */
  datatype Progress = Progress(state: State, steps: seq<Step>, rounds: seq<Round>)

  function Known(p: Progress): (n: nat) {
    |p.state.retrieved|
  }

  function Quota(remaining: nat, queries: nat): (n: nat)
    requires queries > 0
  {
    Max(1, CeilDiv(remaining, queries))
  }

  /** The round from its i-th query on, until `target` chunks are known. */
  function RoundFrom(search: Search, p: Progress, queries: seq<string>, i: nat, target: nat, maxHits: nat): (r: Result<Progress, AgentError>)
    requires i <= |queries|
    decreases |queries| - i
  {
    if i == |queries| || Known(p) >= target then Ok(p)
    else
      var next := SearchOnce(search, p, queries[i], Quota(target - Known(p), |queries| - i), maxHits);
      if next.Err? then next else RoundFrom(search, next.value, queries, i + 1, target, maxHits)
  }

  /** One search and the acceptance of its hits. */
  function SearchOnce(search: Search, p: Progress, query: string, quota: nat, maxHits: nat): (r: Result<Progress, AgentError>) {
    var limit := Min(maxHits, quota + Known(p));
    var next := Accept(p.state, search(|p.steps|, query, limit), 0, quota, query);
    if next.Err? then Err(next.error)
    else
      var accepted := Ids(next.value.retrieved)[Min(Known(p), |next.value.retrieved|)..];
      Ok(Progress(next.value, p.steps + [Step(query, Known(p), quota, limit, accepted)], p.rounds))
  }

  method RunRound(search: Search, p0: Progress, queries: seq<string>, budget: nat, maxHits: nat)
    returns (r: Result<Progress, AgentError>)
    ensures r == RoundFrom(search, p0, queries, 0, Known(p0) + budget, maxHits)
  {
    hide Accept;
    hide Ids;
    var st, steps := p0.state, p0.steps;
    var start := |st.retrieved|;
    ghost var goal := RoundFrom(search, p0, queries, 0, start + budget, maxHits);
    var i := 0;
    while i < |queries|
      invariant i <= |queries|
      invariant goal == RoundFrom(search, Progress(st, steps, p0.rounds), queries, i, start + budget, maxHits)
      invariant start <= |st.retrieved|
    {
      var acceptedThisRound := |st.retrieved| - start;
      if acceptedThisRound >= budget {
        break;
      }
      var remaining := budget - acceptedThisRound;
      var remainingQueries := |queries| - i;
      var quota := Max(1, CeilDiv(remaining, remainingQueries));
      var limit := Min(maxHits, quota + |st.retrieved|);
      var hits := search(|steps|, queries[i], limit);
      var next, accepted := AcceptHits(st, hits, quota, queries[i]);
      assert next == Accept(st, hits, 0, quota, queries[i]);
      if next.Err? {
        return Err(next.error);
      }
      AcceptedIds(st, next.value, accepted);
      steps := steps + [Step(queries[i], |st.retrieved|, quota, limit, accepted)];
      st := next.value;
      i := i + 1;
    }
    r := Ok(Progress(st, steps, p0.rounds));
  }

  lemma AcceptedIds(before: State, after: State, accepted: seq<string>)
    requires Ids(after.retrieved) == Ids(before.retrieved) + accepted
    ensures |after.retrieved| == |before.retrieved| + |accepted|
    ensures Ids(after.retrieved)[|before.retrieved|..] == accepted
  {
    assert |Ids(after.retrieved)| == |after.retrieved| && |Ids(before.retrieved)| == |before.retrieved|;
  }

  /** Accepting appends at most the quota of ids. */
  lemma {:induction false} AcceptAppends(st: State, hits: seq<Hit>, i: nat, quota: nat, query: string)
    requires i <= |hits| && Accept(st, hits, i, quota, query).Ok?
    ensures var after := Accept(st, hits, i, quota, query).value.retrieved;
            |st.retrieved| <= |after| <= |st.retrieved| + quota && Ids(st.retrieved) <= Ids(after)
    decreases |hits| - i
  {
    hide TakeHit;
    hide Ids;
    if i < |hits| && quota > 0 {
      var hit := hits[i];
      var next := TakeHit(st, hit, query).value;
      TakeHitIds(st, hit, query);
      LengthOfIds(st.retrieved);
      LengthOfIds(next.retrieved);
      AcceptAppends(next, hits, i + 1, if IsKnown(st, hit) then quota else quota - 1, query);
    }
  }

  lemma LengthOfIds(hits: seq<Hit>)
    ensures |Ids(hits)| == |hits|
  {
  }

  // ----- what a round keeps

  ghost predicate GoodSteps(steps: seq<Step>, from: nat, maxHits: nat) {
    forall k :: from <= k < |steps| ==> WithinBudget(steps[k], maxHits)
  }

  ghost predicate FilledSteps(steps: seq<Step>, from: nat) {
    forall k :: from <= k < |steps| ==> FilledQuota(steps[k])
  }

  function StepQueries(steps: seq<Step>): (queries: seq<string>) {
    seq(|steps|, k requires 0 <= k < |steps| => steps[k].query)
  }

  /** What one search keeps, and what it achieves when it is answered in full. */
  lemma SearchOnceCorrect(search: Search, identityOf: string -> string, p: Progress, query: string, quota: nat, maxHits: nat)
    requires Keyed(p.state.retrieved) && 1 <= quota && quota + Known(p) <= maxHits
    ensures var r := SearchOnce(search, p, query, quota, maxHits);
            var limit := quota + Known(p);
            && (r.Ok? ==>
                  && Keyed(r.value.state.retrieved) && Known(p) <= Known(r.value) <= Known(p) + quota
                  && r.value.rounds == p.rounds && |r.value.steps| == |p.steps| + 1 && p.steps <= r.value.steps
                  && r.value.steps[|p.steps|].query == query && r.value.steps[|p.steps|].requestedLimit == limit
                  && WithinBudget(r.value.steps[|p.steps|], maxHits))
            && (IsFullAnswer(identityOf, search(|p.steps|, query, limit), limit) && Consistent(identityOf, p.state.retrieved) ==>
                  && r.Ok? && Known(r.value) == Known(p) + quota && Consistent(identityOf, r.value.state.retrieved)
                  && FilledQuota(r.value.steps[|p.steps|]))
  {
    hide Accept;
    hide Keyed;
    hide Consistent;
    var limit := quota + Known(p);
    var hits := search(|p.steps|, query, limit);
    if IsFullAnswer(identityOf, hits, limit) && Consistent(identityOf, p.state.retrieved) {
      FullSearchFillsQuota(identityOf, p.state, hits, quota, query);
    }
    if Accept(p.state, hits, 0, quota, query).Ok? {
      AcceptKeepsKeyed(p.state, hits, 0, quota, query);
      AcceptAppends(p.state, hits, 0, quota, query);
    }
  }

  /** A round keeps chunk ids distinct, never passes its target, runs its queries in order, and never
      needs the clip. */
  lemma {:induction false} RoundCorrect(search: Search, p: Progress, queries: seq<string>, i: nat, target: nat, maxHits: nat)
    requires i <= |queries| && Keyed(p.state.retrieved) && Known(p) <= target <= maxHits
    ensures var r := RoundFrom(search, p, queries, i, target, maxHits);
            r.Ok? ==>
              && Keyed(r.value.state.retrieved) && Known(p) <= Known(r.value) <= target
              && r.value.rounds == p.rounds && |p.steps| <= |r.value.steps| <= |p.steps| + (|queries| - i) && p.steps <= r.value.steps
              && GoodSteps(r.value.steps, |p.steps|, maxHits)
              && forall k :: |p.steps| <= k < |r.value.steps| ==> r.value.steps[k].query == queries[i + k - |p.steps|]
    decreases |queries| - i
  {
    hide SearchOnce;
    hide Keyed;
    hide WithinBudget;
    if i < |queries| && Known(p) < target {
      var remaining := target - Known(p);
      CeilDivBounds(remaining, |queries| - i);
      var quota := Quota(remaining, |queries| - i);
      SearchOnceCorrect(search, _ => "", p, queries[i], quota, maxHits);
      var next := SearchOnce(search, p, queries[i], quota, maxHits);
      if next.Ok? {
        RoundCorrect(search, next.value, queries, i + 1, target, maxHits);
      }
    }
  }

  /** A round whose executed searches were answered in full fills every quota and reaches its target
      exactly; and when everything is answered in full, no search of the round fails. */
  lemma {:induction false} FullRound(search: Search, identityOf: string -> string, p: Progress, queries: seq<string>, i: nat, target: nat, maxHits: nat)
    requires i <= |queries| && Keyed(p.state.retrieved) && Known(p) <= target <= maxHits
    requires Consistent(identityOf, p.state.retrieved) && (i < |queries| || Known(p) == target)
    ensures var r := RoundFrom(search, p, queries, i, target, maxHits);
            && (r.Ok? && AnsweredInFull(search, identityOf, r.value.steps) ==>
                  Known(r.value) == target && Consistent(identityOf, r.value.state.retrieved) && FilledSteps(r.value.steps, |p.steps|))
            && (AnswersInFull(search, identityOf, maxHits) ==> r.Ok?)
    decreases |queries| - i
  {
    hide SearchOnce;
    hide Keyed;
    hide Consistent;
    hide IsFullAnswer;
    hide WithinBudget;
    hide FilledQuota;
    if i < |queries| && Known(p) < target {
      var remaining := target - Known(p);
      CeilDivBounds(remaining, |queries| - i);
      var quota := Quota(remaining, |queries| - i);
      var n, limit := |p.steps|, quota + Known(p);
      SearchOnceCorrect(search, identityOf, p, queries[i], quota, maxHits);
      var next := SearchOnce(search, p, queries[i], quota, maxHits);
      assert AnswersInFull(search, identityOf, maxHits) ==> IsFullAnswer(identityOf, search(n, queries[i], limit), limit);
      if next.Ok? {
        RoundCorrect(search, next.value, queries, i + 1, target, maxHits);
        var r := RoundFrom(search, p, queries, i, target, maxHits);
        if IsFullAnswer(identityOf, search(n, queries[i], limit), limit) {
          QuotaLeavesNothing(remaining, |queries| - i);
          FullRound(search, identityOf, next.value, queries, i + 1, target, maxHits);
          assert r.Ok? ==> r.value.steps[n] == next.value.steps[n];
        } else if r.Ok? {
          assert r.value.steps[n] == next.value.steps[n];
        }
      }
    }
  }

  /** The last query's quota is all that is left. */
  lemma QuotaLeavesNothing(remaining: nat, queries: nat)
    requires remaining > 0 && queries > 0
    ensures queries == 1 ==> Quota(remaining, queries) == remaining
  {
    CeilDivBounds(remaining, queries);
  }
}
