/** A store that gives every chunk one identity never makes a run of src/soloscale/evidence_agent.py fail
    while it retrieves or expands. */
module StoreConsistency {
  import opened Wrappers
  import opened PyText
  import opened Retrieval
  import opened QueryBudget
  import opened AgentRun
  import opened AgentProperties
  import opened SearchMeaning
  import opened AgentTrace

  /** Every answer gives each chunk the one identity. */
  ghost predicate IsConsistentStore(w: World, identityOf: string -> string) {
    && (forall n: nat, q: string, limit: nat :: Consistent(identityOf, w.search(n, q, limit)))
    && (forall n: nat, k: nat :: Consistent(identityOf, w.neighbors(n, k)))
  }

  lemma FoundIsConsistent(identityOf: string -> string, hits: seq<Hit>, id: string)
    requires Consistent(identityOf, hits)
    ensures Lookup(hits, id).Some? ==> Lookup(hits, id).value.identity == identityOf(id)
  {
  }

  lemma ConsistentConcat(identityOf: string -> string, a: seq<Hit>, b: seq<Hit>)
    requires Consistent(identityOf, a) && Consistent(identityOf, b)
    ensures Consistent(identityOf, a + b)
  {
  }

  lemma NoContradiction(identityOf: string -> string, st: State, hits: seq<Hit>, quota: nat)
    requires Consistent(identityOf, st.retrieved) && Consistent(identityOf, hits)
    ensures !HasContradiction(st, hits, 0, quota)
  {
    hide Lookup;
    forall j | 0 <= j < |hits| ensures !Contradicts(st.retrieved, hits, 0, j) {
      ConsistentConcat(identityOf, st.retrieved, hits[0..j]);
      FoundIsConsistent(identityOf, st.retrieved + hits[0..j], hits[j].id);
    }
  }

  lemma TakeKeepsConsistent(identityOf: string -> string, st: State, hit: Hit, query: string)
    requires Consistent(identityOf, st.retrieved) && hit.identity == identityOf(hit.id) && TakeHit(st, hit, query).Ok?
    ensures Consistent(identityOf, TakeHit(st, hit, query).value.retrieved)
  {
    hide AddFocus;
  }

  lemma {:induction false} AcceptKeepsConsistent(identityOf: string -> string, st: State, hits: seq<Hit>, i: nat, quota: nat, query: string)
    requires i <= |hits| && Consistent(identityOf, st.retrieved) && Consistent(identityOf, hits)
    requires Accept(st, hits, i, quota, query).Ok?
    ensures Consistent(identityOf, Accept(st, hits, i, quota, query).value.retrieved)
    decreases |hits| - i
  {
    hide TakeHit;
    if i < |hits| && quota > 0 {
      TakeKeepsConsistent(identityOf, st, hits[i], query);
      AcceptKeepsConsistent(identityOf, TakeHit(st, hits[i], query).value, hits, i + 1, if IsKnown(st, hits[i]) then quota else quota - 1, query);
    }
  }

  lemma SearchSucceeds(w: World, identityOf: string -> string, p: Progress, query: string, quota: nat, maxHits: nat)
    requires IsConsistentStore(w, identityOf) && Consistent(identityOf, p.state.retrieved)
    ensures var r := SearchOnce(w.search, p, query, quota, maxHits);
            r.Ok? && Consistent(identityOf, r.value.state.retrieved)
  {
    hide Consistent;
    hide Accept;
    var limit := Min(maxHits, quota + Known(p));
    var hits := w.search(|p.steps|, query, limit);
    NoContradiction(identityOf, p.state, hits, quota);
    var c := AcceptMeaning(p.state, hits, 0, quota, query);
    AcceptKeepsConsistent(identityOf, p.state, hits, 0, quota, query);
  }

  lemma {:induction false} RoundSucceeds(w: World, identityOf: string -> string, p: Progress, queries: seq<string>, i: nat, target: nat, maxHits: nat)
    requires IsConsistentStore(w, identityOf) && Consistent(identityOf, p.state.retrieved) && i <= |queries|
    ensures var r := RoundFrom(w.search, p, queries, i, target, maxHits);
            r.Ok? && Consistent(identityOf, r.value.state.retrieved)
    decreases |queries| - i
  {
    hide SearchOnce;
    hide Consistent;
    hide IsConsistentStore;
    if i < |queries| && Known(p) < target {
      SearchSucceeds(w, identityOf, p, queries[i], Quota(target - Known(p), |queries| - i), maxHits);
      RoundSucceeds(w, identityOf, SearchOnce(w.search, p, queries[i], Quota(target - Known(p), |queries| - i), maxHits).value, queries, i + 1, target, maxHits);
    }
  }

  lemma {:induction false} NeighborsConsistent(identityOf: string -> string, neighbors: seq<seq<Hit>>, k: nat)
    requires k <= |neighbors| && forall i :: 0 <= i < |neighbors| ==> Consistent(identityOf, neighbors[i])
    ensures Consistent(identityOf, AllNeighbors(neighbors, k))
    decreases |neighbors| - k
  {
    hide Consistent;
    if k < |neighbors| {
      NeighborsConsistent(identityOf, neighbors, k + 1);
      ConsistentConcat(identityOf, neighbors[k], AllNeighbors(neighbors, k + 1));
    } else {
      assert Consistent(identityOf, []) by { NothingInconsistent(identityOf); }
    }
  }

  lemma NothingInconsistent(identityOf: string -> string)
    ensures Consistent(identityOf, [])
  {
  }

  lemma ConsistentMember(identityOf: string -> string, hits: seq<Hit>, n: Hit)
    requires Consistent(identityOf, hits) && n in hits
    ensures n.identity == identityOf(n.id)
  {
  }

  lemma ExpansionSucceeds(w: World, identityOf: string -> string, n: nat, st: State)
    requires IsConsistentStore(w, identityOf) && Consistent(identityOf, st.retrieved)
    ensures ExpansionOf(w, n, st).Ok?
  {
    hide Consistent;
    hide Lookup;
    hide Expand;
    var neighbors := NeighborsOf(w, n, |st.retrieved|);
    ExpandOkIff(st.retrieved, neighbors);
    NeighborsConsistent(identityOf, neighbors, 0);
    var ns := AllNeighbors(neighbors, 0);
    forall m | m in ns ensures m.identity == identityOf(m.id) && SameAsFound(Lookup(st.retrieved, m.id), m) {
      ConsistentMember(identityOf, ns, m);
      FoundIsConsistent(identityOf, st.retrieved, m.id);
    }
  }

  lemma {:induction false} RetrieveFromSucceeds(a: Agent, w: World, identityOf: string -> string, p: Progress, pending: seq<string>)
    requires IsConsistentStore(w, identityOf) && Consistent(identityOf, p.state.retrieved)
    requires GoodProgress(a, p) && GoodPending(a, p.steps, pending) && |p.rounds| <= a.limits.maxRounds
    ensures var r := RetrieveFrom(a, w, p, pending, |p.rounds| + 1);
            r.Ok? && Consistent(identityOf, r.value.state.retrieved)
    decreases a.limits.maxRounds - |p.rounds|
  {
    hide IsConsistentStore;
    hide Consistent;
    hide GoodProgress;
    hide GoodPending;
    hide RoundFrom;
    hide ExpansionOf;
    hide NextQueries;
    var round := |p.rounds| + 1;
    assert Known(p) <= a.limits.maxHits by { RespectsBudget(a, p); }
    if round <= a.limits.maxRounds && pending != [] && Known(p) < a.limits.maxHits {
      RoundSucceeds(w, identityOf, p, pending, 0, Known(p) + RoundBudget(a, p, round), a.limits.maxHits);
      SearchRoundKeeps(a, w, identityOf, p, pending);
      var q := SearchRound(a, w, p, pending, round).value;
      ExpansionSucceeds(w, identityOf, round, q.state);
      var e := ExpansionOf(w, round, q.state).value;
      NextQueriesArePending(a, w, q, e, round);
      RetrieveFromSucceeds(a, w, identityOf, q, NextQueries(a, w, q, e, round));
    }
  }

  /** With such a store, retrieval fails only when none of the proposed queries is usable, and the expansion
      after it succeeds. */
  lemma ConsistentStoreNeverFails(a: Agent, w: World, identityOf: string -> string, proposed: seq<string>)
    requires IsConsistentStore(w, identityOf)
    ensures var r := Retrieve(a, w, proposed);
            && (r.Err? <==> AreFirstUsable(a, proposed, [], [])) && (r.Err? ==> r == Err(NoUsableQuery))
            && (r.Ok? ==> ExpansionOf(w, 0, r.value.state).Ok?)
  {
    hide IsConsistentStore;
    hide Usable;
    hide Clip;
    hide RetrieveFrom;
    hide GoodPending;
    hide GoodProgress;
    hide AreFirstUsable;
    hide ExpansionOf;
    hide Consistent;
    var pending := Clip(Usable(a.fold, proposed, 0, {}), a.limits.maxQueries);
    assert Folds(a.fold, []) == {};
    ClippedAreFirst(a, proposed, []);
    FirstUsableIsOne(a, proposed, [], pending, []);
    FirstQueries(a, proposed);
    NothingDone(a, identityOf);
    NothingInconsistent(identityOf);
    if pending != [] {
      RetrieveFromSucceeds(a, w, identityOf, START, pending);
      ExpansionSucceeds(w, identityOf, 0, RetrieveFrom(a, w, START, pending, 1).value.state);
    }
  }

  /** The first usable queries are determined. */
  lemma FirstUsableIsOne(a: Agent, proposed: seq<string>, executed: seq<string>, r: seq<string>, s: seq<string>)
    requires AreFirstUsable(a, proposed, executed, r)
    ensures AreFirstUsable(a, proposed, executed, s) <==> r == s
  {
    hide Folds;
    var excluded := Folds(a.fold, executed);
    var u, at :| AreFresh(a.fold, proposed, 0, excluded, u, at) && r == u[..Min(|u|, a.limits.maxQueries)];
    if AreFirstUsable(a, proposed, executed, s) {
      var v, bt :| AreFresh(a.fold, proposed, 0, excluded, v, bt) && s == v[..Min(|v|, a.limits.maxQueries)];
      SamePositions(at, bt);
      FreshIsOne(a.fold, proposed, excluded, u, at, v, bt);
    }
  }

  lemma FreshIsOne(fold: Casefold, queries: seq<string>, excluded: set<string>, u: seq<string>, at: seq<nat>, v: seq<string>, bt: seq<nat>)
    requires AreFresh(fold, queries, 0, excluded, u, at) && AreFresh(fold, queries, 0, excluded, v, bt) && at == bt
    ensures u == v
  {
    hide IsFresh;
    hide Collapse;
  }

  /** Increasing lists with the same members are the same. */
  lemma {:induction false} SamePositions(a: seq<nat>, b: seq<nat>)
    requires forall i, j :: 0 <= i < j < |a| ==> a[i] < a[j]
    requires forall i, j :: 0 <= i < j < |b| ==> b[i] < b[j]
    requires forall x :: x in a <==> x in b
    ensures a == b
  {
    if a == [] {
      SomeMember(b);
    } else {
      var m, n := |a| - 1, |b| - 1;
      assert a[m] in b;
      assert n >= 0 && b[n] in a;
      assert a[m] == b[n];
      forall x ensures x in a[..m] <==> x in b[..n] {
        InFront(a, x);
        InFront(b, x);
      }
      SamePositions(a[..m], b[..n]);
    }
  }

  lemma SomeMember(a: seq<nat>)
    ensures a != [] ==> exists x: nat :: x in a
  {
    if a != [] { assert a[0] in a; }
  }

  lemma InFront(a: seq<nat>, x: nat)
    requires a != [] && forall i, j :: 0 <= i < j < |a| ==> a[i] < a[j]
    ensures x in a[..|a| - 1] <==> x in a && x != a[|a| - 1]
  {
    assert a == a[..|a| - 1] + [a[|a| - 1]];
  }
}
