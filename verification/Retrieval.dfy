/** Retrieval hits of src/soloscale/evidence_agent.py: their identity, and `_expand_context_hits`,
    which adds the neighbours of every retrieved chunk. */
module Retrieval {
  import opened Wrappers
  import opened Sorting

  datatype Role = User | Assistant | OtherRole

  /** A retrieved chunk.  `identity` stands for the tuple `_hit_identity` compares (document, source,
      locator, title, role, timestamp and digests); `metadata`, `channels` and `score` are what a
      repeated hit may change. */
  datatype Hit = Hit(id: string, identity: string, role: Role, excerpt: string,
                     metadata: Option<string>, channels: seq<string>, score: real)

  datatype AgentError = AmbiguousDuplicate | AmbiguousPrimary | AmbiguousNeighbor | NoUsableQuery
    | ClaimWithoutEvidence | DuplicateReference | ReferenceOutsideRun | EvidenceChanged

  function Ids(hits: seq<Hit>): (ids: seq<string>) {
    seq(|hits|, i requires 0 <= i < |hits| => hits[i].id)
  }

  /** A dictionary of hits in insertion order, keyed by chunk id. */
  ghost predicate Keyed(hits: seq<Hit>) {
    Distinct(Ids(hits))
  }

  function Position(hits: seq<Hit>, id: string): (i: nat)
    ensures i <= |hits|
    ensures i < |hits| ==> hits[i].id == id
    ensures i == |hits| <==> id !in Ids(hits)
  {
    if hits == [] then 0
    else if hits[0].id == id then assert Ids(hits)[0] == id; 0
    else
      assert Ids(hits)[1..] == Ids(hits[1..]);
      1 + Position(hits[1..], id)
  }

  function Lookup(hits: seq<Hit>, id: string): (h: Option<Hit>)
    ensures h.Some? ==> h.value in hits && h.value.id == id
    ensures h.None? <==> id !in Ids(hits)
  {
    var i := Position(hits, id);
    if i < |hits| then Some(hits[i]) else None
  }

  lemma KeyedSnoc(hits: seq<Hit>, h: Hit)
    requires Keyed(hits) && h.id !in Ids(hits)
    ensures Keyed(hits + [h]) && Ids(hits + [h]) == Ids(hits) + [h.id]
  {
    assert Ids(hits + [h]) == Ids(hits) + [h.id];
  }

  // ----- neighbour expansion

  /** The hits to show the model and, per retrieved chunk, the neighbours it brought in. */
  datatype Expansion = Expansion(hits: seq<Hit>, byPrimary: map<string, seq<string>>)

  /** The neighbour `n` of a primary hit, given what is already known. */
  function AddNeighbor(retrieved: seq<Hit>, primary: string, e: Expansion, n: Hit): (r: Result<Expansion, AgentError>)
    requires primary in e.byPrimary
    ensures r.Ok? ==> r.value.byPrimary.Keys == e.byPrimary.Keys
  {
    var canonical := Lookup(retrieved, n.id);
    if canonical.Some? then
      if canonical.value.identity != n.identity then Err(AmbiguousPrimary) else Ok(e)
    else
      var existing := Lookup(e.hits, n.id);
      if existing.Some? && existing.value.identity != n.identity then Err(AmbiguousNeighbor)
      else
        Ok(Expansion(if existing.Some? then e.hits else e.hits + [n],
                     e.byPrimary[primary := e.byPrimary[primary] + [n.id]]))
  }

  /** The neighbours from the i-th on; the first error ends the expansion. */
  function AddNeighbors(retrieved: seq<Hit>, primary: string, e: Expansion, ns: seq<Hit>, i: nat): (r: Result<Expansion, AgentError>)
    requires i <= |ns| && primary in e.byPrimary
    ensures r.Ok? ==> r.value.byPrimary.Keys == e.byPrimary.Keys
    decreases |ns| - i
  {
    if i == |ns| then Ok(e)
    else
      var next := AddNeighbor(retrieved, primary, e, ns[i]);
      if next.Err? then next else AddNeighbors(retrieved, primary, next.value, ns, i + 1)
  }

  /** The primary itself, unless already there. */
  function AddPrimary(e: Expansion, primary: Hit): (r: Expansion) {
    if primary.id in Ids(e.hits) then e else e.(hits := e.hits + [primary])
  }

  function NoNeighbors(retrieved: seq<Hit>): (m: map<string, seq<string>>) {
    map id | id in Ids(retrieved) :: []
  }

  /** Every retrieved id has a neighbour list. */
  ghost predicate Listed(retrieved: seq<Hit>, e: Expansion) {
    forall i :: 0 <= i < |retrieved| ==> retrieved[i].id in e.byPrimary
  }

  /** The retrieved hits from the k-th on; neighbors[i] is what the store returned for hit i. */
  function ExpandFrom(retrieved: seq<Hit>, neighbors: seq<seq<Hit>>, e: Expansion, k: nat): (r: Result<Expansion, AgentError>)
    requires k <= |retrieved| == |neighbors| && Listed(retrieved, e)
    decreases |retrieved| - k
  {
    if k == |retrieved| then Ok(e)
    else
      var next := AddNeighbors(retrieved, retrieved[k].id, AddPrimary(e, retrieved[k]), neighbors[k], 0);
      if next.Err? then next else ExpandFrom(retrieved, neighbors, next.value, k + 1)
  }

  function Expand(retrieved: seq<Hit>, neighbors: seq<seq<Hit>>): (r: Result<Expansion, AgentError>)
    requires |retrieved| == |neighbors|
  {
    StartIsListed(retrieved);
    ExpandFrom(retrieved, neighbors, Expansion([], NoNeighbors(retrieved)), 0)
  }

  lemma StartIsListed(retrieved: seq<Hit>)
    ensures Listed(retrieved, Expansion([], NoNeighbors(retrieved)))
  {
    forall i | 0 <= i < |retrieved| ensures retrieved[i].id in NoNeighbors(retrieved) {
      assert Ids(retrieved)[i] == retrieved[i].id;
    }
  }

  method ExpandContextHits(retrieved: seq<Hit>, neighbors: seq<seq<Hit>>) returns (r: Result<Expansion, AgentError>)
    requires |retrieved| == |neighbors|
    ensures r == Expand(retrieved, neighbors)
  {
    hide AddNeighbors;
    hide Ids;
    StartIsListed(retrieved);
    var e := Expansion([], NoNeighbors(retrieved));
    for k := 0 to |retrieved|
      invariant Listed(retrieved, e)
      invariant Expand(retrieved, neighbors) == ExpandFrom(retrieved, neighbors, e, k)
    {
      var next := AddNeighborsOf(retrieved, retrieved[k].id, AddPrimary(e, retrieved[k]), neighbors[k]);
      if next.Err? {
        return next;
      }
      e := next.value;
    }
    return Ok(e);
  }

  method AddNeighborsOf(retrieved: seq<Hit>, primary: string, start: Expansion, ns: seq<Hit>) returns (r: Result<Expansion, AgentError>)
    requires primary in start.byPrimary
    ensures r == AddNeighbors(retrieved, primary, start, ns, 0)
    ensures r.Ok? ==> r.value.byPrimary.Keys == start.byPrimary.Keys
  {
    hide Lookup;
    hide Ids;
    var expanded, byPrimary := start.hits, start.byPrimary;
    for i := 0 to |ns|
      invariant byPrimary.Keys == start.byPrimary.Keys
      invariant AddNeighbors(retrieved, primary, start, ns, 0)
             == AddNeighbors(retrieved, primary, Expansion(expanded, byPrimary), ns, i)
    {
      var hit := ns[i];
      var canonical := Lookup(retrieved, hit.id);
      if canonical.Some? {
        if canonical.value.identity != hit.identity {
          return Err(AmbiguousPrimary);
        }
        continue;
      }
      var existing := Lookup(expanded, hit.id);
      if existing.Some? && existing.value.identity != hit.identity {
        return Err(AmbiguousNeighbor);
      }
      if existing.None? {
        expanded := expanded + [hit];
      }
      byPrimary := byPrimary[primary := byPrimary[primary] + [hit.id]];
    }
    return Ok(Expansion(expanded, byPrimary));
  }

  // ----- what expansion keeps

  /** Hits are keyed by id; neighbour lists name shown hits that were not retrieved. */
  ghost predicate GoodExpansion(retrieved: seq<Hit>, e: Expansion) {
    && Keyed(e.hits)
    && (forall p, id :: p in e.byPrimary && id in e.byPrimary[p] ==> id in Ids(e.hits) && id !in Ids(retrieved))
  }

  /** Going from d to e keeps every shown hit and every list but one. */
  ghost predicate Extends(d: Expansion, e: Expansion, primary: string) {
    && d.byPrimary.Keys == e.byPrimary.Keys
    && (forall id :: id in Ids(d.hits) ==> id in Ids(e.hits))
    && (forall p :: p in d.byPrimary && p != primary ==> e.byPrimary[p] == d.byPrimary[p])
  }

  lemma AddNeighborGood(retrieved: seq<Hit>, primary: string, e: Expansion, n: Hit)
    requires primary in e.byPrimary && GoodExpansion(retrieved, e)
    requires AddNeighbor(retrieved, primary, e, n).Ok?
    ensures var r := AddNeighbor(retrieved, primary, e, n).value;
            && GoodExpansion(retrieved, r) && Extends(e, r, primary)
            && (r.byPrimary[primary] == e.byPrimary[primary] || r.byPrimary[primary] == e.byPrimary[primary] + [n.id])
  {
    hide Ids;
    if Lookup(retrieved, n.id).None? && Lookup(e.hits, n.id).None? {
      KeyedSnoc(e.hits, n);
    }
  }

  /** The list holds distinct ids, none of a neighbour still to come. */
  ghost predicate FreshList(list: seq<string>, ns: seq<Hit>, i: nat) {
    Distinct(list) && forall j :: i <= j < |ns| ==> ns[j].id !in list
  }

  lemma FreshListStep(before: seq<string>, after: seq<string>, ns: seq<Hit>, i: nat)
    requires i < |ns| && Keyed(ns) && FreshList(before, ns, i)
    requires after == before || after == before + [ns[i].id]
    ensures FreshList(after, ns, i + 1)
  {
    forall j | i < j < |ns| ensures ns[j].id != ns[i].id {
      assert Ids(ns)[i] != Ids(ns)[j];
    }
  }

  lemma {:induction false} AddNeighborsGood(retrieved: seq<Hit>, primary: string, e: Expansion, ns: seq<Hit>, i: nat)
    requires i <= |ns| && primary in e.byPrimary && GoodExpansion(retrieved, e)
    requires AddNeighbors(retrieved, primary, e, ns, i).Ok?
    ensures var r := AddNeighbors(retrieved, primary, e, ns, i).value;
            && GoodExpansion(retrieved, r) && Extends(e, r, primary)
            && (Keyed(ns) && FreshList(e.byPrimary[primary], ns, i) ==> Distinct(r.byPrimary[primary]))
    decreases |ns| - i
  {
    hide Ids;
    hide Keyed;
    hide AddNeighbor;
    if i < |ns| {
      AddNeighborGood(retrieved, primary, e, ns[i]);
      var next := AddNeighbor(retrieved, primary, e, ns[i]).value;
      AddNeighborsGood(retrieved, primary, next, ns, i + 1);
      if Keyed(ns) && FreshList(e.byPrimary[primary], ns, i) {
        FreshListStep(e.byPrimary[primary], next.byPrimary[primary], ns, i);
      }
    }
  }

  /** Before the k-th retrieved hit: the earlier ones are shown. */
  ghost predicate Progress(retrieved: seq<Hit>, e: Expansion, k: nat) {
    && Listed(retrieved, e) && GoodExpansion(retrieved, e)
    && (forall i :: 0 <= i < k <= |retrieved| ==> retrieved[i].id in Ids(e.hits))
  }

  /** No list repeats an id, and the later hits' lists are still empty. */
  ghost predicate DistinctLists(retrieved: seq<Hit>, e: Expansion, k: nat)
    requires Listed(retrieved, e)
  {
    && (forall i :: k <= i < |retrieved| ==> e.byPrimary[retrieved[i].id] == [])
    && (forall p :: p in e.byPrimary ==> Distinct(e.byPrimary[p]))
  }

  lemma ExpandStep(retrieved: seq<Hit>, e: Expansion, ns: seq<Hit>, k: nat)
    requires k < |retrieved| && Progress(retrieved, e, k)
    requires AddNeighbors(retrieved, retrieved[k].id, AddPrimary(e, retrieved[k]), ns, 0).Ok?
    ensures var r := AddNeighbors(retrieved, retrieved[k].id, AddPrimary(e, retrieved[k]), ns, 0).value;
            && Progress(retrieved, r, k + 1)
            && (Keyed(retrieved) && Keyed(ns) && DistinctLists(retrieved, e, k) ==> DistinctLists(retrieved, r, k + 1))
  {
    hide AddNeighbors;
    var p := retrieved[k];
    if p.id !in Ids(e.hits) { KeyedSnoc(e.hits, p); }
    var start := AddPrimary(e, p);
    AddNeighborsGood(retrieved, p.id, start, ns, 0);
    if Keyed(retrieved) {
      forall i | 0 <= i < |retrieved| && i != k ensures retrieved[i].id != p.id {
        assert Ids(retrieved)[k] != Ids(retrieved)[i];
      }
    }
  }

  /** The store never repeats a chunk within one of the answers from the k-th on. */
  ghost predicate KeyedAnswers(neighbors: seq<seq<Hit>>, k: nat) {
    forall i :: k <= i < |neighbors| ==> Keyed(neighbors[i])
  }

  lemma {:induction false} ExpandFromGood(retrieved: seq<Hit>, neighbors: seq<seq<Hit>>, e: Expansion, k: nat)
    requires k <= |retrieved| == |neighbors| && Progress(retrieved, e, k)
    requires ExpandFrom(retrieved, neighbors, e, k).Ok?
    ensures var r := ExpandFrom(retrieved, neighbors, e, k).value;
            && Progress(retrieved, r, |retrieved|)
            && (Keyed(retrieved) && KeyedAnswers(neighbors, k) && DistinctLists(retrieved, e, k) ==> DistinctLists(retrieved, r, |retrieved|))
    decreases |retrieved| - k
  {
    hide AddNeighbors;
    hide AddPrimary;
    hide Keyed;
    hide GoodExpansion;
    hide DistinctLists;
    if k < |retrieved| {
      StartHasLists(e, retrieved[k]);
      ExpandStep(retrieved, e, neighbors[k], k);
      ExpandFromGood(retrieved, neighbors, AddNeighbors(retrieved, retrieved[k].id, AddPrimary(e, retrieved[k]), neighbors[k], 0).value, k + 1);
    }
  }

  lemma StartHasLists(e: Expansion, primary: Hit)
    ensures AddPrimary(e, primary).byPrimary == e.byPrimary
  {
    hide Ids;
  }

  /** Expansion shows every retrieved hit, keys all shown hits by distinct ids, and lists per primary
      neighbours that were not retrieved themselves; the lists are distinct when the store never repeats an
      id within one answer. */
  lemma ExpansionCorrect(retrieved: seq<Hit>, neighbors: seq<seq<Hit>>)
    requires |retrieved| == |neighbors| && Expand(retrieved, neighbors).Ok?
    ensures var e := Expand(retrieved, neighbors).value;
            && GoodExpansion(retrieved, e)
            && (forall i :: 0 <= i < |retrieved| ==> retrieved[i].id in Ids(e.hits))
            && (Keyed(retrieved) && KeyedAnswers(neighbors, 0) ==> forall p :: p in e.byPrimary ==> Distinct(e.byPrimary[p]))
  {
    StartIsListed(retrieved);
    ExpandFromGood(retrieved, neighbors, Expansion([], NoNeighbors(retrieved)), 0);
  }

  // ----- exactly when expansion fails

  /** All the neighbours the store answered with, from the k-th retrieved hit's on. */
  function AllNeighbors(neighbors: seq<seq<Hit>>, k: nat): (ns: seq<Hit>)
    requires k <= |neighbors|
    decreases |neighbors| - k
  {
    if k == |neighbors| then [] else neighbors[k] + AllNeighbors(neighbors, k + 1)
  }

  predicate SameAsFound(found: Option<Hit>, n: Hit) {
    found.Some? ==> found.value.identity == n.identity
  }

  /** A neighbour that was retrieved has the identity it was retrieved with, and one that was not has the
      identity it is shown with. */
  predicate AgreesWith(retrieved: seq<Hit>, shown: seq<Hit>, n: Hit) {
    SameAsFound(Lookup(retrieved, n.id), n) && (n.id !in Ids(retrieved) ==> SameAsFound(Lookup(shown, n.id), n))
  }

  /** Neighbours that were not retrieved have the same identity whenever they have the same id. */
  ghost predicate MutuallyAgree(retrieved: seq<Hit>, ns: seq<Hit>) {
    forall m, n :: m in ns && n in ns && m.id == n.id && m.id !in Ids(retrieved) ==> m.identity == n.identity
  }

  ghost predicate Agreeing(retrieved: seq<Hit>, shown: seq<Hit>, ns: seq<Hit>) {
    (forall n :: n in ns ==> AgreesWith(retrieved, shown, n)) && MutuallyAgree(retrieved, ns)
  }

  lemma {:induction false} LookupSnoc(hits: seq<Hit>, h: Hit, id: string)
    ensures Lookup(hits + [h], id) ==
            if Lookup(hits, id).Some? then Lookup(hits, id) else if h.id == id then Some(h) else None
  {
    hide Ids;
    if hits == [] {
      assert [] + [h] == [h];
      assert Position([h], id) == if h.id == id then 0 else 1 + Position([h][1..], id);
    } else {
      assert (hits + [h])[1..] == hits[1..] + [h];
      LookupSnoc(hits[1..], h, id);
    }
  }

  lemma AgreeingCons(retrieved: seq<Hit>, shown: seq<Hit>, n: Hit, rest: seq<Hit>)
    ensures Agreeing(retrieved, shown, [n] + rest) <==>
            && AgreesWith(retrieved, shown, n) && Agreeing(retrieved, shown, rest)
            && (n.id !in Ids(retrieved) ==> forall m :: m in rest && m.id == n.id ==> m.identity == n.identity)
  {
    hide AgreesWith;
    hide Ids;
    var all := [n] + rest;
    assert forall x :: x in all <==> x == n || x in rest;
    if Agreeing(retrieved, shown, all) {
      assert n in all;
      forall m | m in rest ensures AgreesWith(retrieved, shown, m) { assert m in all; }
      assert MutuallyAgree(retrieved, rest);
    }
  }

  /** What is shown after a neighbour was added: agreement with it is agreement with what was shown
      before and with the neighbour. */
  lemma ShowingOneMore(retrieved: seq<Hit>, shown: seq<Hit>, n: Hit, rest: seq<Hit>)
    requires n.id !in Ids(retrieved) && Lookup(shown, n.id).None?
    ensures Agreeing(retrieved, shown + [n], rest) <==>
            Agreeing(retrieved, shown, rest) && forall m :: m in rest && m.id == n.id ==> m.identity == n.identity
  {
    hide Lookup;
    hide Ids;
    hide MutuallyAgree;
    forall m: Hit
      ensures AgreesWith(retrieved, shown + [n], m) <==>
              AgreesWith(retrieved, shown, m) && (m.id == n.id ==> m.identity == n.identity)
    {
      LookupSnoc(shown, n, m.id);
    }
  }

  /** One neighbour is accepted, and agreement goes on with what is shown then, exactly when it agrees
      together with the neighbours after it. */
  lemma NeighborOkIff(retrieved: seq<Hit>, primary: string, e: Expansion, n: Hit, rest: seq<Hit>)
    requires primary in e.byPrimary
    ensures var r := AddNeighbor(retrieved, primary, e, n);
            Agreeing(retrieved, e.hits, [n] + rest) <==> r.Ok? && Agreeing(retrieved, r.value.hits, rest)
  {
    hide Ids;
    hide Lookup;
    hide Agreeing;
    AgreeingCons(retrieved, e.hits, n, rest);
    if n.id !in Ids(retrieved) {
      if Lookup(e.hits, n.id).None? {
        ShowingOneMore(retrieved, e.hits, n, rest);
      } else if Agreeing(retrieved, e.hits, rest) && AgreesWith(retrieved, e.hits, n) {
        SameAsShown(retrieved, e.hits, n, rest);
      }
    }
  }

  lemma SameAsShown(retrieved: seq<Hit>, shown: seq<Hit>, n: Hit, rest: seq<Hit>)
    requires Agreeing(retrieved, shown, rest) && AgreesWith(retrieved, shown, n)
    requires n.id !in Ids(retrieved) && Lookup(shown, n.id).Some?
    ensures forall m :: m in rest && m.id == n.id ==> m.identity == n.identity
  {
    hide Ids;
    hide Lookup;
    forall m | m in rest && m.id == n.id ensures m.identity == n.identity { assert AgreesWith(retrieved, shown, m); }
  }

  lemma {:induction false} NeighborsOkIff(retrieved: seq<Hit>, primary: string, e: Expansion, ns: seq<Hit>, i: nat, rest: seq<Hit>)
    requires i <= |ns| && primary in e.byPrimary
    ensures var r := AddNeighbors(retrieved, primary, e, ns, i);
            Agreeing(retrieved, e.hits, ns[i..] + rest) <==> r.Ok? && Agreeing(retrieved, r.value.hits, rest)
    decreases |ns| - i
  {
    hide Agreeing;
    hide AddNeighbor;
    if i == |ns| {
      assert ns[i..] + rest == rest;
    } else {
      NeighborOkIff(retrieved, primary, e, ns[i], ns[i + 1..] + rest);
      assert [ns[i]] + (ns[i + 1..] + rest) == ns[i..] + rest;
      var next := AddNeighbor(retrieved, primary, e, ns[i]);
      if next.Ok? { NeighborsOkIff(retrieved, primary, next.value, ns, i + 1, rest); }
    }
  }

  /** Showing a retrieved hit does not change what neighbours have to agree with. */
  lemma PrimaryKeepsAgreement(retrieved: seq<Hit>, e: Expansion, k: nat, ns: seq<Hit>)
    requires k < |retrieved|
    ensures Agreeing(retrieved, AddPrimary(e, retrieved[k]).hits, ns) <==> Agreeing(retrieved, e.hits, ns)
  {
    hide Lookup;
    hide MutuallyAgree;
    assert Ids(retrieved)[k] == retrieved[k].id;
    hide Ids;
    forall n | n in ns && n.id !in Ids(retrieved) ensures Lookup(AddPrimary(e, retrieved[k]).hits, n.id) == Lookup(e.hits, n.id) {
      LookupSnoc(e.hits, retrieved[k], n.id);
    }
  }

  lemma {:induction false} ExpandFromOkIff(retrieved: seq<Hit>, neighbors: seq<seq<Hit>>, e: Expansion, k: nat)
    requires k <= |retrieved| == |neighbors| && Listed(retrieved, e)
    ensures ExpandFrom(retrieved, neighbors, e, k).Ok? <==> Agreeing(retrieved, e.hits, AllNeighbors(neighbors, k))
    decreases |retrieved| - k
  {
    hide AgreesWith;
    hide AddNeighbors;
    hide AddPrimary;
    if k < |retrieved| {
      hide Agreeing;
      var start, rest := AddPrimary(e, retrieved[k]), AllNeighbors(neighbors, k + 1);
      StartHasLists(e, retrieved[k]);
      PrimaryKeepsAgreement(retrieved, e, k, neighbors[k] + rest);
      NeighborsOkIff(retrieved, retrieved[k].id, start, neighbors[k], 0, rest);
      assert neighbors[k][0..] == neighbors[k];
      var next := AddNeighbors(retrieved, retrieved[k].id, start, neighbors[k], 0);
      if next.Ok? { ExpandFromOkIff(retrieved, neighbors, next.value, k + 1); }
    }
  }

  /** Expansion fails exactly when the store answers with a retrieved chunk under another identity, or with
      one chunk that was not retrieved under two. */
  lemma ExpandOkIff(retrieved: seq<Hit>, neighbors: seq<seq<Hit>>)
    requires |retrieved| == |neighbors|
    ensures var ns := AllNeighbors(neighbors, 0);
            Expand(retrieved, neighbors).Ok? <==>
            && (forall n :: n in ns ==> SameAsFound(Lookup(retrieved, n.id), n)) && MutuallyAgree(retrieved, ns)
  {
    hide Lookup;
    hide MutuallyAgree;
    hide SameAsFound;
    StartIsListed(retrieved);
    ExpandFromOkIff(retrieved, neighbors, Expansion([], NoNeighbors(retrieved)), 0);
    forall n: Hit ensures SameAsFound(Lookup([], n.id), n) { NothingFound(n); }
  }

  lemma NothingFound(n: Hit)
    ensures SameAsFound(Lookup([], n.id), n)
  {
  }
}
