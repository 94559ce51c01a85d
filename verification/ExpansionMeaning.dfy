/** What `_expand_context_hits` of src/soloscale/evidence_agent.py shows: every retrieved chunk and every
    neighbour, in order, and per retrieved chunk the list of its neighbours. */
module ExpansionMeaning {
  import opened Wrappers
  import opened Sorting
  import opened Retrieval
  import opened SearchMeaning

  /** The ids of the neighbours that were not retrieved themselves. */
  function Others(retrieved: seq<Hit>, ns: seq<Hit>): (ids: seq<string>) {
    Sift(Ids(ns), id => id !in Ids(retrieved))
  }

  lemma OthersCons(retrieved: seq<Hit>, ns: seq<Hit>, i: nat)
    requires i < |ns|
    ensures Others(retrieved, ns[i..]) == (if ns[i].id in Ids(retrieved) then [] else [ns[i].id]) + Others(retrieved, ns[i + 1..])
  {
    assert Ids(ns[i..])[0] == ns[i].id && Ids(ns[i..])[1..] == Ids(ns[i + 1..]);
  }

  /** What is shown after these neighbours: each chunk as it was shown first, new ones in order. */
  ghost predicate ShowsToo(retrieved: seq<Hit>, before: seq<Hit>, ns: seq<Hit>, after: seq<Hit>) {
    && Ids(after) == Dedupe(Ids(before) + Others(retrieved, ns))
    && forall id :: Lookup(after, id)
         == if Lookup(before, id).Some? || id in Ids(retrieved) then Lookup(before, id) else Lookup(ns, id)
  }

  lemma ShowsNothingMore(retrieved: seq<Hit>, before: seq<Hit>)
    requires Keyed(before)
    ensures ShowsToo(retrieved, before, [], before)
  {
    assert Ids(before) + Others(retrieved, []) == Ids(before);
    DedupeOfDistinct(Ids(before));
  }

  /** The neighbour joins what is shown when it is new. */
  lemma OneShown(retrieved: seq<Hit>, before: seq<Hit>, n: Hit, ns: seq<Hit>, middle: seq<Hit>, after: seq<Hit>)
    requires Keyed(before) && ShowsToo(retrieved, middle, ns, after)
    requires middle == if n.id in Ids(retrieved) || Lookup(before, n.id).Some? then before else before + [n]
    ensures ShowsToo(retrieved, before, [n] + ns, after)
  {
    hide Ids;
    hide Dedupe;
    hide Lookup;
    var all := [n] + ns;
    assert all[0..] == all && all[0 + 1..] == ns && all[0] == n;
    OthersCons(retrieved, all, 0);
    var rest := Others(retrieved, ns);
    forall id
      ensures Lookup(after, id) == if Lookup(before, id).Some? || id in Ids(retrieved) then Lookup(before, id) else Lookup(all, id)
    {
      LookupConcat([n], ns, id);
      LookupOne(n, id);
      LookupSnoc(before, n, id);
    }
    OrderOfOne(retrieved, before, n, rest, middle);
  }

  lemma OrderOfOne(retrieved: seq<Hit>, before: seq<Hit>, n: Hit, rest: seq<string>, middle: seq<Hit>)
    requires Keyed(before)
    requires middle == if n.id in Ids(retrieved) || Lookup(before, n.id).Some? then before else before + [n]
    ensures Dedupe(Ids(middle) + rest)
         == Dedupe(Ids(before) + ((if n.id in Ids(retrieved) then [] else [n.id]) + rest))
  {
    hide Dedupe;
    var known := Ids(before);
    assert known + ([] + rest) == known + rest;
    assert known + ([n.id] + rest) == known + [n.id] + rest;
    if n.id !in Ids(retrieved) {
      if n.id in known {
        DedupeKnown(known, n.id, rest);
      } else {
        KeyedSnoc(before, n);
      }
    }
  }

  /** What these neighbours of a primary make of the expansion. */
  ghost predicate NeighborsAdded(retrieved: seq<Hit>, primary: string, e: Expansion, ns: seq<Hit>, r: Expansion)
    requires primary in e.byPrimary
  {
    && Keyed(r.hits) && ShowsToo(retrieved, e.hits, ns, r.hits)
    && r.byPrimary == e.byPrimary[primary := e.byPrimary[primary] + Others(retrieved, ns)]
  }

  lemma NoNeighborAdded(retrieved: seq<Hit>, primary: string, e: Expansion)
    requires primary in e.byPrimary && Keyed(e.hits)
    ensures NeighborsAdded(retrieved, primary, e, [], e)
  {
    ShowsNothingMore(retrieved, e.hits);
    NoOthers(retrieved);
    assert e.byPrimary[primary] + [] == e.byPrimary[primary];
  }

  lemma OneNeighborAdded(retrieved: seq<Hit>, primary: string, e: Expansion, n: Hit, ns: seq<Hit>, r: Expansion)
    requires primary in e.byPrimary && Keyed(e.hits) && AddNeighbor(retrieved, primary, e, n).Ok?
    requires NeighborsAdded(retrieved, primary, AddNeighbor(retrieved, primary, e, n).value, ns, r)
    ensures NeighborsAdded(retrieved, primary, e, [n] + ns, r)
  {
    hide Ids;
    hide Lookup;
    hide ShowsToo;
    hide Others;
    hide Keyed;
    var next := AddNeighbor(retrieved, primary, e, n).value;
    OneShown(retrieved, e.hits, n, ns, next.hits, r.hits);
    var all := [n] + ns;
    assert all[0..] == all && all[0 + 1..] == ns && all[0] == n;
    OthersCons(retrieved, all, 0);
    var rest := Others(retrieved, ns);
    assert e.byPrimary[primary] + ([n.id] + rest) == e.byPrimary[primary] + [n.id] + rest;
    assert e.byPrimary[primary] + ([] + rest) == e.byPrimary[primary] + rest;
  }

  lemma NextIsKeyed(retrieved: seq<Hit>, primary: string, e: Expansion, n: Hit)
    requires primary in e.byPrimary && Keyed(e.hits) && AddNeighbor(retrieved, primary, e, n).Ok?
    ensures Keyed(AddNeighbor(retrieved, primary, e, n).value.hits)
  {
    hide Ids;
    if Lookup(retrieved, n.id).None? && Lookup(e.hits, n.id).None? { KeyedSnoc(e.hits, n); }
  }

  lemma {:induction false} NeighborsShown(retrieved: seq<Hit>, primary: string, e: Expansion, ns: seq<Hit>, i: nat)
    requires i <= |ns| && primary in e.byPrimary && Keyed(e.hits) && AddNeighbors(retrieved, primary, e, ns, i).Ok?
    ensures NeighborsAdded(retrieved, primary, e, ns[i..], AddNeighbors(retrieved, primary, e, ns, i).value)
    decreases |ns| - i
  {
    hide NeighborsAdded;
    hide AddNeighbor;
    hide Keyed;
    if i == |ns| {
      assert ns[i..] == [];
      NoNeighborAdded(retrieved, primary, e);
    } else {
      NextIsKeyed(retrieved, primary, e, ns[i]);
      NeighborsShown(retrieved, primary, AddNeighbor(retrieved, primary, e, ns[i]).value, ns, i + 1);
      OneNeighborAdded(retrieved, primary, e, ns[i], ns[i + 1..], AddNeighbors(retrieved, primary, e, ns, i).value);
      assert ns[i..] == [ns[i]] + ns[i + 1..];
    }
  }

  lemma NoOthers(retrieved: seq<Hit>)
    ensures Others(retrieved, []) == []
  {
  }

  // ----- the whole expansion

  /** The shown ids, with repetitions: each retrieved chunk from the k-th on before its neighbours. */
  function ShownIds(retrieved: seq<Hit>, neighbors: seq<seq<Hit>>, k: nat): (ids: seq<string>)
    requires k <= |retrieved| == |neighbors|
    decreases |retrieved| - k
  {
    if k == |retrieved| then [] else [retrieved[k].id] + Others(retrieved, neighbors[k]) + ShownIds(retrieved, neighbors, k + 1)
  }

  /** What is shown from the k-th retrieved chunk on. */
  ghost predicate ShowsFrom(retrieved: seq<Hit>, neighbors: seq<seq<Hit>>, k: nat, before: seq<Hit>, after: seq<Hit>)
    requires k <= |retrieved| == |neighbors|
  {
    && Ids(after) == Dedupe(Ids(before) + ShownIds(retrieved, neighbors, k))
    && forall id :: Lookup(after, id) ==
         if Lookup(before, id).Some? then Lookup(before, id)
         else if id in Ids(retrieved) then Lookup(retrieved[k..], id) else Lookup(AllNeighbors(neighbors, k), id)
  }

  /** The lists of the chunks from the k-th on have got their neighbours, all other lists are as they were. */
  ghost predicate ListsFrom(retrieved: seq<Hit>, neighbors: seq<seq<Hit>>, k: nat, before: map<string, seq<string>>, after: map<string, seq<string>>)
    requires k <= |retrieved| == |neighbors|
  {
    && before.Keys == after.Keys
    && (forall i :: k <= i < |retrieved| && retrieved[i].id in before ==>
          after[retrieved[i].id] == before[retrieved[i].id] + Others(retrieved, neighbors[i]))
    && (forall id :: id in before && id !in Ids(retrieved[k..]) ==> after[id] == before[id])
  }

  lemma PrimaryShown(retrieved: seq<Hit>, e: Expansion, k: nat)
    requires k < |retrieved| && Keyed(e.hits)
    ensures var start := AddPrimary(e, retrieved[k]);
            && Keyed(start.hits) && start.byPrimary == e.byPrimary
            && Ids(start.hits) == Dedupe(Ids(e.hits) + [retrieved[k].id])
            && forall id :: Lookup(start.hits, id) ==
                 if Lookup(e.hits, id).Some? then Lookup(e.hits, id) else if id == retrieved[k].id then Some(retrieved[k]) else None
  {
    hide Lookup;
    var p := retrieved[k];
    var known := Ids(e.hits);
    DedupeOfDistinct(known);
    assert (known + [p.id])[..|known|] == known;
    if p.id !in known { KeyedSnoc(e.hits, p); }
    forall id { LookupSnoc(e.hits, p, id); }
  }

  lemma StepShown(retrieved: seq<Hit>, neighbors: seq<seq<Hit>>, k: nat, before: seq<Hit>, start: seq<Hit>, middle: seq<Hit>, after: seq<Hit>)
    requires k < |retrieved| == |neighbors|
    requires Ids(start) == Dedupe(Ids(before) + [retrieved[k].id])
    requires forall id :: Lookup(start, id) ==
               if Lookup(before, id).Some? then Lookup(before, id) else if id == retrieved[k].id then Some(retrieved[k]) else None
    requires ShowsToo(retrieved, start, neighbors[k], middle) && ShowsFrom(retrieved, neighbors, k + 1, middle, after)
    ensures ShowsFrom(retrieved, neighbors, k, before, after)
  {
    hide Lookup;
    hide Ids;
    hide Dedupe;
    hide Others;
    OrderOfStep(Ids(before), retrieved[k].id, Others(retrieved, neighbors[k]), ShownIds(retrieved, neighbors, k + 1));
    forall id
      ensures Lookup(after, id) ==
        if Lookup(before, id).Some? then Lookup(before, id)
        else if id in Ids(retrieved) then Lookup(retrieved[k..], id) else Lookup(AllNeighbors(neighbors, k), id)
    {
      assert retrieved[k..] == [retrieved[k]] + retrieved[k + 1..];
      LookupConcat([retrieved[k]], retrieved[k + 1..], id);
      LookupOne(retrieved[k], id);
      LookupConcat(neighbors[k], AllNeighbors(neighbors, k + 1), id);
      IdOf(retrieved, k);
    }
  }

  lemma IdOf(hits: seq<Hit>, k: nat)
    requires k < |hits|
    ensures hits[k].id in Ids(hits)
  {
    assert Ids(hits)[k] == hits[k].id;
  }

  lemma OrderOfStep(known: seq<string>, id: string, others: seq<string>, rest: seq<string>)
    ensures Dedupe(Dedupe(Dedupe(known + [id]) + others) + rest) == Dedupe(known + ([id] + others + rest))
  {
    hide Dedupe;
    DedupeConcat(known + [id], others);
    DedupeConcat(known + [id] + others, rest);
    assert known + [id] + others + rest == known + ([id] + others + rest);
  }

  lemma StepLists(retrieved: seq<Hit>, neighbors: seq<seq<Hit>>, k: nat, before: map<string, seq<string>>, after: map<string, seq<string>>)
    requires k < |retrieved| == |neighbors| && Keyed(retrieved) && retrieved[k].id in before
    requires var p := retrieved[k].id; ListsFrom(retrieved, neighbors, k + 1, before[p := before[p] + Others(retrieved, neighbors[k])], after)
    ensures ListsFrom(retrieved, neighbors, k, before, after)
  {
    hide Others;
    var p := retrieved[k].id;
    forall i | 0 <= i < |retrieved| && i != k ensures retrieved[i].id != p { assert Ids(retrieved)[i] != Ids(retrieved)[k]; }
    assert Ids(retrieved[k..]) == [p] + Ids(retrieved[k + 1..]);
    var rest := retrieved[k + 1..];
    assert forall j :: 0 <= j < |rest| ==> rest[j].id != p && Ids(rest)[j] == rest[j].id;
  }

  lemma {:induction false} ExpandFromShows(retrieved: seq<Hit>, neighbors: seq<seq<Hit>>, e: Expansion, k: nat)
    requires k <= |retrieved| == |neighbors| && Keyed(retrieved) && Keyed(e.hits) && Listed(retrieved, e)
    requires ExpandFrom(retrieved, neighbors, e, k).Ok?
    ensures var r := ExpandFrom(retrieved, neighbors, e, k).value;
            ShowsFrom(retrieved, neighbors, k, e.hits, r.hits) && ListsFrom(retrieved, neighbors, k, e.byPrimary, r.byPrimary)
    decreases |retrieved| - k
  {
    hide Keyed;
    hide AddNeighbors;
    hide AddPrimary;
    hide ShowsFrom;
    hide ListsFrom;
    hide ShowsToo;
    hide Others;
    if k == |retrieved| {
      NothingFrom(retrieved, neighbors, e);
    } else {
      var start := AddPrimary(e, retrieved[k]);
      PrimaryShown(retrieved, e, k);
      var next := AddNeighbors(retrieved, retrieved[k].id, start, neighbors[k], 0).value;
      NeighborsShown(retrieved, retrieved[k].id, start, neighbors[k], 0);
      assert neighbors[k][0..] == neighbors[k];
      ExpandFromShows(retrieved, neighbors, next, k + 1);
      var r := ExpandFrom(retrieved, neighbors, e, k).value;
      StepShown(retrieved, neighbors, k, e.hits, start.hits, next.hits, r.hits);
      StepLists(retrieved, neighbors, k, e.byPrimary, r.byPrimary);
    }
  }

  lemma NothingFrom(retrieved: seq<Hit>, neighbors: seq<seq<Hit>>, e: Expansion)
    requires |retrieved| == |neighbors| && Keyed(e.hits)
    ensures ShowsFrom(retrieved, neighbors, |retrieved|, e.hits, e.hits)
    ensures ListsFrom(retrieved, neighbors, |retrieved|, e.byPrimary, e.byPrimary)
  {
    var k := |retrieved|;
    assert retrieved[k..] == [];
    assert Ids(e.hits) + [] == Ids(e.hits);
    DedupeOfDistinct(Ids(e.hits));
    forall id ensures id in Ids(retrieved) ==> Lookup(retrieved[k..], id) == None { }
    forall id | Lookup(e.hits, id).None? ensures Lookup(AllNeighbors(neighbors, k), id) == None { }
  }

  /** The expansion: the shown chunks are the retrieved ones, each before its neighbours, every chunk once and
      as it came first (a retrieved one as it was retrieved); and each retrieved chunk's list has all its
      neighbours that were not retrieved, in order. */
  lemma ExpansionIs(retrieved: seq<Hit>, neighbors: seq<seq<Hit>>)
    requires |retrieved| == |neighbors| && Keyed(retrieved) && Expand(retrieved, neighbors).Ok?
    ensures var e := Expand(retrieved, neighbors).value;
            && Ids(e.hits) == Dedupe(ShownIds(retrieved, neighbors, 0))
            && (forall id :: Lookup(e.hits, id) ==
                  if id in Ids(retrieved) then Lookup(retrieved, id) else Lookup(AllNeighbors(neighbors, 0), id))
            && (forall i :: 0 <= i < |retrieved| ==>
                  retrieved[i].id in e.byPrimary && e.byPrimary[retrieved[i].id] == Others(retrieved, neighbors[i]))
  {
    hide Others;
    hide ShownIds;
    hide AllNeighbors;
    StartIsListed(retrieved);
    var start := Expansion([], NoNeighbors(retrieved));
    assert Keyed(start.hits);
    ExpandFromShows(retrieved, neighbors, start, 0);
    assert Ids([]) + ShownIds(retrieved, neighbors, 0) == ShownIds(retrieved, neighbors, 0);
    assert retrieved[0..] == retrieved;
    forall id ensures Lookup([], id) == None { }
    forall i | 0 <= i < |retrieved| ensures [] + Others(retrieved, neighbors[i]) == Others(retrieved, neighbors[i]) { }
  }
}
