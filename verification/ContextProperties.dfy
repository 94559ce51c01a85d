/** What `_build_context` promises about the context it packs, for every configuration and every
    answer of the knowledge store. */
module ContextProperties {
  import opened Wrappers
  import opened PyText
  import opened Sorting
  import opened Utf8
  import opened ContextRecord
  import opened Retrieval
  import opened ContextBuilder

  // ----- sublists of keyed hits

  lemma {:induction false} FilterKeeps(hits: seq<Hit>, p: Hit -> bool)
    ensures forall h :: h in Filter(hits, p) <==> h in hits && p(h)
    ensures Keyed(hits) ==> Keyed(Filter(hits, p))
  {
    if hits != [] {
      var rest := hits[1..];
      FilterKeeps(rest, p);
      assert [] + Filter(rest, p) == Filter(rest, p);
      if Keyed(hits) {
        TailKeyed(hits);
        if p(hits[0]) { ConsKeyed(hits[0], Filter(rest, p)); }
      }
    }
  }

  lemma TailKeyed(hits: seq<Hit>)
    requires hits != [] && Keyed(hits)
    ensures Keyed(hits[1..]) && forall h :: h in hits[1..] ==> h.id != hits[0].id
  {
    assert Ids(hits)[1..] == Ids(hits[1..]);
    forall h | h in hits[1..] ensures h.id != hits[0].id {
      var i :| 0 <= i < |hits[1..]| && hits[1..][i] == h;
      assert Ids(hits)[0] != Ids(hits)[i + 1];
    }
  }

  lemma ConsKeyed(h: Hit, rest: seq<Hit>)
    requires Keyed(rest) && forall x :: x in rest ==> x.id != h.id
    ensures Keyed([h] + rest)
  {
    var all := [h] + rest;
    forall i, j | 0 <= i < j < |all| ensures Ids(all)[i] != Ids(all)[j] {
      assert all[j] == rest[j - 1];
      if i > 0 { assert Ids(rest)[i - 1] != Ids(rest)[j - 1]; }
    }
  }

  lemma ConcatKeyed(a: seq<Hit>, b: seq<Hit>)
    requires Keyed(a) && Keyed(b) && forall x, y :: x in a && y in b ==> x.id != y.id
    ensures Keyed(a + b)
  {
    var all := a + b;
    forall i, j | 0 <= i < j < |all| ensures Ids(all)[i] != Ids(all)[j] {
      if j < |a| {
        assert Ids(a)[i] != Ids(a)[j];
      } else if i >= |a| {
        assert Ids(b)[i - |a|] != Ids(b)[j - |a|];
      } else {
        assert all[i] == a[i] && all[j] == b[j - |a|];
      }
    }
  }

  /** Distinct hits with the listed ids that nobody has taken. */
  ghost predicate Picked(hits: seq<Hit>, ids: seq<string>, taken: set<string>, r: seq<Hit>) {
    Keyed(r) && forall h :: h in r ==> h in hits && h.id in ids && h.id !in taken
  }

  lemma {:induction false} CandidatesPicked(hits: seq<Hit>, ids: seq<string>, taken: set<string>)
    requires Distinct(ids)
    ensures Picked(hits, ids, taken, Candidates(hits, ids, taken))
  {
    hide Lookup;
    if ids != [] {
      var rest := Candidates(hits, ids[1..], taken);
      CandidatesPicked(hits, ids[1..], taken);
      var found := Lookup(hits, ids[0]);
      assert ids[0] !in ids[1..];
      assert [] + rest == rest;
      if found.Some? && ids[0] !in taken {
        ConsKeyed(found.value, rest);
      }
    }
  }

  lemma {:induction false} FilterPicked(hits: seq<Hit>, ids: seq<string>, taken: set<string>, cs: seq<Hit>, p: Hit -> bool)
    requires Picked(hits, ids, taken, cs)
    ensures Picked(hits, ids, taken, Filter(cs, p)) && forall h :: h in Filter(cs, p) ==> h in cs
  {
    if cs != [] {
      TailKeyed(cs);
      FilterPicked(hits, ids, taken, cs[1..], p);
      assert [] + Filter(cs[1..], p) == Filter(cs[1..], p);
      if p(cs[0]) { ConsKeyed(cs[0], Filter(cs[1..], p)); }
    }
  }

  lemma ClipPicked(hits: seq<Hit>, ids: seq<string>, taken: set<string>, cs: seq<Hit>, n: nat)
    requires Picked(hits, ids, taken, cs)
    ensures Picked(hits, ids, taken, Clip(cs, n))
  {
    var r := Clip(cs, n);
    assert Ids(r) == Ids(cs)[..|r|];
  }

  lemma NeighborsPicked(hits: seq<Hit>, ids: seq<string>, taken: set<string>, primary: Hit)
    requires Distinct(ids)
    ensures Picked(hits, ids, taken, RequiredNeighbors(primary, Candidates(hits, ids, taken)))
  {
    hide Picked;
    CandidatesPicked(hits, ids, taken);
    var cs := Candidates(hits, ids, taken);
    FilterPicked(hits, ids, taken, cs, (h: Hit) => Some(h.role) == Preferred(primary.role));
    ClipPicked(hits, ids, taken, Filter(cs, (h: Hit) => Some(h.role) == Preferred(primary.role)), 3);
    ClipPicked(hits, ids, taken, cs, 1);
  }

  // ----- the required hits

  /** Neighbour lists without repetition, naming no primary. */
  ghost predicate GoodLists(byPrimary: map<string, seq<string>>, primaries: seq<Hit>) {
    && (forall p :: p in byPrimary ==> Distinct(byPrimary[p]))
    && (forall p, h :: p in byPrimary && h in primaries ==> h.id !in byPrimary[p])
  }

  /** A required hit is a primary still to come, or a shown neighbour not yet taken. */
  ghost predicate FromHereOn(hits: seq<Hit>, primaries: seq<Hit>, i: nat, taken: set<string>, h: Hit)
    requires i <= |primaries|
  {
    || h in primaries[i..]
    || (h in hits && h.id !in taken && forall p :: p in primaries ==> h.id != p.id)
  }

  lemma {:induction false} RequiredDistinct(hits: seq<Hit>, byPrimary: map<string, seq<string>>, primaries: seq<Hit>, i: nat, taken: set<string>)
    requires i <= |primaries| && Keyed(primaries) && GoodLists(byPrimary, primaries)
    ensures var r := RequiredFrom(hits, byPrimary, primaries, i, taken);
            && Keyed(r)
            && (forall h :: h in r ==> FromHereOn(hits, primaries, i, taken, h))
            && (forall h :: h in primaries[i..] ==> h in r)
    decreases |primaries| - i
  {
    hide RequiredNeighbors;
    hide Candidates;
    if i < |primaries| {
      var p := primaries[i];
      var ids := ListOf(byPrimary, p.id);
      var neighbors := RequiredNeighbors(p, Candidates(hits, ids, taken));
      NeighborsPicked(hits, ids, taken, p);
      var next := taken + IdSet(neighbors);
      var rest := RequiredFrom(hits, byPrimary, primaries, i + 1, next);
      RequiredDistinct(hits, byPrimary, primaries, i + 1, next);
      RequiredStep(hits, primaries, i, taken, ids, neighbors, rest);
    }
  }

  lemma {:induction false} CandidatesShown(hits: seq<Hit>, ids: seq<string>, taken: set<string>)
    ensures forall h :: h in Candidates(hits, ids, taken) ==> h in hits
  {
    hide Lookup;
    if ids != [] { CandidatesShown(hits, ids[1..], taken); }
  }

  lemma NeighborsShown(hits: seq<Hit>, ids: seq<string>, taken: set<string>, primary: Hit)
    ensures forall h :: h in RequiredNeighbors(primary, Candidates(hits, ids, taken)) ==> h in hits
  {
    var cs := Candidates(hits, ids, taken);
    CandidatesShown(hits, ids, taken);
    FilterKeeps(cs, (h: Hit) => Some(h.role) == Preferred(primary.role));
  }

  /** Repeated neighbours or not, required hits are primaries and shown hits, all primaries among them. */
  lemma {:induction false} RequiredMembers(hits: seq<Hit>, byPrimary: map<string, seq<string>>, primaries: seq<Hit>, i: nat, taken: set<string>)
    requires i <= |primaries|
    ensures var r := RequiredFrom(hits, byPrimary, primaries, i, taken);
            && (forall h :: h in r ==> h in primaries[i..] || h in hits)
            && (forall h :: h in primaries[i..] ==> h in r)
    decreases |primaries| - i
  {
    hide RequiredNeighbors;
    hide Candidates;
    if i < |primaries| {
      var p := primaries[i];
      var ids := ListOf(byPrimary, p.id);
      var neighbors := RequiredNeighbors(p, Candidates(hits, ids, taken));
      NeighborsShown(hits, ids, taken, p);
      RequiredMembers(hits, byPrimary, primaries, i + 1, taken + IdSet(neighbors));
      assert primaries[i..] == [p] + primaries[i + 1..];
    }
  }

  lemma RequiredStep(hits: seq<Hit>, primaries: seq<Hit>, i: nat, taken: set<string>, ids: seq<string>, neighbors: seq<Hit>, rest: seq<Hit>)
    requires i < |primaries| && Keyed(primaries) && Picked(hits, ids, taken, neighbors)
    requires forall h :: h in primaries ==> h.id !in ids
    requires Keyed(rest)
    requires forall h :: h in rest ==> FromHereOn(hits, primaries, i + 1, taken + IdSet(neighbors), h)
    requires forall h :: h in primaries[i + 1..] ==> h in rest
    ensures Keyed([primaries[i]] + neighbors + rest)
    ensures forall h :: h in [primaries[i]] + neighbors + rest ==> FromHereOn(hits, primaries, i, taken, h)
    ensures forall h :: h in primaries[i..] ==> h in [primaries[i]] + neighbors + rest
  {
    var p := primaries[i];
    assert primaries[i..] == [p] + primaries[i + 1..];
    forall h | h in neighbors ensures h.id in IdSet(neighbors) {
      var k :| 0 <= k < |neighbors| && neighbors[k] == h;
      assert Ids(neighbors)[k] == h.id;
    }
    ConsKeyed(p, neighbors);
    forall h | h in primaries[i + 1..] ensures h in primaries && h.id != p.id {
      var k :| i + 1 <= k < |primaries| && primaries[k] == h;
      assert Ids(primaries)[i] != Ids(primaries)[k];
    }
    forall x, y | x in [p] + neighbors && y in rest ensures x.id != y.id {
      assert FromHereOn(hits, primaries, i + 1, taken + IdSet(neighbors), y);
    }
    ConcatKeyed([p] + neighbors, rest);
  }

  /** The required hits include every shown primary, the optional hits are the other shown hits, and all
      have distinct ids when the neighbour lists do. */
  lemma RequiredAndOptional(e: Expansion, retrieved: seq<Hit>)
    requires GoodExpansion(retrieved, e)
    ensures var required := Required(e, IdSet(retrieved)); var optional := Optional(e, IdSet(retrieved));
            && Keyed(optional)
            && (forall h :: h in required ==> h in e.hits)
            && (forall h :: h in e.hits && h.id in Ids(retrieved) ==> h in required)
            && (forall h :: h in optional <==> h in e.hits && h.id !in Ids(required))
            && ((forall p :: p in e.byPrimary ==> Distinct(e.byPrimary[p])) ==> Keyed(required))
  {
    hide RequiredFrom;
    var primaryIds := IdSet(retrieved);
    var isPrimary := (h: Hit) => h.id in primaryIds;
    var primaries := Filter(e.hits, isPrimary);
    FilterKeeps(e.hits, isPrimary);
    var required := Required(e, primaryIds);
    RequiredMembers(e.hits, e.byPrimary, primaries, 0, {});
    if forall p :: p in e.byPrimary ==> Distinct(e.byPrimary[p]) {
      RequiredDistinct(e.hits, e.byPrimary, primaries, 0, {});
    }
    assert primaries[0..] == primaries;
    FilterKeeps(e.hits, (h: Hit) => h.id !in Ids(required));
  }

  /** The required neighbours: the first three (or all) candidates of the answering role, which are the
      answering ones of some first part of the candidates, or the first candidate when none answers. */
  lemma RequiredNeighborsMeaning(primary: Hit, candidates: seq<Hit>)
    ensures var r := RequiredNeighbors(primary, candidates);
            var answers := (h: Hit) => Some(h.role) == Preferred(primary.role);
            var n := Count(candidates, answers);
            if n > 0 then |r| == Min(n, 3) && exists m :: 0 <= m <= |candidates| && r == Filter(candidates[..m], answers)
            else r == Clip(candidates, 1)
  {
    var answers := (h: Hit) => Some(h.role) == Preferred(primary.role);
    var preferred := Filter(candidates, answers);
    FilterCount(candidates, answers);
    if preferred != [] {
      var n := Min(|preferred|, 3);
      var m := FilterCut(candidates, answers, n);
      assert Clip(preferred, 3) == preferred[..n];
    }
  }

  /** The first n filtered hits are the filtered hits of a first part. */
  lemma {:induction false} FilterCut(hits: seq<Hit>, p: Hit -> bool, n: nat) returns (m: nat)
    requires n <= |Filter(hits, p)|
    ensures m <= |hits| && Filter(hits[..m], p) == Filter(hits, p)[..n]
  {
    if n == 0 {
      m := 0;
    } else {
      var rest := Filter(hits[1..], p);
      if p(hits[0]) {
        m := FilterCut(hits[1..], p, n - 1);
        assert ([hits[0]] + rest)[..n] == [hits[0]] + rest[..n - 1];
      } else {
        m := FilterCut(hits[1..], p, n);
        assert [] + rest == rest;
        assert [] + rest[..n] == rest[..n];
      }
      m := m + 1;
      assert hits[..m][1..] == hits[1..][..m - 1];
    }
  }

  lemma {:induction false} FilterCount(hits: seq<Hit>, p: Hit -> bool)
    ensures |Filter(hits, p)| == Count(hits, p)
  {
    if hits != [] {
      FilterCount(hits[1..], p);
    }
  }

  /** The chosen profile is the first, so the richest, under which the required hits fit at the minimum
      excerpt budget; the leanest when none does. */
  lemma {:induction false} ProfileIsRichest(c: Config, required: seq<Hit>, i: nat)
    requires i < |PROFILES|
    ensures var minimum := Min(c.excerptBudget, MIN_REQUIRED_EXCERPT_BYTES);
            var p := ChooseProfile(c, required, i);
            if exists j :: i <= j < |PROFILES| && BudgetFits(c, required, PROFILES[j], minimum)
            then exists j :: i <= j < |PROFILES| && p == PROFILES[j] && BudgetFits(c, required, p, minimum)
                             && forall k :: i <= k < j ==> !BudgetFits(c, required, PROFILES[k], minimum)
            else p == PROFILES[|PROFILES| - 1]
    decreases |PROFILES| - i
  {
    hide FitAll;
    if i + 1 < |PROFILES| {
      ProfileIsRichest(c, required, i + 1);
    } else {
      assert ChooseProfile(c, required, i + 1) == PROFILES[|PROFILES| - 1];
    }
  }

  function FitUnder(c: Config, existing: seq<Record>, hit: Hit, excerpt: string, j: nat): (r: Option<Record>)
    requires j < |PROFILES|
  {
    FitRecord(existing, BaseOf(c, hit, PROFILES[j]), excerpt, c.contextBudget)
  }

  /** The record under profile j shows enough of the excerpt. */
  predicate ShowsEnough(c: Config, existing: seq<Record>, hit: Hit, excerpt: string, j: nat)
    requires j < |PROFILES|
  {
    var r := FitUnder(c, existing, hit, excerpt, j);
    r.Some? && ByteLength(r.value.excerpt) >= Min(ByteLength(excerpt), MIN_REQUIRED_EXCERPT_BYTES)
  }

  /** The first profile, from the i-th on, under which enough of the excerpt is shown; |PROFILES| if none. */
  function FirstEnough(c: Config, existing: seq<Record>, hit: Hit, excerpt: string, i: nat): (j: nat)
    requires i <= |PROFILES|
    ensures i <= j <= |PROFILES| && (j < |PROFILES| ==> ShowsEnough(c, existing, hit, excerpt, j))
    ensures forall k :: i <= k < j ==> !ShowsEnough(c, existing, hit, excerpt, k)
    decreases |PROFILES| - i
  {
    if i == |PROFILES| || ShowsEnough(c, existing, hit, excerpt, i) then i else FirstEnough(c, existing, hit, excerpt, i + 1)
  }

  ghost predicate IsLastFitting(c: Config, existing: seq<Record>, hit: Hit, excerpt: string, k: nat)
    requires k < |PROFILES|
  {
    && FitUnder(c, existing, hit, excerpt, k).Some?
    && forall l :: k < l < |PROFILES| ==> FitUnder(c, existing, hit, excerpt, l).None?
  }

  /** An optional record is rendered under the richest profile that shows enough of the excerpt; when
      there is none, under the leanest that fits at all. */
  lemma {:induction false} OptionalProfile(c: Config, existing: seq<Record>, hit: Hit, excerpt: string, i: nat, fallback: Option<Record>)
    requires i <= |PROFILES|
    ensures var r := FitOptional(c, existing, hit, excerpt, i, fallback);
            var j := FirstEnough(c, existing, hit, excerpt, i);
            && (j < |PROFILES| ==> r == FitUnder(c, existing, hit, excerpt, j))
            && (j == |PROFILES| ==> forall k :: i <= k < |PROFILES| && IsLastFitting(c, existing, hit, excerpt, k) ==> r == FitUnder(c, existing, hit, excerpt, k))
            && (j == |PROFILES| && (forall k :: i <= k < |PROFILES| ==> FitUnder(c, existing, hit, excerpt, k).None?) ==> r == fallback)
    decreases |PROFILES| - i
  {
    hide FitRecord;
    hide BaseOf;
    hide ByteLength;
    if i < |PROFILES| {
      var fitted := FitUnder(c, existing, hit, excerpt, i);
      OptionalProfile(c, existing, hit, excerpt, i + 1, if fitted.Some? then fitted else fallback);
    }
  }

  // ----- the records

  lemma {:induction false} AddOptionalCorrect(c: Config, records: seq<Record>, optional: seq<Hit>, i: nat)
    requires i <= |optional| && Keyed(optional)
    requires forall j :: i <= j < |optional| ==> optional[j].id !in RecordIds(records)
    requires records != [] ==> Size(records) <= c.contextBudget
    ensures var r := AddOptional(c, records, optional, i);
            && records <= r && (Distinct(RecordIds(records)) ==> Distinct(RecordIds(r)))
            && (r != [] ==> Size(r) <= c.contextBudget)
            && (forall k :: |records| <= k < |r| ==> ShowsOptional(c, optional, r[k]))
    decreases |optional| - i
  {
    hide FitOptional;
    hide ExcerptOf;
    hide Size;
    if i < |optional| {
      var h := optional[i];
      var excerpt := ExcerptOf(c, h, c.excerptBudget);
      var fitted := FitOptional(c, records, h, excerpt, 0, None);
      FitOptionalCorrect(c, records, h, excerpt, 0, None);
      if fitted.None? {
        AddOptionalCorrect(c, records, optional, i + 1);
      } else {
        var more := records + [fitted.value];
        assert RecordIds(more) == RecordIds(records) + [h.id];
        forall j | i < j < |optional| ensures optional[j].id != h.id {
          assert Ids(optional)[i] != Ids(optional)[j];
        }
        AddOptionalCorrect(c, more, optional, i + 1);
        assert ShowsOptional(c, optional, fitted.value);
      }
    }
  }

  /** The record shows a non-empty prefix of some optional hit's focused excerpt. */
  ghost predicate ShowsOptional(c: Config, optional: seq<Hit>, r: Record) {
    r.excerpt != "" && exists h :: h in optional && r.id == h.id && r.excerpt <= ExcerptOf(c, h, c.excerptBudget)
  }

  /** The required part of the context: nothing, or every required hit in order with its whole focused
      excerpt at the one chosen budget. */
  lemma RequiredRecordsCorrect(c: Config, required: seq<Hit>)
    ensures var records := RequiredRecords(c, required); var b := ChosenBudget(c, required);
            && (records == [] || (b > 0 && Shows(c, required, b, records)))
            && (required != [] && b > 0 ==> records != [])
            && (required != [] ==>
                  && b <= c.excerptBudget
                  && (b == c.excerptBudget || !BudgetFits(c, required, ChooseProfile(c, required, 0), b + 1)))
  {
    hide Shows;
    hide ChooseProfile;
    hide BudgetFits;
    hide RecordsAt;
    hide SearchedBudget;
    if required != [] {
      var profile, b := ChooseProfile(c, required, 0), ChosenBudget(c, required);
      SearchIsLocallyMaximal(c, required, profile, 1, c.excerptBudget);
      RecordsAtShow(c, required, profile, b);
    }
  }

  lemma RecordsAtShow(c: Config, required: seq<Hit>, profile: Profile, b: nat)
    requires required != []
    requires b == 0 || BudgetFits(c, required, profile, b)
    ensures var records := RecordsAt(c, required, profile, b);
            if b == 0 then records == [] else records != [] && Shows(c, required, b, records)
  {
    if b > 0 {
      hide FitRequired;
      FitRequiredShows(c, required, profile, b, |required|);
      assert required[..|required|] == required;
    }
  }

  lemma ShowsAll(c: Config, required: seq<Hit>, b: nat, records: seq<Record>)
    requires Shows(c, required, b, records)
    ensures |records| == |required| && RecordIds(records) == Ids(required)
    ensures records != [] ==> Size(records) <= c.contextBudget
  {
  }

  lemma {:induction false} AddOptionalFits(c: Config, records: seq<Record>, optional: seq<Hit>, i: nat)
    requires i <= |optional| && (records != [] ==> Size(records) <= c.contextBudget)
    ensures var r := AddOptional(c, records, optional, i); r != [] ==> Size(r) <= c.contextBudget
    decreases |optional| - i
  {
    hide FitOptional;
    hide ExcerptOf;
    hide Size;
    if i < |optional| {
      var excerpt := ExcerptOf(c, optional[i], c.excerptBudget);
      var fitted := FitOptional(c, records, optional[i], excerpt, 0, None);
      FitOptionalCorrect(c, records, optional[i], excerpt, 0, None);
      AddOptionalFits(c, if fitted.Some? then records + [fitted.value] else records, optional, i + 1);
    }
  }

  /** For every expansion, repeated chunks included, the context JSON never exceeds the budget (an empty
      list needs two bytes). */
  lemma ContextFits(c: Config, e: Expansion, primaryIds: set<string>)
    ensures Size(ContextRecords(c, e, primaryIds)) <= Max(2, c.contextBudget)
  {
    hide Size;
    hide RequiredFrom;
    hide RequiredRecords;
    hide Shows;
    hide AddOptional;
    var required := Required(e, primaryIds);
    var base := RequiredRecords(c, required);
    RequiredRecordsCorrect(c, required);
    if base != [] { ShowsAll(c, required, ChosenBudget(c, required), base); }
    AddOptionalFits(c, base, Optional(e, primaryIds), 0);
    var n := SizeOfNothing();
  }

  /** The context, whatever was retrieved and whatever the store answered: its JSON fits the budget (an
      empty list needs two bytes), its ids are shown hits', the required hits are all there or all absent,
      and the rest are optional hits.  The ids are distinct when the store never repeats an id within one
      answer. */
  lemma ContextCorrect(c: Config, retrieved: seq<Hit>, neighbors: seq<seq<Hit>>)
    requires |retrieved| == |neighbors| && Expand(retrieved, neighbors).Ok?
    ensures var e := Expand(retrieved, neighbors).value;
            var required := Required(e, IdSet(retrieved));
            var base := RequiredRecords(c, required);
            var records := ContextRecords(c, e, IdSet(retrieved));
            && Size(records) <= Max(2, c.contextBudget)
            && (Keyed(retrieved) && KeyedAnswers(neighbors, 0) ==> Distinct(RecordIds(records)))
            && (forall id :: id in RecordIds(records) ==> id in Ids(e.hits))
            && base <= records
            && (base == [] || RecordIds(base) == Ids(required))
            && (forall k :: |base| <= k < |records| ==> ShowsOptional(c, Optional(e, IdSet(retrieved)), records[k]))
  {
    hide Size;
    hide RequiredFrom;
    hide ChooseProfile;
    hide Shows;
    var e := Expand(retrieved, neighbors).value;
    ExpansionCorrect(retrieved, neighbors);
    RequiredAndOptional(e, retrieved);
    ContextOfExpansion(c, e, IdSet(retrieved));
  }

  lemma ContextOfExpansion(c: Config, e: Expansion, primaryIds: set<string>)
    requires var required := Required(e, primaryIds); var optional := Optional(e, primaryIds);
             && Keyed(optional)
             && (forall h :: h in required ==> h in e.hits)
             && (forall h :: h in optional <==> h in e.hits && h.id !in Ids(required))
    ensures var base := RequiredRecords(c, Required(e, primaryIds));
            var records := ContextRecords(c, e, primaryIds);
            && Size(records) <= Max(2, c.contextBudget)
            && (Keyed(Required(e, primaryIds)) ==> Distinct(RecordIds(records)))
            && (forall id :: id in RecordIds(records) ==> id in Ids(e.hits))
            && base <= records
            && (base == [] || RecordIds(base) == Ids(Required(e, primaryIds)))
            && (forall k :: |base| <= k < |records| ==> ShowsOptional(c, Optional(e, primaryIds), records[k]))
  {
    hide Size;
    hide RequiredFrom;
    hide RequiredRecords;
    hide Shows;
    hide ShowsOptional;
    var required, optional := Required(e, primaryIds), Optional(e, primaryIds);
    var base := RequiredRecords(c, required);
    RequiredRecordsCorrect(c, required);
    if base != [] { ShowsAll(c, required, ChosenBudget(c, required), base); }
    forall j | 0 <= j < |optional| ensures optional[j].id !in RecordIds(base) {
      assert optional[j] in optional;
    }
    AddOptionalCorrect(c, base, optional, 0);
    var r := SizeOfNothing();
    RecordsAreShown(c, e, required, optional, base, ContextRecords(c, e, primaryIds));
  }

  lemma SizeOfNothing() returns (n: nat)
    ensures Size([]) == 2 == n
  {
    SizeOfOneMore([], Record("", "", "", ""));
    n := 2;
  }

  lemma RecordsAreShown(c: Config, e: Expansion, required: seq<Hit>, optional: seq<Hit>, base: seq<Record>, records: seq<Record>)
    requires base <= records && (base == [] || RecordIds(base) == Ids(required))
    requires forall h :: h in required || h in optional ==> h in e.hits
    requires forall k :: |base| <= k < |records| ==> ShowsOptional(c, optional, records[k])
    ensures forall id :: id in RecordIds(records) ==> id in Ids(e.hits)
  {
    forall k | 0 <= k < |records| ensures records[k].id in Ids(e.hits) {
      if k < |base| {
        assert records[k].id == RecordIds(base)[k] == required[k].id;
        assert required[k] in required;
        var i :| 0 <= i < |e.hits| && e.hits[i] == required[k];
        assert Ids(e.hits)[i] == records[k].id;
      } else {
        var h :| h in optional && records[k].id == h.id;
        var i :| 0 <= i < |e.hits| && e.hits[i] == h;
        assert Ids(e.hits)[i] == records[k].id;
      }
    }
  }
}
