/** Which records `_build_context` of src/soloscale/evidence_agent.py packs, said without the loops that
    pack them: what fits, which neighbours are required, and which optional hits are left out. */
module ContextMeaning {
  import opened Wrappers
  import opened PyText
  import opened Sorting
  import opened Utf8
  import opened FocusedTruncation
  import opened ContextRecord
  import opened Retrieval
  import opened ContextBuilder
  import opened ContextProperties

  // ----- when the required hits fit

  /** The required hits with their whole excerpts. */
  function WholeRecords(c: Config, required: seq<Hit>, profile: Profile, budget: nat): (r: seq<Record>) {
    seq(|required|, k requires 0 <= k < |required| =>
      WithExcerpt(BaseOf(c, required[k], profile), ExcerptOf(c, required[k], budget)))
  }

  ghost predicate AllFitWhole(c: Config, required: seq<Hit>, profile: Profile, budget: nat) {
    && (forall k :: 0 <= k < |required| ==> ExcerptOf(c, required[k], budget) != "")
    && (required != [] ==> Size(WholeRecords(c, required, profile, budget)) <= c.contextBudget)
  }

  lemma WholeFitIff(c: Config, existing: seq<Record>, base: Base, excerpt: string)
    ensures var r := FitRecord(existing, base, excerpt, c.contextBudget);
            r.Some? && r.value.excerpt == excerpt
            <==> excerpt != "" && Size(existing + [WithExcerpt(base, excerpt)]) <= c.contextBudget
    ensures var r := FitRecord(existing, base, excerpt, c.contextBudget);
            r.Some? && r.value.excerpt == excerpt ==> r.value == WithExcerpt(base, excerpt)
  {
    hide Size;
    hide FitRecord;
    FitRecordCorrect(existing, base, excerpt, c.contextBudget);
    assert excerpt[..|excerpt|] == excerpt;
    if excerpt != "" && Size(existing + [WithExcerpt(base, excerpt)]) <= c.contextBudget {
      assert PrefixFits(existing, base, excerpt, |excerpt|, c.contextBudget);
    }
  }

  lemma SmallerList(records: seq<Record>, r: Record)
    ensures Size(records) <= Size(records + [r])
  {
    hide Size;
    hide ByteLength;
    SizeOfOneMore(records, r);
  }

  lemma {:induction false} FitRequiredIff(c: Config, required: seq<Hit>, profile: Profile, budget: nat, i: nat)
    requires i <= |required|
    ensures var r := FitRequired(c, required, profile, budget, i);
            && (r.Some? <==> AllFitWhole(c, required[..i], profile, budget))
            && (r.Some? ==> r.value == WholeRecords(c, required[..i], profile, budget))
  {
    hide FitRecord;
    hide ExcerptOf;
    hide BaseOf;
    hide Size;
    if i == 0 {
      assert required[..0] == [];
    } else {
      FitRequiredIff(c, required, profile, budget, i - 1);
      WholeSnoc(c, required, profile, budget, i);
      var excerpt := ExcerptOf(c, required[i - 1], budget);
      var base := BaseOf(c, required[i - 1], profile);
      var before := WholeRecords(c, required[..i - 1], profile, budget);
      WholeFitIff(c, before, base, excerpt);
      SmallerList(before, WithExcerpt(base, excerpt));
      AllFitSnoc(c, required, profile, budget, i);
    }
  }

  lemma WholeSnoc(c: Config, required: seq<Hit>, profile: Profile, budget: nat, i: nat)
    requires 0 < i <= |required|
    ensures WholeRecords(c, required[..i], profile, budget)
         == WholeRecords(c, required[..i - 1], profile, budget)
            + [WithExcerpt(BaseOf(c, required[i - 1], profile), ExcerptOf(c, required[i - 1], budget))]
  {
    hide ExcerptOf;
    hide BaseOf;
  }

  lemma AllFitSnoc(c: Config, required: seq<Hit>, profile: Profile, budget: nat, i: nat)
    requires 0 < i <= |required|
    ensures AllFitWhole(c, required[..i], profile, budget) <==>
            AllFitWhole(c, required[..i - 1], profile, budget) && ExcerptOf(c, required[i - 1], budget) != ""
            && Size(WholeRecords(c, required[..i], profile, budget)) <= c.contextBudget
  {
    hide ExcerptOf;
    hide BaseOf;
    hide Size;
    WholeSnoc(c, required, profile, budget, i);
    SmallerList(WholeRecords(c, required[..i - 1], profile, budget),
                WithExcerpt(BaseOf(c, required[i - 1], profile), ExcerptOf(c, required[i - 1], budget)));
    var all := required[..i];
    assert forall k :: 0 <= k < i - 1 ==> required[..i - 1][k] == all[k];
    assert all[i - 1] == required[i - 1];
  }

  /** The required hits fit at a budget exactly when none of their excerpts is empty and the list of all of
      them, each with its whole excerpt, fits; and then that list is what is packed. */
  lemma BudgetFitsIff(c: Config, required: seq<Hit>, profile: Profile, budget: nat)
    ensures BudgetFits(c, required, profile, budget) <==> AllFitWhole(c, required, profile, budget)
    ensures BudgetFits(c, required, profile, budget) ==> FitAll(c, required, profile, budget).value == WholeRecords(c, required, profile, budget)
  {
    hide FitRequired;
    hide AllFitWhole;
    hide WholeRecords;
    FitRequiredIff(c, required, profile, budget, |required|);
    assert required[..|required|] == required;
  }

  // ----- which neighbours are required

  /** The shown hits with the listed ids that are not taken, in the order of the list. */
  ghost predicate AreAvailable(hits: seq<Hit>, ids: seq<string>, taken: set<string>, cs: seq<Hit>) {
    Ids(cs) == Sift(ids, id => id in Ids(hits) && id !in taken) && forall h :: h in cs ==> h in hits
  }

  lemma {:induction false} CandidatesAvailable(hits: seq<Hit>, ids: seq<string>, taken: set<string>)
    ensures AreAvailable(hits, ids, taken, Candidates(hits, ids, taken))
  {
    hide Lookup;
    if ids != [] {
      var rest := Candidates(hits, ids[1..], taken);
      CandidatesAvailable(hits, ids[1..], taken);
      var found := Lookup(hits, ids[0]);
      if found.Some? && ids[0] !in taken {
        IdsCons(found.value, rest);
      } else {
        assert [] + rest == rest;
      }
    }
  }

  lemma IdsCons(h: Hit, rest: seq<Hit>)
    ensures Ids([h] + rest) == [h.id] + Ids(rest)
  {
  }

  /** A user's chunk is answered by an assistant's, and the other way round. */
  predicate Answers(primary: Hit, h: Hit) {
    (primary.role == User && h.role == Assistant) || (primary.role == Assistant && h.role == User)
  }

  /** The first three answering ones of the available neighbours, or the first one when none answers. */
  ghost predicate AreFirstNeighbors(primary: Hit, available: seq<Hit>, r: seq<Hit>) {
    var answering := (h: Hit) => Answers(primary, h);
    var n := Count(available, answering);
    if n == 0 then r == Clip(available, 1)
    else |r| == Min(n, 3) && exists m :: 0 <= m <= |available| && r == Filter(available[..m], answering)
  }

  lemma {:induction false} FilterAgrees(hits: seq<Hit>, p: Hit -> bool, q: Hit -> bool)
    requires forall h :: p(h) == q(h)
    ensures Filter(hits, p) == Filter(hits, q) && Count(hits, p) == Count(hits, q)
  {
    if hits != [] { FilterAgrees(hits[1..], p, q); }
  }

  lemma NeighborsAreFirst(primary: Hit, available: seq<Hit>)
    ensures AreFirstNeighbors(primary, available, RequiredNeighbors(primary, available))
  {
    var p := (h: Hit) => Answers(primary, h);
    var q := (h: Hit) => Some(h.role) == Preferred(primary.role);
    RequiredNeighborsMeaning(primary, available);
    FilterAgrees(available, p, q);
    if Count(available, q) > 0 {
      var m :| 0 <= m <= |available| && RequiredNeighbors(primary, available) == Filter(available[..m], q);
      FilterAgrees(available[..m], p, q);
    }
  }

  /** The primaries from the i-th on, each followed by its block. */
  function Blocks(primaries: seq<Hit>, i: nat, blocks: seq<seq<Hit>>): (r: seq<Hit>)
    requires i <= |primaries| && |blocks| == |primaries| - i
    decreases |primaries| - i
  {
    if i == |primaries| then [] else [primaries[i]] + blocks[0] + Blocks(primaries, i + 1, blocks[1..])
  }

  /** The ids of the first j blocks. */
  function IdsOfBlocks(blocks: seq<seq<Hit>>, j: nat): (ids: set<string>)
    requires j <= |blocks|
  {
    if j == 0 then {} else IdSet(blocks[0]) + IdsOfBlocks(blocks[1..], j - 1)
  }

  /** The block has the first neighbours that no earlier block has. */
  ghost predicate IsBlock(hits: seq<Hit>, ids: seq<string>, taken: set<string>, primary: Hit, block: seq<Hit>) {
    exists available :: AreAvailable(hits, ids, taken, available) && AreFirstNeighbors(primary, available, block)
  }

  ghost predicate AreBlocks(hits: seq<Hit>, byPrimary: map<string, seq<string>>, primaries: seq<Hit>, i: nat, taken: set<string>, blocks: seq<seq<Hit>>)
    requires i <= |primaries| && |blocks| == |primaries| - i
  {
    forall j :: 0 <= j < |blocks| ==>
      IsBlock(hits, ListOf(byPrimary, primaries[i + j].id), taken + IdsOfBlocks(blocks, j), primaries[i + j], blocks[j])
  }

  lemma {:induction false} RequiredInBlocks(hits: seq<Hit>, byPrimary: map<string, seq<string>>, primaries: seq<Hit>, i: nat, taken: set<string>)
    returns (blocks: seq<seq<Hit>>)
    requires i <= |primaries|
    ensures |blocks| == |primaries| - i && AreBlocks(hits, byPrimary, primaries, i, taken, blocks)
    ensures RequiredFrom(hits, byPrimary, primaries, i, taken) == Blocks(primaries, i, blocks)
    decreases |primaries| - i
  {
    hide Candidates;
    hide RequiredNeighbors;
    hide IsBlock;
    if i == |primaries| {
      blocks := [];
    } else {
      var p := primaries[i];
      var available := Candidates(hits, ListOf(byPrimary, p.id), taken);
      var block := RequiredNeighbors(p, available);
      var rest := RequiredInBlocks(hits, byPrimary, primaries, i + 1, taken + IdSet(block));
      blocks := [block] + rest;
      assert blocks[1..] == rest;
      assert IsBlock(hits, ListOf(byPrimary, p.id), taken, p, block) by {
        CandidatesAvailable(hits, ListOf(byPrimary, p.id), taken);
        NeighborsAreFirst(p, available);
        BlockFrom(hits, ListOf(byPrimary, p.id), taken, p, available, block);
      }
      forall j | 0 <= j < |blocks|
        ensures IsBlock(hits, ListOf(byPrimary, primaries[i + j].id), taken + IdsOfBlocks(blocks, j), primaries[i + j], blocks[j])
      {
        if j == 0 {
          assert taken + IdsOfBlocks(blocks, 0) == taken;
        } else {
          assert taken + IdsOfBlocks(blocks, j) == taken + IdSet(block) + IdsOfBlocks(rest, j - 1);
          assert primaries[i + j] == primaries[i + 1 + (j - 1)] && blocks[j] == rest[j - 1];
        }
      }
    }
  }

  lemma BlockFrom(hits: seq<Hit>, ids: seq<string>, taken: set<string>, primary: Hit, available: seq<Hit>, block: seq<Hit>)
    requires AreAvailable(hits, ids, taken, available) && AreFirstNeighbors(primary, available, block)
    ensures IsBlock(hits, ids, taken, primary, block)
  {
  }

  /** The required hits: the shown primaries in order, each followed by its first answering neighbours (or
      its first neighbour) that no earlier primary took. */
  lemma RequiredAreBlocks(e: Expansion, primaryIds: set<string>) returns (primaries: seq<Hit>, blocks: seq<seq<Hit>>)
    ensures primaries == Filter(e.hits, (h: Hit) => h.id in primaryIds) && |blocks| == |primaries|
    ensures AreBlocks(e.hits, e.byPrimary, primaries, 0, {}, blocks)
    ensures Required(e, primaryIds) == Blocks(primaries, 0, blocks)
  {
    hide RequiredFrom;
    primaries := Filter(e.hits, (h: Hit) => h.id in primaryIds);
    blocks := RequiredInBlocks(e.hits, e.byPrimary, primaries, 0, {});
  }

  // ----- the optional hits

  /** The longest non-empty excerpt prefix that fits under this profile next to the records there are. */
  ghost predicate IsLongestUnder(c: Config, existing: seq<Record>, hit: Hit, profile: Profile, r: Record) {
    var excerpt, base := ExcerptOf(c, hit, c.excerptBudget), BaseOf(c, hit, profile);
    && r.excerpt != "" && r.excerpt <= excerpt && r == WithExcerpt(base, r.excerpt) && Size(existing + [r]) <= c.contextBudget
    && forall k :: |r.excerpt| < k <= |excerpt| ==> !PrefixFits(existing, base, excerpt, k, c.contextBudget)
  }

  /** Not even one character fits under this profile. */
  ghost predicate NothingUnder(c: Config, existing: seq<Record>, hit: Hit, profile: Profile) {
    var excerpt := ExcerptOf(c, hit, c.excerptBudget);
    forall k :: 1 <= k <= |excerpt| ==> !PrefixFits(existing, BaseOf(c, hit, profile), excerpt, k, c.contextBudget)
  }

  ghost predicate IsEnough(c: Config, hit: Hit, r: Record) {
    ByteLength(r.excerpt) >= Min(ByteLength(ExcerptOf(c, hit, c.excerptBudget)), MIN_REQUIRED_EXCERPT_BYTES)
  }

  ghost predicate EnoughUnder(c: Config, existing: seq<Record>, hit: Hit, profile: Profile) {
    exists r :: IsLongestUnder(c, existing, hit, profile, r) && IsEnough(c, hit, r)
  }

  /** The record of an optional hit: under the richest profile that shows enough, or else under the leanest
      that shows anything. */
  ghost predicate IsOptionalRecord(c: Config, existing: seq<Record>, hit: Hit, r: Record) {
    exists j :: 0 <= j < |PROFILES| && IsLongestUnder(c, existing, hit, PROFILES[j], r) && IsChoice(c, existing, hit, j, r)
  }

  ghost predicate IsChoice(c: Config, existing: seq<Record>, hit: Hit, j: nat, r: Record)
    requires j < |PROFILES|
  {
    if IsEnough(c, hit, r) then forall i :: 0 <= i < j ==> !EnoughUnder(c, existing, hit, PROFILES[i])
    else (forall i :: 0 <= i < |PROFILES| ==> !EnoughUnder(c, existing, hit, PROFILES[i]))
         && forall i :: j < i < |PROFILES| ==> NothingUnder(c, existing, hit, PROFILES[i])
  }

  /** No profile leaves room for a single character of the hit. */
  ghost predicate NoRoomFor(c: Config, existing: seq<Record>, hit: Hit) {
    forall j :: 0 <= j < |PROFILES| ==> NothingUnder(c, existing, hit, PROFILES[j])
  }

  lemma UnderIs(c: Config, existing: seq<Record>, hit: Hit, j: nat)
    requires j < |PROFILES|
    ensures var f := FitUnder(c, existing, hit, ExcerptOf(c, hit, c.excerptBudget), j);
            && (f.None? <==> NothingUnder(c, existing, hit, PROFILES[j]))
            && (f.Some? ==> IsLongestUnder(c, existing, hit, PROFILES[j], f.value))
            && (forall r :: IsLongestUnder(c, existing, hit, PROFILES[j], r) ==> f == Some(r))
  {
    hide Size;
    hide FitRecord;
    hide ExcerptOf;
    hide BaseOf;
    var excerpt, base := ExcerptOf(c, hit, c.excerptBudget), BaseOf(c, hit, PROFILES[j]);
    FitRecordCorrect(existing, base, excerpt, c.contextBudget);
    var f := FitUnder(c, existing, hit, excerpt, j);
    forall r | IsLongestUnder(c, existing, hit, PROFILES[j], r) ensures f == Some(r) {
      assert excerpt[..|r.excerpt|] == r.excerpt;
      assert PrefixFits(existing, base, excerpt, |r.excerpt|, c.contextBudget);
      assert f.Some?;
      assert excerpt[..|f.value.excerpt|] == f.value.excerpt;
      assert PrefixFits(existing, base, excerpt, |f.value.excerpt|, c.contextBudget);
    }
  }

  lemma EnoughIs(c: Config, existing: seq<Record>, hit: Hit, j: nat)
    requires j < |PROFILES|
    ensures EnoughUnder(c, existing, hit, PROFILES[j]) <==> ShowsEnough(c, existing, hit, ExcerptOf(c, hit, c.excerptBudget), j)
  {
    hide FitUnder;
    hide IsLongestUnder;
    hide ExcerptOf;
    UnderIs(c, existing, hit, j);
  }

  /** The last profile under which something fits. */
  lemma {:induction false} LastThatFits(c: Config, existing: seq<Record>, hit: Hit, n: nat) returns (j: nat)
    requires n <= |PROFILES| && exists i :: 0 <= i < n && !NothingUnder(c, existing, hit, PROFILES[i])
    ensures j < n && !NothingUnder(c, existing, hit, PROFILES[j])
    ensures forall i :: j < i < n ==> NothingUnder(c, existing, hit, PROFILES[i])
  {
    hide NothingUnder;
    if !NothingUnder(c, existing, hit, PROFILES[n - 1]) { j := n - 1; } else { j := LastThatFits(c, existing, hit, n - 1); }
  }

  lemma FirstEnoughIs(c: Config, existing: seq<Record>, hit: Hit)
    ensures var j := FirstEnough(c, existing, hit, ExcerptOf(c, hit, c.excerptBudget), 0);
            && (forall i :: 0 <= i < j ==> !EnoughUnder(c, existing, hit, PROFILES[i]))
            && (j < |PROFILES| ==> EnoughUnder(c, existing, hit, PROFILES[j]))
  {
    hide EnoughUnder;
    hide ExcerptOf;
    hide ShowsEnough;
    FirstEnoughFrom(c, existing, hit, 0);
  }

  lemma {:induction false} FirstEnoughFrom(c: Config, existing: seq<Record>, hit: Hit, i: nat)
    requires i <= |PROFILES|
    ensures var j := FirstEnough(c, existing, hit, ExcerptOf(c, hit, c.excerptBudget), i);
            && (forall k :: i <= k < j ==> !EnoughUnder(c, existing, hit, PROFILES[k]))
            && (j < |PROFILES| ==> EnoughUnder(c, existing, hit, PROFILES[j]))
    decreases |PROFILES| - i
  {
    hide EnoughUnder;
    hide ExcerptOf;
    hide ShowsEnough;
    if i < |PROFILES| {
      EnoughIs(c, existing, hit, i);
      FirstEnoughFrom(c, existing, hit, i + 1);
    }
  }

  /** What an optional hit becomes next to the records there are: nothing exactly when there is no room for
      it, and else its record. */
  lemma OptionalIs(c: Config, existing: seq<Record>, hit: Hit)
    ensures var r := FitOptional(c, existing, hit, ExcerptOf(c, hit, c.excerptBudget), 0, None);
            if NoRoomFor(c, existing, hit) then r.None? else r.Some? && IsOptionalRecord(c, existing, hit, r.value)
  {
    hide FitOptional;
    hide FitUnder;
    hide NothingUnder;
    hide IsLongestUnder;
    hide EnoughUnder;
    hide ExcerptOf;
    hide FirstEnough;
    hide IsEnough;
    var excerpt := ExcerptOf(c, hit, c.excerptBudget);
    OptionalProfile(c, existing, hit, excerpt, 0, None);
    FirstEnoughIs(c, existing, hit);
    var j := FirstEnough(c, existing, hit, excerpt, 0);
    forall i | 0 <= i < |PROFILES| ensures FitUnder(c, existing, hit, excerpt, i).None? <==> NothingUnder(c, existing, hit, PROFILES[i]) {
      UnderIs(c, existing, hit, i);
    }
    if j < |PROFILES| {
      EnoughRecord(c, existing, hit, j);
    } else if NoRoomFor(c, existing, hit) {
    } else {
      var i := LastThatFits(c, existing, hit, |PROFILES|);
      UnderIs(c, existing, hit, i);
      assert IsLastFitting(c, existing, hit, excerpt, i);
      var r := FitUnder(c, existing, hit, excerpt, i).value;
      if IsEnough(c, hit, r) { EnoughIsThere(c, existing, hit, PROFILES[i], r); }
      assert IsChoice(c, existing, hit, i, r);
    }
  }

  lemma EnoughIsThere(c: Config, existing: seq<Record>, hit: Hit, profile: Profile, r: Record)
    requires IsLongestUnder(c, existing, hit, profile, r) && IsEnough(c, hit, r)
    ensures EnoughUnder(c, existing, hit, profile)
  {
  }

  lemma EnoughRecord(c: Config, existing: seq<Record>, hit: Hit, j: nat)
    requires j < |PROFILES| && EnoughUnder(c, existing, hit, PROFILES[j])
    requires forall i :: 0 <= i < j ==> !EnoughUnder(c, existing, hit, PROFILES[i])
    ensures var f := FitUnder(c, existing, hit, ExcerptOf(c, hit, c.excerptBudget), j);
            f.Some? && IsOptionalRecord(c, existing, hit, f.value) && !NoRoomFor(c, existing, hit)
  {
    hide FitUnder;
    hide IsLongestUnder;
    hide ExcerptOf;
    hide IsEnough;
    hide NothingUnder;
    UnderIs(c, existing, hit, j);
    var f := FitUnder(c, existing, hit, ExcerptOf(c, hit, c.excerptBudget), j);
    var r :| IsLongestUnder(c, existing, hit, PROFILES[j], r) && IsEnough(c, hit, r);
    assert f == Some(r);
    assert IsChoice(c, existing, hit, j, r);
  }

  // ----- all the optional hits

  /** The records from the base-th on are those of the optional hits at these positions, in order. */
  ghost predicate ArePlaced(c: Config, r: seq<Record>, base: nat, optional: seq<Hit>, i: nat, placed: seq<nat>) {
    && |r| == base + |placed|
    && (forall k, l :: 0 <= k < l < |placed| ==> placed[k] < placed[l])
    && forall k :: 0 <= k < |placed| ==>
         i <= placed[k] < |optional| && IsOptionalRecord(c, r[..base + k], optional[placed[k]], r[base + k])
  }

  /** The first p placed positions lie before j, the others behind it. */
  ghost predicate Splits(placed: seq<nat>, p: nat, j: nat) {
    p <= |placed| && (forall k :: 0 <= k < p ==> placed[k] < j) && forall k :: p <= k < |placed| ==> placed[k] > j
  }

  /** The hit at position j is not placed: there is no room for it next to the records before it. */
  ghost predicate IsLeftOut(c: Config, r: seq<Record>, base: nat, optional: seq<Hit>, placed: seq<nat>, j: nat)
    requires j < |optional| && |r| == base + |placed|
  {
    exists p: nat :: Splits(placed, p, j) && NoRoomFor(c, r[..base + p], optional[j])
  }

  /** So it is for every position from the i-th on that is not among the placed ones. */
  ghost predicate OthersLeftOut(c: Config, r: seq<Record>, base: nat, optional: seq<Hit>, i: nat, placed: seq<nat>)
    requires |r| == base + |placed|
  {
    forall j :: i <= j < |optional| && j !in placed ==> IsLeftOut(c, r, base, optional, placed, j)
  }

  /** The records of the optional hits from the i-th on. */
  ghost predicate IsPlacement(c: Config, r: seq<Record>, records: seq<Record>, optional: seq<Hit>, i: nat, placed: seq<nat>) {
    records <= r && ArePlaced(c, r, |records|, optional, i, placed) && OthersLeftOut(c, r, |records|, optional, i, placed)
  }

  lemma {:induction false} OptionalPlaced(c: Config, records: seq<Record>, optional: seq<Hit>, i: nat) returns (placed: seq<nat>)
    requires i <= |optional|
    ensures IsPlacement(c, AddOptional(c, records, optional, i), records, optional, i, placed)
    decreases |optional| - i
  {
    hide FitOptional;
    hide IsPlacement;
    hide NoRoomFor;
    hide IsOptionalRecord;
    hide ExcerptOf;
    if i == |optional| {
      placed := [];
      NothingPlaced(c, records, optional, i);
    } else {
      OptionalIs(c, records, optional[i]);
      var fitted := FitOptional(c, records, optional[i], ExcerptOf(c, optional[i], c.excerptBudget), 0, None);
      if fitted.None? {
        placed := OptionalPlaced(c, records, optional, i + 1);
        SkipOne(c, AddOptional(c, records, optional, i + 1), records, optional, i, placed);
      } else {
        var later := OptionalPlaced(c, records + [fitted.value], optional, i + 1);
        placed := [i] + later;
        PlaceOne(c, AddOptional(c, records + [fitted.value], optional, i + 1), records, fitted.value, optional, i, later);
      }
    }
  }

  lemma NothingPlaced(c: Config, records: seq<Record>, optional: seq<Hit>, i: nat)
    requires i == |optional|
    ensures IsPlacement(c, records, records, optional, i, [])
  {
  }

  lemma SkipOne(c: Config, r: seq<Record>, records: seq<Record>, optional: seq<Hit>, i: nat, placed: seq<nat>)
    requires i < |optional| && IsPlacement(c, r, records, optional, i + 1, placed) && NoRoomFor(c, records, optional[i])
    ensures IsPlacement(c, r, records, optional, i, placed)
  {
    hide IsOptionalRecord;
    hide NoRoomFor;
    assert IsLeftOut(c, r, |records|, optional, placed, i) by {
      assert r[..|records| + 0] == records;
      assert Splits(placed, 0, i);
    }
    hide IsLeftOut;
  }

  lemma PlaceOne(c: Config, r: seq<Record>, records: seq<Record>, first: Record, optional: seq<Hit>, i: nat, later: seq<nat>)
    requires i < |optional| && IsPlacement(c, r, records + [first], optional, i + 1, later)
    requires IsOptionalRecord(c, records, optional[i], first)
    ensures IsPlacement(c, r, records, optional, i, [i] + later)
  {
    hide IsOptionalRecord;
    hide NoRoomFor;
    var placed := [i] + later;
    assert r[..|records| + 0] == records && r[|records|] == first;
    forall k | 0 <= k < |placed|
      ensures i <= placed[k] < |optional| && IsOptionalRecord(c, r[..|records| + k], optional[placed[k]], r[|records| + k])
    {
      if k > 0 {
        assert placed[k] == later[k - 1];
        assert IsOptionalRecord(c, r[..|records| + 1 + (k - 1)], optional[later[k - 1]], r[|records| + 1 + (k - 1)]);
      }
    }
    forall j | i <= j < |optional| && j !in placed ensures IsLeftOut(c, r, |records|, optional, placed, j) {
      assert placed[0] == i;
      assert forall x :: x in later ==> x in placed;
      LeftOutLater(c, r, |records|, optional, i, later, j);
    }
  }

  lemma LeftOutLater(c: Config, r: seq<Record>, base: nat, optional: seq<Hit>, i: nat, later: seq<nat>, j: nat)
    requires i < j < |optional| && |r| == base + 1 + |later| && IsLeftOut(c, r, base + 1, optional, later, j)
    ensures IsLeftOut(c, r, base, optional, [i] + later, j)
  {
    hide NoRoomFor;
    var placed := [i] + later;
    var p: nat :| Splits(later, p, j) && NoRoomFor(c, r[..base + 1 + p], optional[j]);
    forall k | 0 <= k < p + 1 ensures placed[k] < j { if k > 0 { assert placed[k] == later[k - 1]; } }
    forall k | p + 1 <= k < |placed| ensures placed[k] > j { assert placed[k] == later[k - 1]; }
    assert Splits(placed, p + 1, j);
    assert base + 1 + p == base + (p + 1);
  }

  lemma {:induction false} FilterSifts(hits: seq<Hit>, p: Hit -> bool, q: string -> bool)
    requires forall h :: p(h) == q(h.id)
    ensures Ids(Filter(hits, p)) == Sift(Ids(hits), q)
  {
    if hits != [] {
      FilterSifts(hits[1..], p, q);
      assert Ids(hits)[1..] == Ids(hits[1..]) && Ids(hits)[0] == hits[0].id;
      var rest := Filter(hits[1..], p);
      if p(hits[0]) { IdsCons(hits[0], rest); } else { assert [] + rest == rest && [] + Ids(rest) == Ids(rest); }
    }
  }

  /** The optional hits are the shown hits that are not required, in the order in which they are shown. */
  lemma OptionalInOrder(e: Expansion, primaryIds: set<string>)
    ensures Ids(Optional(e, primaryIds)) == Sift(Ids(e.hits), id => id !in Ids(Required(e, primaryIds)))
  {
    hide RequiredFrom;
    var required := Required(e, primaryIds);
    FilterSifts(e.hits, (h: Hit) => h.id !in Ids(required), id => id !in Ids(required));
  }

  /** The context: the required records, then the records of optional hits in order; an optional hit is
      missing only when no profile leaves room for a character of it next to the records placed before. */
  lemma ContextIsComplete(c: Config, e: Expansion, primaryIds: set<string>) returns (placed: seq<nat>)
    ensures IsPlacement(c, ContextRecords(c, e, primaryIds), RequiredRecords(c, Required(e, primaryIds)), Optional(e, primaryIds), 0, placed)
  {
    hide RequiredRecords;
    hide RequiredFrom;
    hide AddOptional;
    hide IsPlacement;
    placed := OptionalPlaced(c, RequiredRecords(c, Required(e, primaryIds)), Optional(e, primaryIds), 0);
  }

  // ----- what the records show

  /** The hit's text, truncated to the budget around the queries that found the hit. */
  ghost predicate IsExcerpt(c: Config, h: Hit, budget: nat, excerpt: string) {
    var queries := if h.id in c.queries then c.queries[h.id] else [];
    IsTruncation(c.folding, h.excerpt, budget, c.focusTerms(queries), excerpt)
  }

  lemma ExcerptIsTruncation(c: Config, h: Hit, budget: nat)
    ensures IsExcerpt(c, h, budget, ExcerptOf(c, h, budget))
  {
    hide IsTruncation;
    TruncationCorrect(c.folding, h.excerpt, budget, c.focusTerms(Queries(c, h)));
  }

  ghost predicate ShowsWhole(c: Config, hits: seq<Hit>, budget: nat, records: seq<Record>) {
    |records| == |hits| && forall k :: 0 <= k < |records| ==> records[k].id == hits[k].id && IsExcerpt(c, hits[k], budget, records[k].excerpt)
  }

  ghost predicate ShowsPart(c: Config, hits: seq<Hit>, r: Record) {
    exists h, whole :: h in hits && r.id == h.id && IsExcerpt(c, h, c.excerptBudget, whole) && r.excerpt != "" && r.excerpt <= whole
  }

  /** The first n records show these hits whole, for one budget, and the others parts of those. */
  ghost predicate ShowExcerpts(c: Config, required: seq<Hit>, optional: seq<Hit>, records: seq<Record>, n: nat) {
    && n <= |records|
    && (n > 0 ==> exists b: nat :: b <= c.excerptBudget && ShowsWhole(c, required, b, records[..n]))
    && forall k :: n <= k < |records| ==> ShowsPart(c, optional, records[k])
  }

  /** Every record shows its own chunk: the required ones the whole excerpt for one budget, the others a
      non-empty part, from the start, of the excerpt for the configured budget. */
  lemma RecordsShowExcerpts(c: Config, e: Expansion, primaryIds: set<string>)
    ensures ShowExcerpts(c, Required(e, primaryIds), Optional(e, primaryIds), ContextRecords(c, e, primaryIds),
                         |RequiredRecords(c, Required(e, primaryIds))|)
  {
    hide RequiredFrom;
    hide AddOptional;
    hide RequiredRecords;
    hide IsExcerpt;
    hide ExcerptOf;
    hide ChosenBudget;
    hide BudgetFits;
    hide ChooseProfile;
    var required, optional := Required(e, primaryIds), Optional(e, primaryIds);
    var base := RequiredRecords(c, required);
    RequiredRecordsCorrect(c, required);
    AddOptionalShows(c, base, optional, 0);
    var b := ChosenBudget(c, required);
    if base != [] {
      assert Shows(c, required, b, base);
      forall k | 0 <= k < |base| ensures base[k].id == required[k].id && IsExcerpt(c, required[k], b, base[k].excerpt) {
        ExcerptIsTruncation(c, required[k], b);
      }
      assert ContextRecords(c, e, primaryIds)[..|base|] == base;
      assert ShowsWhole(c, required, b, base);
    }
  }

  lemma {:induction false} AddOptionalShows(c: Config, records: seq<Record>, optional: seq<Hit>, i: nat)
    requires i <= |optional|
    ensures var r := AddOptional(c, records, optional, i);
            records <= r && forall k :: |records| <= k < |r| ==> ShowsPart(c, optional, r[k])
    decreases |optional| - i
  {
    hide FitOptional;
    hide ExcerptOf;
    hide IsExcerpt;
    hide ShowsPart;
    if i < |optional| {
      var h := optional[i];
      var excerpt := ExcerptOf(c, h, c.excerptBudget);
      var fitted := FitOptional(c, records, h, excerpt, 0, None);
      FitOptionalCorrect(c, records, h, excerpt, 0, None);
      ExcerptIsTruncation(c, h, c.excerptBudget);
      if fitted.Some? { PartShown(c, optional, h, fitted.value, excerpt); }
      AddOptionalShows(c, if fitted.Some? then records + [fitted.value] else records, optional, i + 1);
    }
  }

  lemma PartShown(c: Config, hits: seq<Hit>, h: Hit, r: Record, whole: string)
    requires h in hits && r.id == h.id && IsExcerpt(c, h, c.excerptBudget, whole) && r.excerpt != "" && r.excerpt <= whole
    ensures ShowsPart(c, hits, r)
  {
    hide IsExcerpt;
  }
}
