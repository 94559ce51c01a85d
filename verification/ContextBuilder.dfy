/** `_build_context` of src/soloscale/evidence_agent.py: packing retrieved chunks and their neighbours
    into a JSON list of bounded size. */
module ContextBuilder {
  import opened Wrappers
  import opened PyText
  import opened Utf8
  import opened FocusSpans
  import opened FocusWindows
  import opened FocusedTruncation
  import opened ContextRecord
  import opened Retrieval

  /** How much display metadata a record carries. */
  datatype Profile = Profile(externalIdBytes: nat, titleBytes: nat, lean: bool)

  /** Richest first. */
  const PROFILES: seq<Profile> :=
    [Profile(96, 160, false), Profile(48, 80, false), Profile(0, 0, false), Profile(0, 0, true)]

  const MIN_REQUIRED_EXCERPT_BYTES: nat := 96

  /** The budgets, the folding tables, the tokeniser that turns queries into search terms, and the
      rendering of a hit's metadata under a profile; `queries` are the focus queries per chunk id. */
  datatype Config = Config(
    excerptBudget: nat, contextBudget: nat,
    folding: Folding, focusTerms: seq<string> -> seq<string>,
    render: (Hit, Profile, seq<string>) -> (string, string),
    queries: map<string, seq<string>>)

  function Queries(c: Config, hit: Hit): (q: seq<string>) {
    if hit.id in c.queries then c.queries[hit.id] else []
  }

  function BaseOf(c: Config, hit: Hit, profile: Profile): (b: Base) {
    var text := c.render(hit, profile, Queries(c, hit));
    Base(hit.id, text.0, text.1)
  }

  function ExcerptOf(c: Config, hit: Hit, budget: nat): (excerpt: string) {
    FocusedTruncate(c.folding, hit.excerpt, budget, c.focusTerms(Queries(c, hit)))
  }

  // ----- which hits are required

  function Preferred(role: Role): (r: Option<Role>) {
    match role
    case User => Some(Assistant)
    case Assistant => Some(User)
    case OtherRole => None
  }

  /** The shown hits named by ids that no earlier primary has taken. */
  function Candidates(hits: seq<Hit>, ids: seq<string>, taken: set<string>): (r: seq<Hit>) {
    if ids == [] then []
    else
      var found := Lookup(hits, ids[0]);
      (if found.Some? && ids[0] !in taken then [found.value] else []) + Candidates(hits, ids[1..], taken)
  }

  /** Up to three neighbours of the answering role, or else the first neighbour. */
  function RequiredNeighbors(primary: Hit, candidates: seq<Hit>): (r: seq<Hit>) {
    var preferred := Filter(candidates, (h: Hit) => Some(h.role) == Preferred(primary.role));
    if preferred != [] then Clip(preferred, 3) else Clip(candidates, 1)
  }

  function ListOf(byPrimary: map<string, seq<string>>, id: string): (ids: seq<string>) {
    if id in byPrimary then byPrimary[id] else []
  }

  function IdSet(hits: seq<Hit>): (s: set<string>) {
    set id | id in Ids(hits)
  }

  /** The primaries from the i-th on, each followed by the neighbours it requires. */
  function RequiredFrom(hits: seq<Hit>, byPrimary: map<string, seq<string>>, primaries: seq<Hit>, i: nat, taken: set<string>): (r: seq<Hit>)
    requires i <= |primaries|
    decreases |primaries| - i
  {
    if i == |primaries| then []
    else
      var p := primaries[i];
      var neighbors := RequiredNeighbors(p, Candidates(hits, ListOf(byPrimary, p.id), taken));
      [p] + neighbors + RequiredFrom(hits, byPrimary, primaries, i + 1, taken + IdSet(neighbors))
  }

  function Filter(hits: seq<Hit>, p: Hit -> bool): (r: seq<Hit>) {
    if hits == [] then [] else (if p(hits[0]) then [hits[0]] else []) + Filter(hits[1..], p)
  }

  function Required(e: Expansion, primaryIds: set<string>): (r: seq<Hit>) {
    RequiredFrom(e.hits, e.byPrimary, Filter(e.hits, (h: Hit) => h.id in primaryIds), 0, {})
  }

  function Optional(e: Expansion, primaryIds: set<string>): (r: seq<Hit>) {
    var required := Required(e, primaryIds);
    Filter(e.hits, (h: Hit) => h.id !in Ids(required))
  }

  method SelectRequired(hits: seq<Hit>, byPrimary: map<string, seq<string>>, primaries: seq<Hit>) returns (required: seq<Hit>)
    ensures required == RequiredFrom(hits, byPrimary, primaries, 0, {})
  {
    hide Candidates;
    hide RequiredNeighbors;
    required := [];
    var taken: set<string> := {};
    ghost var goal := RequiredFrom(hits, byPrimary, primaries, 0, {});
    for i := 0 to |primaries|
      invariant goal == required + RequiredFrom(hits, byPrimary, primaries, i, taken)
    {
      var p := primaries[i];
      var neighbors := RequiredNeighbors(p, Candidates(hits, ListOf(byPrimary, p.id), taken));
      ghost var rest := RequiredFrom(hits, byPrimary, primaries, i + 1, taken + IdSet(neighbors));
      Reassociate(required, [p] + neighbors, rest);
      Reassociate(required, [p], neighbors);
      required := required + [p] + neighbors;
      taken := taken + IdSet(neighbors);
    }
    assert required + [] == required;
  }

  // ----- fitting the required hits with one excerpt budget

  /** The records of the first i required hits, or None when one of them does not fit whole. */
  function FitRequired(c: Config, required: seq<Hit>, profile: Profile, budget: nat, i: nat): (r: Option<seq<Record>>)
    requires i <= |required|
  {
    if i == 0 then Some([])
    else
      var before := FitRequired(c, required, profile, budget, i - 1);
      if before.None? then None
      else
        var excerpt := ExcerptOf(c, required[i - 1], budget);
        var fitted := FitRecord(before.value, BaseOf(c, required[i - 1], profile), excerpt, c.contextBudget);
        if fitted.None? || fitted.value.excerpt != excerpt then None else Some(before.value + [fitted.value])
  }

  function FitAll(c: Config, required: seq<Hit>, profile: Profile, budget: nat): (r: Option<seq<Record>>) {
    FitRequired(c, required, profile, budget, |required|)
  }

  method FitRequiredHits(c: Config, required: seq<Hit>, profile: Profile, budget: nat) returns (r: Option<seq<Record>>)
    ensures r == FitAll(c, required, profile, budget)
  {
    hide FitRecord;
    hide FocusedTruncate;
    var records: seq<Record> := [];
    for i := 0 to |required|
      invariant FitRequired(c, required, profile, budget, i) == Some(records)
    {
      var hit := required[i];
      var excerpt := TruncateFocused(c.folding, hit.excerpt, budget, c.focusTerms(Queries(c, hit)));
      var fitted := FitContextRecord(records, BaseOf(c, hit, profile), excerpt, c.contextBudget);
      if fitted.None? || fitted.value.excerpt != excerpt {
        FitRequiredFails(c, required, profile, budget, i + 1, |required|);
        return None;
      }
      records := records + [fitted.value];
    }
    return Some(records);
  }

  lemma {:induction false} FitRequiredFails(c: Config, required: seq<Hit>, profile: Profile, budget: nat, i: nat, j: nat)
    requires i <= j <= |required| && FitRequired(c, required, profile, budget, i).None?
    ensures FitRequired(c, required, profile, budget, j).None?
    decreases j
  {
    hide FitRecord;
    hide ExcerptOf;
    if i < j { FitRequiredFails(c, required, profile, budget, i, j - 1); }
  }

  /** The records are the required hits in order, each with its whole focused excerpt at this budget,
      and the list fits. */
  ghost predicate Shows(c: Config, required: seq<Hit>, budget: nat, records: seq<Record>) {
    && |records| == |required|
    && (forall k :: 0 <= k < |records| ==>
          records[k].id == required[k].id && records[k].excerpt == ExcerptOf(c, required[k], budget) && records[k].excerpt != "")
    && (records != [] ==> Size(records) <= c.contextBudget)
  }

  lemma {:induction false} FitRequiredShows(c: Config, required: seq<Hit>, profile: Profile, budget: nat, i: nat)
    requires i <= |required| && FitRequired(c, required, profile, budget, i).Some?
    ensures Shows(c, required[..i], budget, FitRequired(c, required, profile, budget, i).value)
  {
    hide FitRecord;
    hide ExcerptOf;
    hide Size;
    if i > 0 {
      FitRequiredShows(c, required, profile, budget, i - 1);
      var before := FitRequired(c, required, profile, budget, i - 1).value;
      FitRecordCorrect(before, BaseOf(c, required[i - 1], profile), ExcerptOf(c, required[i - 1], budget), c.contextBudget);
    }
  }

  /** The richest profile under which the required hits fit at the minimum excerpt budget, else the leanest. */
  function ChooseProfile(c: Config, required: seq<Hit>, i: nat): (p: Profile)
    requires i <= |PROFILES|
    decreases |PROFILES| - i
  {
    if i == |PROFILES| then PROFILES[|PROFILES| - 1]
    else if FitAll(c, required, PROFILES[i], Min(c.excerptBudget, MIN_REQUIRED_EXCERPT_BYTES)).Some? then PROFILES[i]
    else ChooseProfile(c, required, i + 1)
  }

  predicate BudgetFits(c: Config, required: seq<Hit>, profile: Profile, budget: nat) {
    FitAll(c, required, profile, budget).Some?
  }

  /** The budget at which the source's binary search ends; zero when no probe fitted. */
  function SearchedBudget(c: Config, required: seq<Hit>, profile: Profile, low: int, high: int): (b: nat)
    requires 0 < low
    decreases high + 1 - low
  {
    if low > high then low - 1
    else
      var middle := (low + high) / 2;
      if BudgetFits(c, required, profile, middle) then SearchedBudget(c, required, profile, middle + 1, high)
      else SearchedBudget(c, required, profile, low, middle - 1)
  }

  function RecordsAt(c: Config, required: seq<Hit>, profile: Profile, budget: nat): (r: seq<Record>) {
    if budget > 0 && BudgetFits(c, required, profile, budget) then FitAll(c, required, profile, budget).value else []
  }

  function ChosenBudget(c: Config, required: seq<Hit>): (b: nat) {
    SearchedBudget(c, required, ChooseProfile(c, required, 0), 1, c.excerptBudget)
  }

  function RequiredRecords(c: Config, required: seq<Hit>): (r: seq<Record>) {
    if required == [] then [] else RecordsAt(c, required, ChooseProfile(c, required, 0), ChosenBudget(c, required))
  }

  method FitWithCommonBudget(c: Config, required: seq<Hit>) returns (records: seq<Record>)
    ensures records == RequiredRecords(c, required)
  {
    hide FitAll;
    records := [];
    if required == [] {
      return;
    }
    var profile := PROFILES[|PROFILES| - 1];
    for i := 0 to |PROFILES|
      invariant ChooseProfile(c, required, 0) == ChooseProfile(c, required, i)
      invariant profile == PROFILES[|PROFILES| - 1]
    {
      var fitted := FitRequiredHits(c, required, PROFILES[i], Min(c.excerptBudget, MIN_REQUIRED_EXCERPT_BYTES));
      if fitted.Some? {
        profile := PROFILES[i];
        break;
      }
    }
    var low: int, high: int := 1, c.excerptBudget;
    while low <= high
      invariant 0 < low
      invariant records == RecordsAt(c, required, profile, low - 1)
      invariant SearchedBudget(c, required, profile, low, high) == ChosenBudget(c, required)
    {
      var middle := (low + high) / 2;
      var fitted := FitRequiredHits(c, required, profile, middle);
      if fitted.None? {
        high := middle - 1;
      } else {
        records := fitted.value;
        low := middle + 1;
      }
    }
  }

  /** Local maximality, with no monotonicity assumed: the chosen budget fits (or is zero), and it is
      the configured maximum or the next budget does not fit. */
  lemma {:induction false} SearchIsLocallyMaximal(c: Config, required: seq<Hit>, profile: Profile, low: int, high: int)
    requires 0 < low <= high + 1 <= c.excerptBudget + 1
    requires low == 1 || BudgetFits(c, required, profile, low - 1)
    requires high == c.excerptBudget || !BudgetFits(c, required, profile, high + 1)
    ensures var b := SearchedBudget(c, required, profile, low, high);
            && b <= c.excerptBudget
            && (b == 0 || BudgetFits(c, required, profile, b))
            && (b == c.excerptBudget || !BudgetFits(c, required, profile, b + 1))
    decreases high + 1 - low
  {
    hide BudgetFits;
    if low <= high {
      var middle := (low + high) / 2;
      if BudgetFits(c, required, profile, middle) {
        SearchIsLocallyMaximal(c, required, profile, middle + 1, high);
      } else {
        SearchIsLocallyMaximal(c, required, profile, low, middle - 1);
      }
    }
  }

  /** Every probe on the search's way up fits. */
  predicate UpperProbesFit(c: Config, required: seq<Hit>, profile: Profile, low: int, high: int)
    requires 0 < low
    decreases high + 1 - low
  {
    low > high ||
    (BudgetFits(c, required, profile, (low + high) / 2)
     && UpperProbesFit(c, required, profile, (low + high) / 2 + 1, high))
  }

  /** The search reaches the largest budget exactly when every probe on the way up to it fits; that
      the largest budget itself fits is not enough. */
  lemma {:induction false} MaximumFoundIff(c: Config, required: seq<Hit>, profile: Profile, low: int, high: int)
    requires 0 < low <= high + 1
    ensures SearchedBudget(c, required, profile, low, high) <= high
    ensures SearchedBudget(c, required, profile, low, high) == high <==> UpperProbesFit(c, required, profile, low, high)
    decreases high + 1 - low
  {
    hide BudgetFits;
    if low <= high {
      var middle := (low + high) / 2;
      if BudgetFits(c, required, profile, middle) {
        MaximumFoundIff(c, required, profile, middle + 1, high);
      } else {
        MaximumFoundIff(c, required, profile, low, middle - 1);
      }
    }
  }

  // ----- adding the optional hits

  /** `_fit_optional_context_record` from profile i on, with the last record that fitted so far. */
  function FitOptional(c: Config, existing: seq<Record>, hit: Hit, excerpt: string, i: nat, fallback: Option<Record>): (r: Option<Record>)
    requires i <= |PROFILES|
    decreases |PROFILES| - i
  {
    if i == |PROFILES| then fallback
    else
      var fitted := FitRecord(existing, BaseOf(c, hit, PROFILES[i]), excerpt, c.contextBudget);
      if fitted.None? then FitOptional(c, existing, hit, excerpt, i + 1, fallback)
      else if ByteLength(fitted.value.excerpt) >= Min(ByteLength(excerpt), MIN_REQUIRED_EXCERPT_BYTES) then fitted
      else FitOptional(c, existing, hit, excerpt, i + 1, fitted)
  }

  method FitOptionalRecord(c: Config, existing: seq<Record>, hit: Hit, excerpt: string) returns (r: Option<Record>)
    ensures r == FitOptional(c, existing, hit, excerpt, 0, None)
  {
    hide FitRecord;
    hide BaseOf;
    hide ByteLength;
    var minimum := Min(ByteLength(excerpt), MIN_REQUIRED_EXCERPT_BYTES);
    r := None;
    for i := 0 to |PROFILES|
      invariant FitOptional(c, existing, hit, excerpt, 0, None) == FitOptional(c, existing, hit, excerpt, i, r)
    {
      var fitted := FitContextRecord(existing, BaseOf(c, hit, PROFILES[i]), excerpt, c.contextBudget);
      if fitted.None? {
        continue;
      }
      r := fitted;
      if ByteLength(fitted.value.excerpt) >= minimum {
        return;
      }
    }
  }

  /** An optional record, when there is one, shows a non-empty prefix of the excerpt and still fits;
      there is none exactly when no profile leaves room for a single character. */
  lemma {:induction false} FitOptionalCorrect(c: Config, existing: seq<Record>, hit: Hit, excerpt: string, i: nat, fallback: Option<Record>)
    requires i <= |PROFILES|
    requires fallback.Some? ==> AddsPrefix(c, existing, hit, excerpt, fallback.value)
    ensures var r := FitOptional(c, existing, hit, excerpt, i, fallback);
            && (r.Some? ==> AddsPrefix(c, existing, hit, excerpt, r.value))
            && (r.None? <==> fallback.None? && forall j :: i <= j < |PROFILES| ==>
                  FitRecord(existing, BaseOf(c, hit, PROFILES[j]), excerpt, c.contextBudget).None?)
    decreases |PROFILES| - i
  {
    hide FitRecord;
    hide ByteLength;
    hide Size;
    if i < |PROFILES| {
      var base := BaseOf(c, hit, PROFILES[i]);
      var fitted := FitRecord(existing, base, excerpt, c.contextBudget);
      FitRecordCorrect(existing, base, excerpt, c.contextBudget);
      FitOptionalCorrect(c, existing, hit, excerpt, i + 1, if fitted.Some? then fitted else fallback);
    }
  }

  ghost predicate AddsPrefix(c: Config, existing: seq<Record>, hit: Hit, excerpt: string, r: Record) {
    r.id == hit.id && r.excerpt != "" && r.excerpt <= excerpt && Size(existing + [r]) <= c.contextBudget
  }

  /** The records after trying the optional hits from the i-th on, each at the full excerpt budget. */
  function AddOptional(c: Config, records: seq<Record>, optional: seq<Hit>, i: nat): (r: seq<Record>)
    requires i <= |optional|
    decreases |optional| - i
  {
    if i == |optional| then records
    else
      var fitted := FitOptional(c, records, optional[i], ExcerptOf(c, optional[i], c.excerptBudget), 0, None);
      AddOptional(c, if fitted.Some? then records + [fitted.value] else records, optional, i + 1)
  }

  /** The records of the whole context. */
  function ContextRecords(c: Config, e: Expansion, primaryIds: set<string>): (r: seq<Record>) {
    AddOptional(c, RequiredRecords(c, Required(e, primaryIds)), Optional(e, primaryIds), 0)
  }

  function RecordIds(records: seq<Record>): (ids: seq<string>) {
    seq(|records|, i requires 0 <= i < |records| => records[i].id)
  }

  method BuildContext(c: Config, e: Expansion, primaryIds: set<string>)
    returns (text: string, ids: seq<string>, records: seq<Record>)
    ensures records == ContextRecords(c, e, primaryIds)
    ensures text == ListJson(records) && ids == RecordIds(records)
  {
    hide FitOptional;
    hide FocusedTruncate;
    hide RequiredFrom;
    hide RequiredRecords;
    var required := SelectRequired(e.hits, e.byPrimary, Filter(e.hits, (h: Hit) => h.id in primaryIds));
    var optional := Filter(e.hits, (h: Hit) => h.id !in Ids(required));
    records := FitWithCommonBudget(c, required);
    ids := RecordIds(records);
    for i := 0 to |optional|
      invariant ids == RecordIds(records)
      invariant ContextRecords(c, e, primaryIds) == AddOptional(c, records, optional, i)
    {
      var hit := optional[i];
      var excerpt := TruncateFocused(c.folding, hit.excerpt, c.excerptBudget, c.focusTerms(Queries(c, hit)));
      var fitted := FitOptionalRecord(c, records, hit, excerpt);
      if fitted.None? {
        continue;
      }
      records := records + [fitted.value];
      ids := ids + [fitted.value.id];
    }
    text := ListJson(records);
  }

  // ----- the search is not globally maximal

  ghost predicate NoneFits(c: Config, required: seq<Hit>, profile: Profile, low: int, high: int) {
    forall budget: nat :: low <= budget <= high ==> !BudgetFits(c, required, profile, budget)
  }

  /** No failing probe of the search has a fitting budget above it, up to the bound the search still
      considers there. */
  ghost predicate FailuresAreFinal(c: Config, required: seq<Hit>, profile: Profile, low: int, high: int)
    requires 0 < low
    decreases high + 1 - low
  {
    low > high ||
    (var middle := (low + high) / 2;
     if BudgetFits(c, required, profile, middle) then FailuresAreFinal(c, required, profile, middle + 1, high)
     else NoneFits(c, required, profile, middle + 1, high) && FailuresAreFinal(c, required, profile, low, middle - 1))
  }

  /** The search ends at the largest fitting budget (or below the smallest, when none fits) exactly when no
      failing probe has a fitting budget above it. */
  lemma {:induction false} LargestFoundIff(c: Config, required: seq<Hit>, profile: Profile, low: int, high: int)
    requires 0 < low <= high + 1
    ensures var b := SearchedBudget(c, required, profile, low, high);
            && low - 1 <= b <= high && (b == low - 1 || BudgetFits(c, required, profile, b))
            && (NoneFits(c, required, profile, b + 1, high) <==> FailuresAreFinal(c, required, profile, low, high))
    decreases high + 1 - low
  {
    hide BudgetFits;
    hide NoneFits;
    if low > high {
      NothingAbove(c, required, profile, high);
    } else {
      var middle := (low + high) / 2;
      if BudgetFits(c, required, profile, middle) {
        LargestFoundIff(c, required, profile, middle + 1, high);
      } else {
        LargestFoundIff(c, required, profile, low, middle - 1);
        SplitRange(c, required, profile, SearchedBudget(c, required, profile, low, middle - 1) + 1, middle, high);
      }
    }
  }

  lemma NothingAbove(c: Config, required: seq<Hit>, profile: Profile, high: int)
    ensures NoneFits(c, required, profile, high + 1, high)
  {
  }

  lemma SplitRange(c: Config, required: seq<Hit>, profile: Profile, low: int, middle: int, high: int)
    requires 0 <= low <= middle <= high && !BudgetFits(c, required, profile, middle)
    ensures NoneFits(c, required, profile, low, high)
            <==> NoneFits(c, required, profile, low, middle - 1) && NoneFits(c, required, profile, middle + 1, high)
  {
    hide BudgetFits;
  }

  /** Every probe on the search's way down fails. */
  predicate LowerProbesFail(c: Config, required: seq<Hit>, profile: Profile, low: int, high: int)
    requires 0 < low
    decreases high + 1 - low
  {
    low > high ||
    (!BudgetFits(c, required, profile, (low + high) / 2)
     && LowerProbesFail(c, required, profile, low, (low + high) / 2 - 1))
  }

  /** The search ends at zero, and so leaves all the required hits out, exactly when every probe on the
      way down fails. */
  lemma {:induction false} NothingFoundIff(c: Config, required: seq<Hit>, profile: Profile, low: int, high: int)
    requires 0 < low <= high + 1
    ensures SearchedBudget(c, required, profile, low, high) == low - 1 <==> LowerProbesFail(c, required, profile, low, high)
    ensures SearchedBudget(c, required, profile, low, high) >= low - 1
    decreases high + 1 - low
  {
    hide BudgetFits;
    if low <= high {
      var middle := (low + high) / 2;
      if BudgetFits(c, required, profile, middle) {
        NothingFoundIff(c, required, profile, middle + 1, high);
      } else {
        NothingFoundIff(c, required, profile, low, middle - 1);
      }
    }
  }

  const CLEF: string := "\U{1D11E}"

  /** Whatever is searched for, a text of one four-byte character is shown whole or not at all. */
  lemma ClefTruncates(f: Folding, terms: seq<string>, budget: nat)
    ensures FocusedTruncate(f, CLEF, budget, terms) == if budget >= 4 then CLEF else ""
  {
    assert CLEF[1..] == "";
    assert ByteLength(CLEF) == 4;
    EncodeLength(CLEF);
    if budget < 4 {
      FocusSpansWithin(f, CLEF, terms);
      ClefPrefix(budget);
      var spans := FocusSpansOf(f, CLEF, terms);
      if spans != [] { ClefSpan(spans, budget); }
    }
  }

  lemma ClefPrefix(budget: nat)
    requires budget < 4 && ByteLength(CLEF) == 4
    ensures TruncateUtf8(CLEF, budget) == ""
  {
    TruncateIsLongestPrefix(CLEF, budget);
    var r := TruncateUtf8(CLEF, budget);
    assert CLEF[..1] == CLEF && CLEF[..0] == "";
    assert r == CLEF[..|r|];
  }

  lemma SecondSpanStarts(spans: seq<Span>)
    requires Separated(spans)
    ensures |spans| > 1 ==> spans[0].start < spans[0].end < spans[1].start < spans[1].end
  {
  }

  /** The only span of such a text is the whole of it, and it does not fit. */
  lemma ClefSpan(spans: seq<Span>, budget: nat)
    requires budget < 4 && spans != [] && Separated(spans) && Within(spans, 1) && ByteLength(CLEF) == 4
    ensures FitFocusedWindows(CLEF, spans, budget) == ""
  {
    SecondSpanStarts(spans);
    assert spans == [Span(0, 1)];
    FocusedExcerptCorrect(CLEF, spans, budget);
    assert CLEF[..1] == CLEF && CLEF[..0] == "" && CLEF[0..] == CLEF;
    var focus := ByteSpans(CLEF, Distributed(spans, 1));
    assert focus == [Span(0, 4)];
    assert TotalLength(focus, 1) == TotalLength(focus, 0) + 4;
    assert !CountFits(CLEF, spans, 1, budget);
    ClefPrefix(budget);
  }

  /** A required hit that fits at the configured maximum can still be left out: one four-byte
      character with an excerpt budget of four fails the probes at two and one. */
  lemma FittingMaximumCanBeMissed(c: Config, hit: Hit)
    requires c.excerptBudget == 4 && hit.excerpt == CLEF
    requires forall p :: p in PROFILES ==> Size([WithExcerpt(BaseOf(c, hit, p), CLEF)]) <= c.contextBudget
    ensures RequiredRecords(c, [hit]) == []
    ensures BudgetFits(c, [hit], ChooseProfile(c, [hit], 0), 4)
  {
    hide Size;
    hide BaseOf;
    forall p, budget: nat | p in PROFILES ensures BudgetFits(c, [hit], p, budget) <==> budget >= 4 {
      OneHitFits(c, hit, p, budget);
    }
    var p := ChooseProfile(c, [hit], 0);
    assert p in PROFILES;
    assert SearchedBudget(c, [hit], p, 1, 4) == SearchedBudget(c, [hit], p, 1, 1);
    assert SearchedBudget(c, [hit], p, 1, 1) == SearchedBudget(c, [hit], p, 1, 0) == 0;
  }

  lemma OneHitFits(c: Config, hit: Hit, p: Profile, budget: nat)
    requires hit.excerpt == CLEF
    requires Size([WithExcerpt(BaseOf(c, hit, p), CLEF)]) <= c.contextBudget
    ensures BudgetFits(c, [hit], p, budget) <==> budget >= 4
  {
    hide Size;
    hide BaseOf;
    hide FocusedTruncate;
    ClefTruncates(c.folding, c.focusTerms(Queries(c, hit)), budget);
    var excerpt := ExcerptOf(c, hit, budget);
    var base := BaseOf(c, hit, p);
    assert FitRequired(c, [hit], p, budget, 0) == Some([]);
    if budget >= 4 {
      assert CLEF[..1] == CLEF;
      assert [] + [WithExcerpt(base, CLEF)] == [WithExcerpt(base, CLEF)];
      assert PrefixFits([], base, CLEF, 1, c.contextBudget);
    }
  }
}
