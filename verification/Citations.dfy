/** The end of `BoundedEvidenceAgent.run` in src/soloscale/evidence_agent.py: the draft is checked
    against the context shown to the reasoner, the cited chunks against the store, and the result
    refers to exactly the cited chunks. */
module Citations {
  import opened Wrappers
  import opened PyText
  import opened Sorting
  import opened Utf8
  import opened Retrieval
  import opened QueryBudget
  import opened ContextRecord
  import opened ContextBuilder
  import opened ContextProperties
  import opened AgentRun
  import opened AgentProperties

  // ----- the draft

  function StripAll(ids: seq<string>): (r: seq<string>) {
    seq(|ids|, k requires 0 <= k < |ids| => Strip(ids[k]))
  }

  function ClaimFault(claim: Claim, allowed: set<string>): (fault: Option<AgentError>) {
    var ids := StripAll(claim.evidence);
    if "" in ids then Some(ClaimWithoutEvidence)
    else if |ids| != |ToSet(ids)| then Some(DuplicateReference)
    else if !(ToSet(ids) <= allowed) then Some(ReferenceOutsideRun)
    else None
  }

  /** The first fault of the claims from the i-th on. */
  function DraftFault(claims: seq<Claim>, i: nat, allowed: set<string>): (fault: Option<AgentError>)
    requires i <= |claims|
    decreases |claims| - i
  {
    if i == |claims| then None
    else
      var fault := ClaimFault(claims[i], allowed);
      if fault.Some? then fault else DraftFault(claims, i + 1, allowed)
  }

  method ValidateDraft(claims: seq<Claim>, allowed: set<string>) returns (fault: Option<AgentError>)
    ensures fault == DraftFault(claims, 0, allowed)
  {
    for i := 0 to |claims|
      invariant DraftFault(claims, 0, allowed) == DraftFault(claims, i, allowed)
    {
      var normalized := StripAll(claims[i].evidence);
      if "" in normalized {
        return Some(ClaimWithoutEvidence);
      }
      if |normalized| != |ToSet(normalized)| {
        return Some(DuplicateReference);
      }
      if !(ToSet(normalized) <= allowed) {
        return Some(ReferenceOutsideRun);
      }
    }
    return None;
  }

  /** A claim cites distinct, non-blank, allowed chunks. */
  ghost predicate GoodClaim(claim: Claim, allowed: set<string>) {
    Distinct(StripAll(claim.evidence)) && forall id :: id in StripAll(claim.evidence) ==> id != "" && id in allowed
  }

  /** The draft is accepted exactly when every claim is good. */
  lemma {:induction false} DraftAcceptedIff(claims: seq<Claim>, i: nat, allowed: set<string>)
    requires i <= |claims|
    ensures DraftFault(claims, i, allowed).None? <==> forall k :: i <= k < |claims| ==> GoodClaim(claims[k], allowed)
    decreases |claims| - i
  {
    if i < |claims| {
      DistinctIffSetSize(StripAll(claims[i].evidence));
      DraftAcceptedIff(claims, i + 1, allowed);
    }
  }

  // ----- the cited ids

  /** All ids cited by the first n claims, in order, repetitions included. */
  function Cited(claims: seq<Claim>, n: nat): (ids: seq<string>)
    requires n <= |claims|
  {
    if n == 0 then [] else Cited(claims, n - 1) + StripAll(claims[n - 1].evidence)
  }

  method OrderedCitedIds(claims: seq<Claim>) returns (result: seq<string>)
    ensures result == Dedupe(Cited(claims, |claims|))
  {
    hide Dedupe;
    result := [];
    var seen: set<string> := {};
    DedupeEmpty<string>();
    for n := 0 to |claims|
      invariant result == Dedupe(Cited(claims, n)) && seen == ToSet(Cited(claims, n))
    {
      var evidence := claims[n].evidence;
      ghost var earlier := Cited(claims, n);
      ghost var stripped := StripAll(evidence);
      assert earlier + [] == earlier;
      for k := 0 to |evidence|
        invariant result == Dedupe(earlier + stripped[..k]) && seen == ToSet(earlier + stripped[..k])
      {
        var normalized := Strip(evidence[k]);
        Reassociate(earlier, stripped[..k], [normalized]);
        assert stripped[..k + 1] == stripped[..k] + [normalized];
        DedupeSnoc(earlier + stripped[..k], normalized);
        if normalized !in seen {
          seen := seen + {normalized};
          result := result + [normalized];
        }
      }
      assert stripped[..|evidence|] == stripped;
    }
  }

  lemma DedupeEmpty<T>()
    ensures Dedupe<T>([]) == []
  {
  }

  lemma DedupeSnoc<T>(s: seq<T>, x: T)
    ensures Dedupe(s + [x]) == if x in s then Dedupe(s) else Dedupe(s) + [x]
  {
    assert (s + [x])[..|s|] == s;
  }

  // ----- the store at the end

  /** The last hit with this id: a dictionary built from the list keeps the last one. */
  function LookupLast(hits: seq<Hit>, id: string): (h: Option<Hit>)
    ensures h.Some? ==> h.value in hits && h.value.id == id
  {
    if hits == [] then None
    else if hits[|hits| - 1].id == id then Some(hits[|hits| - 1])
    else LookupLast(hits[..|hits| - 1], id)
  }

  predicate IsCurrent(id: string, shown: seq<Hit>, current: seq<Hit>) {
    var expected, actual := Lookup(shown, id), LookupLast(current, id);
    expected.Some? && actual.Some? && expected.value.identity == actual.value.identity
  }

  method ValidateCurrentCitations(cited: seq<string>, shown: seq<Hit>, current: seq<Hit>) returns (ok: bool)
    ensures ok <==> forall k :: 0 <= k < |cited| ==> IsCurrent(cited[k], shown, current)
  {
    for i := 0 to |cited|
      invariant forall k :: 0 <= k < i ==> IsCurrent(cited[k], shown, current)
    {
      var expected, actual := Lookup(shown, cited[i]), LookupLast(current, cited[i]);
      if expected.None? || actual.None? || expected.value.identity != actual.value.identity {
        return false;
      }
    }
    return true;
  }

  // ----- the result

  /** A reference: the chunk as retrieved, with the record and excerpt the reasoner saw. */
  datatype Reference = Reference(id: string, identity: string, channels: seq<string>, excerpt: string, record: Record)

  datatype RunResult = RunResult(
    claims: seq<Claim>, refs: seq<Reference>, queries: seq<string>,
    retrievedIds: seq<string>, contextIds: seq<string>, contextText: string)

  function RecordFor(records: seq<Record>, id: string): (r: Option<Record>)
    ensures r.Some? ==> r.value in records && r.value.id == id
    ensures r.None? <==> id !in RecordIds(records)
  {
    if records == [] then None
    else
      var n := |records| - 1;
      assert RecordIds(records) == RecordIds(records[..n]) + [records[n].id];
      if records[n].id == id then Some(records[n]) else RecordFor(records[..n], id)
  }

  /** Every cited id names a shown hit that has a record. */
  ghost predicate Referable(cited: seq<string>, shown: seq<Hit>, records: seq<Record>) {
    forall k :: 0 <= k < |cited| ==> cited[k] in Ids(shown) && cited[k] in RecordIds(records)
  }

  function ReferenceTo(id: string, shown: seq<Hit>, records: seq<Record>): (r: Reference)
    requires id in Ids(shown) && id in RecordIds(records)
  {
    var hit, record := Lookup(shown, id).value, RecordFor(records, id).value;
    Reference(hit.id, hit.identity, hit.channels, record.excerpt, record)
  }

  function References(cited: seq<string>, shown: seq<Hit>, records: seq<Record>): (refs: seq<Reference>)
    requires Referable(cited, shown, records)
  {
    seq(|cited|, k requires 0 <= k < |cited| => ReferenceTo(cited[k], shown, records))
  }

  function RefIds(refs: seq<Reference>): (ids: seq<string>) {
    seq(|refs|, k requires 0 <= k < |refs| => refs[k].id)
  }

  lemma CitedAreReferable(claims: seq<Claim>, shown: seq<Hit>, records: seq<Record>, current: seq<Hit>)
    requires DraftFault(claims, 0, ToSet(RecordIds(records))).None?
    requires forall k :: 0 <= k < |Dedupe(Cited(claims, |claims|))| ==> IsCurrent(Dedupe(Cited(claims, |claims|))[k], shown, current)
    ensures Referable(Dedupe(Cited(claims, |claims|)), shown, records)
  {
    DraftAcceptedIff(claims, 0, ToSet(RecordIds(records)));
    CitedAreAllowed(claims, |claims|, ToSet(RecordIds(records)));
    var cited := Dedupe(Cited(claims, |claims|));
    forall k | 0 <= k < |cited| ensures cited[k] in Ids(shown) && cited[k] in RecordIds(records) {
      DedupeMember(Cited(claims, |claims|), cited[k]);
      assert IsCurrent(cited[k], shown, current);
    }
  }

  lemma {:induction false} CitedAreAllowed(claims: seq<Claim>, n: nat, allowed: set<string>)
    requires n <= |claims| && forall k :: 0 <= k < |claims| ==> GoodClaim(claims[k], allowed)
    ensures forall id :: id in Cited(claims, n) ==> id in allowed
    ensures forall k, id :: 0 <= k < n && id in StripAll(claims[k].evidence) ==> id in Cited(claims, n)
  {
    if n > 0 {
      CitedAreAllowed(claims, n - 1, allowed);
      assert GoodClaim(claims[n - 1], allowed);
    }
  }

  /** The run after its retrieval. */
  function Finish(a: Agent, w: World, p: Progress): (r: Result<RunResult, AgentError>) {
    var expansion := ExpansionOf(w, 0, p.state);
    if expansion.Err? then Err(expansion.error)
    else
      var shown := expansion.value.hits;
      var records := RecordsOf(a, p.state, expansion.value);
      var claims := if records == [] then [] else w.draft(ListJson(records));
      var fault := DraftFault(claims, 0, ToSet(RecordIds(records)));
      var cited := Dedupe(Cited(claims, |claims|));
      if fault.Some? then Err(fault.value)
      else if !AllCurrent(cited, shown, w.current(cited)) then Err(EvidenceChanged)
      else
        CitedAreReferable(claims, shown, records, w.current(cited));
        Ok(RunResult(claims, References(cited, shown, records), StepQueries(p.steps),
                     Ids(p.state.retrieved), RecordIds(records), ListJson(records)))
  }

  predicate AllCurrent(cited: seq<string>, shown: seq<Hit>, current: seq<Hit>) {
    forall k :: 0 <= k < |cited| ==> IsCurrent(cited[k], shown, current)
  }

  /** `BoundedEvidenceAgent.run`, from the proposed queries (the seed query and the plan). */
  function Run(a: Agent, w: World, proposed: seq<string>): (r: Result<RunResult, AgentError>) {
    var retrieval := Retrieve(a, w, proposed);
    if retrieval.Err? then Err(retrieval.error) else Finish(a, w, retrieval.value)
  }

  method RunAgent(a: Agent, w: World, proposed: seq<string>) returns (r: Result<RunResult, AgentError>)
    ensures r == Run(a, w, proposed)
  {
    hide Retrieve;
    hide Finish;
    var retrieval := RunRetrieval(a, w, proposed);
    if retrieval.Err? {
      return Err(retrieval.error);
    }
    r := FinishRun(a, w, retrieval.value);
  }

  method FinishRun(a: Agent, w: World, p: Progress) returns (r: Result<RunResult, AgentError>)
    ensures r == Finish(a, w, p)
  {
    hide ExpansionOf;
    hide Dedupe;
    hide Cited;
    hide DraftFault;
    hide IsCurrent;
    hide ListJson;
    hide Referable;
    var e := ExpandRetrieved(w, 0, p.state);
    if e.Err? {
      return Err(e.error);
    }
    var shown := e.value.hits;
    var text, contextIds, records := BuildContext(ContextConfig(a, p.state), e.value, IdSet(p.state.retrieved));
    var claims := [];
    if contextIds != [] {
      claims := w.draft(text);
    }
    var fault := ValidateDraft(claims, ToSet(contextIds));
    if fault.Some? {
      return Err(fault.value);
    }
    var cited := OrderedCitedIds(claims);
    if cited != [] {
      var ok := ValidateCurrentCitations(cited, shown, w.current(cited));
      if !ok {
        return Err(EvidenceChanged);
      }
    }
    CitedAreReferable(claims, shown, records, w.current(cited));
    r := Ok(RunResult(claims, References(cited, shown, records), StepQueries(p.steps),
                      Ids(p.state.retrieved), contextIds, text));
  }

  // ----- what every result satisfies

  /** The reference is to a cited chunk, with the excerpt of a record the reasoner saw, and the store
      still holds the chunk unchanged. */
  ghost predicate IsSupported(ref: Reference, records: seq<Record>, current: seq<Hit>) {
    && ref.record in records && ref.record.id == ref.id && ref.record.excerpt == ref.excerpt
    && exists h :: h in current && h.id == ref.id && h.identity == ref.identity
  }

  /** References are the distinct cited ids in the order of their first citation, each supported;
      every claim cites context chunks only; and an empty context leaves no claims and no references. */
  ghost predicate CitationClosed(r: RunResult, records: seq<Record>, current: seq<Hit>) {
    var cited := Cited(r.claims, |r.claims|);
    && Distinct(RefIds(r.refs))
    && (forall id :: id in RefIds(r.refs) <==> id in cited)
    && (forall i, j :: 0 <= i < j < |r.refs| ==> OccursFirst(cited, r.refs[i].id, r.refs[j].id))
    && (forall k :: 0 <= k < |r.refs| ==> IsSupported(r.refs[k], records, current))
    && (forall k :: 0 <= k < |r.claims| ==> GoodClaim(r.claims[k], ToSet(r.contextIds)))
    && (r.contextIds == [] ==> r.claims == [] && r.refs == [])
    && r.contextIds == RecordIds(records) && r.contextText == ListJson(records)
  }

  lemma ReferenceIsSupported(id: string, shown: seq<Hit>, records: seq<Record>, current: seq<Hit>)
    requires IsCurrent(id, shown, current) && id in Ids(shown) && id in RecordIds(records)
    ensures IsSupported(ReferenceTo(id, shown, records), records, current)
    ensures ReferenceTo(id, shown, records).id == id
  {
    assert LookupLast(current, id).value in current;
  }

  lemma ReferencesCorrect(cited: seq<string>, shown: seq<Hit>, records: seq<Record>, current: seq<Hit>)
    requires Referable(cited, shown, records) && AllCurrent(cited, shown, current)
    ensures var refs := References(cited, shown, records);
            RefIds(refs) == cited && forall k :: 0 <= k < |refs| ==> IsSupported(refs[k], records, current)
  {
    hide ReferenceTo;
    hide IsSupported;
    var refs := References(cited, shown, records);
    forall k | 0 <= k < |refs| ensures IsSupported(refs[k], records, current) && refs[k].id == cited[k] {
      ReferenceIsSupported(cited[k], shown, records, current);
    }
  }

  lemma FinishIsCitationClosed(a: Agent, w: World, p: Progress)
    requires Finish(a, w, p).Ok?
    ensures var r := Finish(a, w, p).value;
            CitationClosed(r, RecordsOf(a, p.state, ExpansionOf(w, 0, p.state).value), w.current(RefIds(r.refs)))
  {
    hide ExpansionOf;
    hide RecordsOf;
    hide ListJson;
    hide IsSupported;
    hide GoodClaim;
    hide IsCurrent;
    hide Dedupe;
    hide OccursFirst;
    var r := Finish(a, w, p).value;
    var e := ExpansionOf(w, 0, p.state).value;
    var records := RecordsOf(a, p.state, e);
    var all := Cited(r.claims, |r.claims|);
    var cited := Dedupe(all);
    CitedAreReferable(r.claims, e.hits, records, w.current(cited));
    ReferencesCorrect(cited, e.hits, records, w.current(cited));
    DraftAcceptedIff(r.claims, 0, ToSet(RecordIds(records)));
    DedupeMembers(all);
    forall i, j | 0 <= i < j < |cited| ensures OccursFirst(all, r.refs[i].id, r.refs[j].id) {
      DedupeOrder(all, i, j);
      assert RefIds(r.refs)[i] == cited[i] && RefIds(r.refs)[j] == cited[j];
    }
    forall id ensures id in cited <==> id in all { DedupeMember(all, id); }
    assert RefIds(r.refs) == cited;
    if r.contextIds == [] {
      assert |records| == 0 && all == [];
      DedupeEmpty<string>();
    }
  }

  /** The store never repeats a chunk within one neighbour answer. */
  ghost predicate KeyedNeighbors(w: World) {
    forall n: nat, k: nat :: Keyed(w.neighbors(n, k))
  }

  /** The budgets a result respects. */
  ghost predicate Bounded(a: Agent, r: RunResult) {
    && Distinct(r.retrievedIds) && |r.retrievedIds| <= a.limits.maxHits
    && FoldDistinct(a.fold, r.queries) && |r.queries| <= a.limits.maxRounds * a.limits.maxQueries
  }

  lemma ProgressIsBounded(a: Agent, p: Progress)
    requires GoodProgress(a, p)
    ensures Distinct(Ids(p.state.retrieved)) && |Ids(p.state.retrieved)| <= a.limits.maxHits
    ensures FoldDistinct(a.fold, StepQueries(p.steps)) && |StepQueries(p.steps)| <= a.limits.maxRounds * a.limits.maxQueries
  {
    hide FoldDistinct;
    SearchesBounded(a.limits, p.rounds, |p.rounds|);
    ScaleMonotone(|p.rounds|, a.limits.maxRounds, a.limits.maxQueries);
  }

  lemma ContextIsBounded(a: Agent, w: World, st: State)
    requires ExpansionOf(w, 0, st).Ok?
    ensures var records := RecordsOf(a, st, ExpansionOf(w, 0, st).value);
            && ByteLength(ListJson(records)) <= Max(2, a.context.contextBudget)
            && (Keyed(st.retrieved) && KeyedNeighbors(w) ==> Distinct(RecordIds(records)))
  {
    hide Expand;
    hide ContextRecords;
    hide Distinct;
    hide ListJson;
    ContextFits(ContextConfig(a, st), ExpansionOf(w, 0, st).value, IdSet(st.retrieved));
    if Keyed(st.retrieved) && KeyedNeighbors(w) {
      ContextCorrect(ContextConfig(a, st), st.retrieved, NeighborsOf(w, 0, |st.retrieved|));
    }
  }

  /** The end-to-end guarantee, whatever the store and the reasoner answer: a result is
      citation-closed over the records the reasoner saw, and within the hit, query and byte budgets; the
      shown ids are distinct when the store never repeats a chunk within one neighbour answer. */
  lemma ResultIsClosedAndBounded(a: Agent, w: World, proposed: seq<string>)
    requires Run(a, w, proposed).Ok?
    ensures var r := Run(a, w, proposed).value;
            var st := Retrieve(a, w, proposed).value.state;
            && CitationClosed(r, RecordsOf(a, st, ExpansionOf(w, 0, st).value), w.current(RefIds(r.refs)))
            && Bounded(a, r) && ByteLength(r.contextText) <= Max(2, a.context.contextBudget)
            && (KeyedNeighbors(w) ==> Distinct(r.contextIds))
  {
    hide Retrieve;
    hide CitationClosed;
    hide RecordsOf;
    hide ExpansionOf;
    hide GoodProgress;
    hide FoldDistinct;
    hide Distinct;
    hide KeyedNeighbors;
    hide ByteLength;
    hide ListJson;
    var p := Retrieve(a, w, proposed).value;
    RetrievalStaysInBudget(a, w, proposed);
    FinishIsCitationClosed(a, w, p);
    ProgressIsBounded(a, p);
    KeyedProgress(a, p);
    ContextIsBounded(a, w, p.state);
  }

  lemma KeyedProgress(a: Agent, p: Progress)
    requires GoodProgress(a, p)
    ensures Keyed(p.state.retrieved)
  {
  }
}
