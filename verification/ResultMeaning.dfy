/** What a result of src/soloscale/evidence_agent.py is made of, and which error a run ends with: the draft's
    first fault, or evidence that changed. */
module ResultMeaning {
  import opened Wrappers
  import opened Sorting
  import opened Retrieval
  import opened QueryBudget
  import opened ContextRecord
  import opened ContextBuilder
  import opened ContextMeaning
  import opened AgentRun
  import opened Citations

  // ----- the first fault

  /** What is wrong with the claim: a blank reference, else a repeated one, else one outside the context. */
  ghost predicate IsFaultOf(claim: Claim, allowed: set<string>, e: AgentError) {
    var ids := StripAll(claim.evidence);
    if exists id :: id in ids && id == "" then e == ClaimWithoutEvidence
    else if !Distinct(ids) then e == DuplicateReference
    else e == ReferenceOutsideRun && exists id :: id in ids && id !in allowed
  }

  lemma ClaimFaultIs(claim: Claim, allowed: set<string>)
    ensures var f := ClaimFault(claim, allowed);
            (f.None? <==> GoodClaim(claim, allowed)) && (f.Some? ==> IsFaultOf(claim, allowed, f.value))
  {
    DistinctIffSetSize(StripAll(claim.evidence));
  }

  /** The draft's fault is that of its first claim that is not good. */
  lemma {:induction false} FirstFault(claims: seq<Claim>, i: nat, allowed: set<string>)
    requires i <= |claims|
    ensures var f := DraftFault(claims, i, allowed);
            f.Some? ==> exists k :: i <= k < |claims| && (forall j :: i <= j < k ==> GoodClaim(claims[j], allowed))
                                    && !GoodClaim(claims[k], allowed) && IsFaultOf(claims[k], allowed, f.value)
    decreases |claims| - i
  {
    hide GoodClaim;
    hide IsFaultOf;
    hide ClaimFault;
    if i < |claims| {
      ClaimFaultIs(claims[i], allowed);
      FirstFault(claims, i + 1, allowed);
    }
  }

  // ----- unchanged evidence

  ghost predicate IsFirstWith(hits: seq<Hit>, id: string, k: nat) {
    k < |hits| && hits[k].id == id && forall j :: 0 <= j < k ==> hits[j].id != id
  }

  ghost predicate IsLastWith(hits: seq<Hit>, id: string, k: nat) {
    k < |hits| && hits[k].id == id && forall j :: k < j < |hits| ==> hits[j].id != id
  }

  /** The chunk is shown, and the store still holds it with the identity it was shown with. */
  ghost predicate IsUnchanged(id: string, shown: seq<Hit>, current: seq<Hit>) {
    exists i: nat, j: nat :: IsFirstWith(shown, id, i) && IsLastWith(current, id, j) && shown[i].identity == current[j].identity
  }

  lemma {:induction false} LookupIsFirst(hits: seq<Hit>, id: string)
    ensures Lookup(hits, id).Some? ==> IsFirstWith(hits, id, Position(hits, id)) && Lookup(hits, id).value == hits[Position(hits, id)]
    ensures forall k: nat :: IsFirstWith(hits, id, k) ==> Lookup(hits, id) == Some(hits[k])
  {
    hide Ids;
    if hits != [] && hits[0].id != id {
      LookupIsFirst(hits[1..], id);
      var p := Position(hits[1..], id);
      if Lookup(hits[1..], id).Some? {
        forall j | 0 <= j < p + 1 ensures hits[j].id != id { if j > 0 { assert hits[j] == hits[1..][j - 1]; } }
      }
      forall k: nat | IsFirstWith(hits, id, k) ensures Lookup(hits, id) == Some(hits[k]) {
        assert k > 0;
        forall j | 0 <= j < k - 1 ensures hits[1..][j].id != id { assert hits[1..][j] == hits[j + 1]; }
        assert IsFirstWith(hits[1..], id, k - 1);
      }
    }
  }

  lemma {:induction false} LookupLastIsLast(hits: seq<Hit>, id: string)
    ensures LookupLast(hits, id).Some? ==> exists k: nat :: IsLastWith(hits, id, k) && LookupLast(hits, id).value == hits[k]
    ensures forall k: nat :: IsLastWith(hits, id, k) ==> LookupLast(hits, id) == Some(hits[k])
  {
    if hits != [] {
      var n := |hits| - 1;
      if hits[n].id == id {
        assert IsLastWith(hits, id, n);
      } else {
        LookupLastIsLast(hits[..n], id);
        forall k: nat ensures IsLastWith(hits, id, k) <==> IsLastWith(hits[..n], id, k) { LastInFront(hits, id, k); }
        hide IsLastWith;
        assert forall k: nat :: k < n ==> hits[..n][k] == hits[k];
      }
    }
  }

  lemma LastInFront(hits: seq<Hit>, id: string, k: nat)
    requires hits != [] && hits[|hits| - 1].id != id
    ensures IsLastWith(hits, id, k) <==> IsLastWith(hits[..|hits| - 1], id, k)
    ensures IsLastWith(hits, id, k) ==> k < |hits| - 1
  {
  }

  lemma CurrentIffUnchanged(id: string, shown: seq<Hit>, current: seq<Hit>)
    ensures IsCurrent(id, shown, current) <==> IsUnchanged(id, shown, current)
  {
    hide Lookup;
    hide LookupLast;
    hide Position;
    LookupIsFirst(shown, id);
    LookupLastIsLast(current, id);
  }

  // ----- the evidence shown

  /** The reasoner is shown the context of the retrieved chunks, each excerpt made for the queries that found
      its chunk. */
  lemma EvidenceIsContext(a: Agent, st: State, e: Expansion) returns (placed: seq<nat>)
    ensures var c := a.context.(queries := st.focus);
            var ids := ToSet(Ids(st.retrieved));
            var required, optional := Required(e, ids), Optional(e, ids);
            && ShowExcerpts(c, required, optional, RecordsOf(a, st, e), |RequiredRecords(c, required)|)
            && IsPlacement(c, RecordsOf(a, st, e), RequiredRecords(c, required), optional, 0, placed)
  {
    hide ContextRecords;
    hide ShowExcerpts;
    hide IsPlacement;
    hide RequiredRecords;
    hide Optional;
    hide Required;
    var c := a.context.(queries := st.focus);
    var ids := ToSet(Ids(st.retrieved));
    assert forall id :: id in ids <==> id in IdSet(st.retrieved);
    RecordsShowExcerpts(c, e, ids);
    placed := ContextIsComplete(c, e, ids);
  }

  // ----- the result

  /** The reference names a shown chunk with that chunk's identity and channels and the excerpt of its record. */
  ghost predicate RefersTo(ref: Reference, shown: seq<Hit>, records: seq<Record>) {
    && (exists i: nat :: IsFirstWith(shown, ref.id, i) && ref.identity == shown[i].identity && ref.channels == shown[i].channels)
    && ref.record in records && ref.record.id == ref.id && ref.excerpt == ref.record.excerpt
  }

  lemma ReferenceRefers(id: string, shown: seq<Hit>, records: seq<Record>)
    requires id in Ids(shown) && id in RecordIds(records)
    ensures RefersTo(ReferenceTo(id, shown, records), shown, records) && ReferenceTo(id, shown, records).id == id
  {
    hide Position;
    LookupIsFirst(shown, id);
  }

  /** The claims of the draft: what the reasoner wrote, or nothing when it was shown nothing. */
  function ClaimsFor(w: World, records: seq<Record>): (claims: seq<Claim>) {
    if records == [] then [] else w.draft(ListJson(records))
  }

  /** The result repeats the draft's claims, the executed queries and the retrieved chunks, and refers to the
      shown chunks that are cited. */
  ghost predicate IsResultOf(w: World, p: Progress, shown: seq<Hit>, records: seq<Record>, r: RunResult) {
    && r.claims == ClaimsFor(w, records)
    && |r.queries| == |p.steps| && (forall n :: 0 <= n < |p.steps| ==> r.queries[n] == p.steps[n].query)
    && |r.retrievedIds| == |p.state.retrieved| && (forall n :: 0 <= n < |p.state.retrieved| ==> r.retrievedIds[n] == p.state.retrieved[n].id)
    && |r.contextIds| == |records| && (forall n :: 0 <= n < |records| ==> r.contextIds[n] == records[n].id)
    && (forall n :: 0 <= n < |r.refs| ==> RefersTo(r.refs[n], shown, records))
  }

  /** The ids cited by the draft, each once. */
  function CitedIds(claims: seq<Claim>): (ids: seq<string>) {
    Dedupe(Cited(claims, |claims|))
  }

  /** How a run ends after its retrieval: with the expansion's error; with the first fault of the draft; because
      a cited chunk changed; or else with its result. */
  lemma FinishMeaning(a: Agent, w: World, p: Progress)
    ensures var e := ExpansionOf(w, 0, p.state);
            e.Err? ==> Finish(a, w, p) == Err(e.error)
    ensures var e := ExpansionOf(w, 0, p.state);
            e.Ok? ==>
              var records := RecordsOf(a, p.state, e.value);
              var claims := ClaimsFor(w, records);
              var allowed := ToSet(RecordIds(records));
              var r := Finish(a, w, p);
              if exists k :: 0 <= k < |claims| && !GoodClaim(claims[k], allowed)
              then r.Err? && exists k :: 0 <= k < |claims| && (forall j :: 0 <= j < k ==> GoodClaim(claims[j], allowed))
                                         && !GoodClaim(claims[k], allowed) && IsFaultOf(claims[k], allowed, r.error)
              else if exists id :: id in CitedIds(claims) && !IsUnchanged(id, e.value.hits, w.current(CitedIds(claims)))
              then r == Err(EvidenceChanged)
              else r.Ok? && IsResultOf(w, p, e.value.hits, records, r.value)
  {
    hide ExpansionOf;
    hide RecordsOf;
    hide GoodClaim;
    hide IsFaultOf;
    hide IsUnchanged;
    hide IsCurrent;
    hide RefersTo;
    hide ReferenceTo;
    hide Dedupe;
    hide Cited;
    hide DraftFault;
    hide ListJson;
    var e := ExpansionOf(w, 0, p.state);
    if e.Ok? {
      var shown, records := e.value.hits, RecordsOf(a, p.state, e.value);
      var claims := ClaimsFor(w, records);
      var cited, current := CitedIds(claims), w.current(CitedIds(claims));
      DraftAcceptedIff(claims, 0, ToSet(RecordIds(records)));
      FirstFault(claims, 0, ToSet(RecordIds(records)));
      forall id ensures IsCurrent(id, shown, current) <==> IsUnchanged(id, shown, current) { CurrentIffUnchanged(id, shown, current); }
      assert AllCurrent(cited, shown, current) <==> !exists id :: id in cited && !IsUnchanged(id, shown, current);
      if Finish(a, w, p).Ok? {
        CitedAreReferable(claims, shown, records, current);
        forall n | 0 <= n < |cited| ensures RefersTo(References(cited, shown, records)[n], shown, records) {
          ReferenceRefers(cited[n], shown, records);
        }
      }
    }
  }
}
