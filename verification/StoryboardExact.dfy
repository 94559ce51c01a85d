/** Exactly when the storyboard grounded by src/soloscale/content_workspace.py keeps every marker: a second
    claim with the same first anchor overwrites the on-screen text that carried the first one's. */
module StoryboardExact {
  import opened Wrappers
  import opened Sorting
  import opened ClaimText
  import opened GroundedText
  import opened GroundedScenes
  import opened Grounding

  /** Claim texts and the call to action carry no marker of another claim. */
  predicate OwnTexts(b: Brief) {
    LinesAreOwn(b.claims) && forall c :: c in b.claims ==> !Occurs(MarkerOf(c), b.cta)
  }

  lemma SameMarkerSameId(c: Claim, d: Claim)
    requires IsClaimId(c.id) && IsClaimId(d.id) && MarkerOf(c) == MarkerOf(d)
    ensures c.id == d.id
  {
    var m := MarkerOf(c);
    assert m[|m| - ID_LENGTH..] == c.id;
    assert MarkerOf(d)[|m| - ID_LENGTH..] == d.id;
  }

  // ----- the added scenes

  /** The claims with this id, from the i-th on. */
  function WithId(claims: seq<Claim>, id: string, i: nat): (r: seq<Claim>)
    requires i <= |claims|
    ensures forall c :: c in r ==> c in claims && c.id == id
    decreases |claims| - i
  {
    if i == |claims| then []
    else (if claims[i].id == id then [claims[i]] else []) + WithId(claims, id, i + 1)
  }

  lemma {:induction false} WithIdHas(claims: seq<Claim>, i: nat, j: nat)
    requires i <= j < |claims|
    ensures claims[j] in WithId(claims, claims[j].id, i)
    decreases j - i
  {
    if i < j { WithIdHas(claims, i + 1, j); }
  }

  /** The scene added for the first of these claims, marked by the others. */
  function AddedScene(same: seq<Claim>): (s: Scene)
    requires same != []
  {
    MarkAll(EvidenceScene(same[0]), same[1..])
  }

  lemma AnchorOfNew(scenes: seq<Scene>, c: Claim, d: Claim)
    requires AnchorOf(scenes, c) == |scenes|
    ensures AnchorOf(scenes + [EvidenceScene(c)], d) == |scenes| <==> d.id == c.id
  {
    hide LineOf;
    var next := scenes + [EvidenceScene(c)];
    assert next[|scenes|].claimIds == [c.id];
    assert forall k :: 0 <= k < |scenes| ==> next[k] == scenes[k];
    if d.id == c.id {
      assert d.id in next[|scenes|].claimIds;
    }
  }

  lemma {:induction false} AnchoredAtNew(scenes: seq<Scene>, c: Claim, claims: seq<Claim>, i: nat)
    requires AnchorOf(scenes, c) == |scenes| && i <= |claims|
    ensures AnchoredAt(scenes + [EvidenceScene(c)], claims, |scenes|, i) == WithId(claims, c.id, i)
    decreases |claims| - i
  {
    hide FirstAnchor;
    if i < |claims| {
      AnchorOfNew(scenes, c, claims[i]);
      AnchoredAtNew(scenes, c, claims, i + 1);
    }
  }

  /** The scene added for the i-th claim is marked by the later claims with its id. */
  lemma NewScene(b: Brief, scenes: seq<Scene>, i: nat)
    requires i < |b.claims| && AnchorOf(scenes, b.claims[i]) == |scenes|
    ensures var r := AnchorScenes(b, scenes, i); var same := WithId(b.claims, b.claims[i].id, i);
            |scenes| < |r| && same != [] && r[|scenes|] == AddedScene(same)
  {
    hide FirstAnchor;
    hide MarkAll;
    var c := b.claims[i];
    SceneByScene(b, scenes + [EvidenceScene(c)], i + 1, |scenes|);
    AnchoredAtNew(scenes, c, b.claims, i + 1);
    var rest := WithId(b.claims, c.id, i + 1);
    assert ([c] + rest)[0] == c && ([c] + rest)[1..] == rest;
  }

  /** The scene was added for an id that no scene anchored. */
  ghost predicate IsAdded(b: Brief, scenes: seq<Scene>, i: nat, s: Scene)
    requires i <= |b.claims|
  {
    exists id :: FirstAnchor(scenes, id, 0) == |scenes| && WithId(b.claims, id, i) != [] && s == AddedScene(WithId(b.claims, id, i))
  }

  lemma AnchoredIsOther(scenes: seq<Scene>, c: Claim, id: string)
    requires FirstAnchor(AnchorClaim(scenes, c), id, 0) == |AnchorClaim(scenes, c)|
    ensures id != c.id && FirstAnchor(scenes, id, 0) == |scenes|
  {
    hide Occurs;
    hide SceneText;
    var next := AnchorClaim(scenes, c);
    AnchorClaimSame(scenes, c);
    FirstAnchorSame(scenes, next, id, 0);
    assert c.id in next[AnchorOf(scenes, c)].claimIds;
  }

  lemma AddedLater(b: Brief, scenes: seq<Scene>, i: nat, s: Scene)
    requires i < |b.claims| && IsAdded(b, AnchorClaim(scenes, b.claims[i]), i + 1, s)
    ensures IsAdded(b, scenes, i, s)
  {
    hide AddedScene;
    hide FirstAnchor;
    hide AnchorClaim;
    var c := b.claims[i];
    var next := AnchorClaim(scenes, c);
    var id :| FirstAnchor(next, id, 0) == |next| && WithId(b.claims, id, i + 1) != [] && s == AddedScene(WithId(b.claims, id, i + 1));
    AnchoredIsOther(scenes, c, id);
    assert WithId(b.claims, id, i) == WithId(b.claims, id, i + 1);
  }

  lemma {:induction false} AddedScenes(b: Brief, scenes: seq<Scene>, i: nat, n: nat)
    requires i <= |b.claims| && |scenes| <= n < |AnchorScenes(b, scenes, i)|
    ensures IsAdded(b, scenes, i, AnchorScenes(b, scenes, i)[n])
    decreases |b.claims| - i
  {
    hide AddedScene;
    hide FirstAnchor;
    hide MarkScene;
    hide WithId;
    if i < |b.claims| {
      if AnchorOf(scenes, b.claims[i]) == |scenes| && n == |scenes| {
        NewScene(b, scenes, i);
      } else {
        AddedScenes(b, AnchorClaim(scenes, b.claims[i]), i + 1, n);
        AddedLater(b, scenes, i, AnchorScenes(b, scenes, i)[n]);
      }
    }
  }

  ghost predicate HasScene(scenes: seq<Scene>, s: Scene, from: nat) {
    exists n :: from <= n < |scenes| && scenes[n] == s
  }

  /** Every id that no scene anchored gets its scene. */
  lemma {:induction false} UnanchoredHasScene(b: Brief, scenes: seq<Scene>, i: nat, id: string)
    requires i <= |b.claims| && WithId(b.claims, id, i) != [] && FirstAnchor(scenes, id, 0) == |scenes|
    ensures HasScene(AnchorScenes(b, scenes, i), AddedScene(WithId(b.claims, id, i)), |scenes|)
    decreases |b.claims| - i
  {
    hide MarkAll;
    hide AddedScene;
    hide FirstAnchor;
    hide MarkScene;
    if i < |b.claims| {
      var c := b.claims[i];
      if c.id == id {
        NewScene(b, scenes, i);
      } else {
        StillUnanchored(scenes, c, id);
        UnanchoredHasScene(b, AnchorClaim(scenes, c), i + 1, id);
        assert WithId(b.claims, id, i) == WithId(b.claims, id, i + 1);
      }
    }
  }

  lemma AddedSceneIsOwn(b: Brief, c: Claim, d: Claim)
    requires HasClaimIds(b) && OwnTexts(b) && c in b.claims && d in b.claims && InScene(c, EvidenceScene(d))
    ensures c.id == d.id
  {
    hide Occurs;
    hide IsClaimId;
    SceneHas(c, EvidenceScene(d));
    FixedWordsHaveNoMarker(c);
    if Occurs(MarkerOf(c), d.text) {
      OccursWithin(MarkerOf(c), MarkerOf(d) + " \U{2014} ", d.text, "");
      assert MarkerOf(d) + " \U{2014} " + d.text + "" == LineOf(d);
    }
    SameMarkerSameId(c, d);
  }

  lemma FixedWordsHaveNoMarker(c: Claim)
    requires IsClaimId(c.id)
    ensures !Occurs(MarkerOf(c), "Evidence anchor") && !Occurs(MarkerOf(c), "Evidence card")
    ensures !Occurs(MarkerOf(c), "CTA") && !Occurs(MarkerOf(c), "CTA card")
  {
    var m := MarkerOf(c);
    assert |m| >= 8 + 3 + 7;
  }

  /** A marker in the final storyboard is on some scene. */
  lemma MarkerIsOnScene(c: Claim, scenes: seq<Scene>)
    requires IsClaimId(c.id) && Occurs(MarkerOf(c), StoryboardText(scenes))
    ensures MarkedSomewhere(c, scenes)
  {
    hide Occurs;
    hide MarkerOf;
    hide IsClaimId;
    hide AllFields;
    hide InFixedText;
    var m, texts := MarkerOf(c), AllFields(scenes, |scenes|);
    MarkerEndsWithSomething(c);
    OccursInJoin(m, texts, "\n", |texts|);
    var n :| 0 <= n < |texts| && Occurs(m, texts[n]);
    var k, j := n / 4, n % 4;
    FieldsAt(scenes, |scenes|, k);
    assert texts[n] == FieldsOf(scenes[k])[j];
    FieldIsInScene(c, scenes[k], j);
  }

  lemma FieldIsInScene(c: Claim, s: Scene, j: nat)
    requires IsClaimId(c.id) && j < 4 && Occurs(MarkerOf(c), FieldsOf(s)[j])
    ensures InScene(c, s)
  {
    hide Occurs;
    hide MarkerOf;
    hide IsClaimId;
    SceneHas(c, s);
  }

  lemma CtaSceneHasNoMarker(b: Brief, c: Claim)
    requires HasClaimIds(b) && OwnTexts(b) && c in b.claims
    ensures !InScene(c, CtaScene(b))
  {
    hide Occurs;
    hide IsClaimId;
    SceneHas(c, CtaScene(b));
    FixedWordsHaveNoMarker(c);
  }

  // ----- what is right in every grounded storyboard

  lemma {:induction false} PartOccurs(texts: seq<string>, sep: string, i: nat, k: nat)
    requires k < i <= |texts|
    ensures Occurs(texts[k], JoinUpTo(texts, sep, i))
  {
    hide Occurs;
    var m := texts[k];
    if k < i - 1 {
      PartOccurs(texts, sep, i - 1, k);
      OccursWithin(m, "", JoinUpTo(texts, sep, i - 1), sep + texts[i - 1]);
      assert "" + JoinUpTo(texts, sep, i - 1) + (sep + texts[i - 1]) == JoinUpTo(texts, sep, i);
    } else {
      OccursInItself(m);
      if i > 1 {
        var before := JoinUpTo(texts, sep, i - 1) + sep;
        OccursWithin(m, before, m, "");
        assert before + m + "" == JoinUpTo(texts, sep, i);
      }
    }
  }

  /** The call to action, of whatever form, is in the grounded storyboard. */
  lemma StoryboardHasCta(b: Brief, scenes: seq<Scene>)
    ensures Occurs(b.cta, StoryboardText(GroundedStoryboard(b, scenes)))
  {
    hide Occurs;
    hide AnchorScenes;
    hide AllFields;
    hide JoinUpTo;
    var marked, final := AnchorScenes(b, scenes, 0), GroundedStoryboard(b, scenes);
    if !Occurs(b.cta, StoryboardText(marked)) {
      FieldsAt(final, |final|, |marked|);
      assert final[|marked|] == CtaScene(b) && FieldsOf(CtaScene(b))[2] == b.cta;
      PartOccurs(AllFields(final, |final|), "\n", 4 * |final|, 4 * |marked| + 2);
    }
  }

  ghost predicate AllMarkersIn(b: Brief, scenes: seq<Scene>) {
    forall c :: c in b.claims ==> MarkedSomewhere(c, scenes)
  }

  /** In a grounded storyboard only a lost marker can be wrong, whatever the brief's texts are. */
  lemma StoryboardValidIffMarked(b: Brief, scenes: seq<Scene>)
    requires HasClaimIds(b) && AllKnown(b, scenes) && |GroundedStoryboard(b, scenes)| <= MAX_SCENES
    ensures ValidStoryboard(b, Normalized(GroundedStoryboard(b, scenes))) <==> AllMarkersIn(b, GroundedStoryboard(b, scenes))
  {
    hide Occurs;
    hide MarkerOf;
    hide StoryboardText;
    hide IsClaimId;
    hide GroundedStoryboard;
    hide Distinct;
    hide Normalized;
    hide MarkedSomewhere;
    var final := GroundedStoryboard(b, scenes);
    StoryboardFrame(b, scenes);
    StoryboardHasCta(b, scenes);
    NormalizedText(final);
    forall c | c in b.claims ensures MarkedSomewhere(c, final) <==> Occurs(MarkerOf(c), StoryboardText(final)) {
      var k :| 0 <= k < |b.claims| && b.claims[k] == c;
      MarkedIffOccurs(c, final);
    }
    if ValidStoryboard(b, Normalized(final)) {
      forall c | c in b.claims ensures MarkedSomewhere(c, final) {
        var k :| 0 <= k < |b.claims| && b.claims[k] == c;
        assert Occurs(MarkerOf(b.claims[k]), StoryboardText(final));
      }
    }
  }

  lemma MarkedIffOccurs(c: Claim, scenes: seq<Scene>)
    requires IsClaimId(c.id)
    ensures MarkedSomewhere(c, scenes) <==> Occurs(MarkerOf(c), StoryboardText(scenes))
  {
    hide Occurs;
    hide MarkerOf;
    hide StoryboardText;
    hide IsClaimId;
    hide MarkedSomewhere;
    if MarkedSomewhere(c, scenes) { MarkedInStoryboard(c, scenes); }
    if Occurs(MarkerOf(c), StoryboardText(scenes)) { MarkerIsOnScene(c, scenes); }
  }

  /** The claim, if any, whose line the scene shows in the end when not all markers were there: the last
      one whose marker is not in a fixed text. */
  function LastMissing(s: Scene, claims: seq<Claim>): (r: Option<Claim>) {
    if claims == [] then None
    else if LastMissing(s, claims[1..]).Some? then LastMissing(s, claims[1..])
    else if InFixedText(claims[0], s) then None
    else Some(claims[0])
  }

  /** When a claim's marker is on a scene after the scene was marked by the claims it anchors first. */
  predicate KeptOn(c: Claim, s: Scene, claims: seq<Claim>) {
    InFixedText(c, s) ||
    if AllInScene(s, claims) then Occurs(MarkerOf(c), s.onScreen)
    else LastMissing(s, claims).Some? && MarkerOf(c) == MarkerOf(LastMissing(s, claims).value)
  }

  lemma {:induction false} LastMissingOf(s: Scene, r: Scene, claims: seq<Claim>)
    requires forall d :: d in claims ==> (InFixedText(d, r) <==> InFixedText(d, s))
    ensures LastMissing(r, claims) == LastMissing(s, claims)
    ensures LastMissing(s, claims).Some? <==> exists d :: d in claims && !InFixedText(d, s)
    ensures LastMissing(s, claims).Some? ==> LastMissing(s, claims).value in claims && !InFixedText(LastMissing(s, claims).value, s)
    decreases |claims|
  {
    hide InFixedText;
    if claims != [] {
      LastMissingOf(s, r, claims[1..]);
      assert claims == [claims[0]] + claims[1..];
    }
  }

  /** Marking a scene leaves exactly the markers in its fixed texts and, on the screen, the ones that were
      there when none was missing, or else the last missing one. */
  lemma {:induction false} MarkAllKeeps(s: Scene, claims: seq<Claim>, all: seq<Claim>, c: Claim)
    requires HaveIds(claims) && (forall d :: d in claims ==> d in all) && c in all && LinesAreOwn(all) && IsClaimId(c.id)
    ensures InScene(c, MarkAll(s, claims)) <==> KeptOn(c, s, claims)
    decreases |claims|
  {
    hide Occurs;
    hide MarkerOf;
    hide LineOf;
    hide IsClaimId;
    hide InScene;
    hide InFixedText;
    hide LastMissing;
    SceneHas(c, s);
    LastMissingOf(s, s, claims);
    if claims != [] {
      var d, rest, next := claims[0], claims[1..], MarkScene(s, claims[0]);
      assert claims == [d] + rest;
      MarkAllKeeps(next, rest, all, c);
      LastMissingOf(s, s, rest);
      if InScene(d, s) {
        LastMissingCons(s, claims);
        SceneHasAll(s, claims);
        assert AllInScene(s, claims) <==> AllInScene(s, rest);
        assert next == s by { PresentUnmarked(s, d); }
      } else {
        MarkedByOne(s, claims, all, c);
      }
    }
  }

  lemma PresentUnmarked(s: Scene, d: Claim)
    requires InScene(d, s)
    ensures MarkScene(s, d) == s
  {
    hide Occurs;
    hide SceneText;
  }

  lemma LastMissingCons(s: Scene, claims: seq<Claim>)
    requires claims != []
    ensures LastMissing(s, claims) ==
            if LastMissing(s, claims[1..]).Some? then LastMissing(s, claims[1..])
            else if InFixedText(claims[0], s) then None else Some(claims[0])
  {
    hide InFixedText;
  }

  lemma SceneHasAll(s: Scene, claims: seq<Claim>)
    requires HaveIds(claims)
    ensures forall d :: d in claims && InFixedText(d, s) ==> InScene(d, s)
  {
    hide InScene;
    hide InFixedText;
    hide IsClaimId;
    forall d | d in claims && InFixedText(d, s) ensures InScene(d, s) { SceneHas(d, s); }
  }

  /** The first claim's line replaced the on-screen text: what counts then is the rest's last missing
      marker, or the first claim's own. */
  lemma MarkedByOne(s: Scene, claims: seq<Claim>, all: seq<Claim>, c: Claim)
    requires claims != [] && !InScene(claims[0], s) && HaveIds(claims) && IsClaimId(c.id)
    requires (forall d :: d in claims ==> d in all) && c in all && LinesAreOwn(all)
    ensures KeptOn(c, MarkScene(s, claims[0]), claims[1..]) <==> KeptOn(c, s, claims)
  {
    hide Occurs;
    hide MarkerOf;
    hide LineOf;
    hide IsClaimId;
    hide InFixedText;
    hide LastMissing;
    hide SceneText;
    var d, rest, next := claims[0], claims[1..], MarkScene(s, claims[0]);
    assert claims == [d] + rest;
    SceneHas(d, s);
    MarkSceneHas(s, d);
    LineHasMarker(d);
    LastMissingOf(s, next, rest);
    LastMissingCons(s, claims);
    assert !AllInScene(s, claims);
    assert next.onScreen == LineOf(d);
    if AllInScene(next, rest) && LastMissing(s, rest).Some? {
      var e := LastMissing(s, rest).value;
      assert InScene(e, next);
      SceneHas(e, next);
      assert MarkerOf(e) == MarkerOf(d);
    }
    if !AllInScene(next, rest) {
      SceneHasAll(next, rest);
    }
  }

  /** Some scene of the model keeps the claim's marker. */
  ghost predicate KeptSomewhere(b: Brief, scenes: seq<Scene>, c: Claim) {
    exists k :: 0 <= k < |scenes| && KeptOn(c, scenes[k], AnchoredAt(scenes, b.claims, k, 0))
  }

  /** The scene added for the claim's id keeps the claim's marker. */
  predicate KeptInAdded(b: Brief, c: Claim) {
    var same := WithId(b.claims, c.id, 0);
    same != [] && KeptOn(c, EvidenceScene(same[0]), same[1..])
  }

  /** Every claim keeps its marker on some scene of the model, or on its added scene when the model
      anchored it nowhere. */
  ghost predicate AllKept(b: Brief, scenes: seq<Scene>) {
    forall c :: c in b.claims ==> KeptSomewhere(b, scenes, c) || (AnchorOf(scenes, c) == |scenes| && KeptInAdded(b, c))
  }

  lemma KeptOnOwnOnly(b: Brief, c: Claim, d: Claim, rest: seq<Claim>)
    requires HasClaimIds(b) && OwnTexts(b) && c in b.claims && d in b.claims
    requires forall e :: e in rest ==> e in b.claims && e.id == d.id
    requires KeptOn(c, EvidenceScene(d), rest)
    ensures c.id == d.id
  {
    hide Occurs;
    hide IsClaimId;
    hide OwnTexts;
    hide MarkerOf;
    hide LineOf;
    hide LastMissing;
    hide InFixedText;
    var s := EvidenceScene(d);
    SceneHas(c, s);
    if InScene(c, s) {
      AddedSceneIsOwn(b, c, d);
    } else {
      LastMissingOf(s, s, rest);
      SameMarkerSameId(c, LastMissing(s, rest).value);
    }
  }

  /** The scene added for an id keeps markers of that id's claims only. */
  lemma AddedKeepsIff(b: Brief, id: string, c: Claim)
    requires HasClaimIds(b) && OwnTexts(b) && c in b.claims && WithId(b.claims, id, 0) != []
    ensures InScene(c, AddedScene(WithId(b.claims, id, 0))) <==> c.id == id && KeptInAdded(b, c)
  {
    hide Occurs;
    hide IsClaimId;
    hide InScene;
    hide KeptOn;
    hide MarkAll;
    hide WithId;
    hide MarkerOf;
    hide LineOf;
    hide EvidenceScene;
    var same := WithId(b.claims, id, 0);
    var d, rest := same[0], same[1..];
    assert d in same && forall e :: e in rest ==> e in same;
    MarkAllKeeps(EvidenceScene(d), rest, b.claims, c);
    if KeptOn(c, EvidenceScene(d), rest) { KeptOnOwnOnly(b, c, d, rest); }
  }

  /** Claims with one id and one status never lose their marker on the added scene. */
  lemma OneStatusIsKept(b: Brief, c: Claim)
    requires HasClaimIds(b) && OneStatusPerId(b) && c in b.claims
    ensures KeptInAdded(b, c)
  {
    hide Occurs;
    hide IsClaimId;
    hide LineOf;
    var j :| 0 <= j < |b.claims| && b.claims[j] == c;
    WithIdHas(b.claims, 0, j);
    var same := WithId(b.claims, c.id, 0);
    var d := same[0];
    assert d in same;
    assert MarkerOf(c) == MarkerOf(d);
    LineHasMarker(d);
    forall e | e in same[1..] ensures InScene(e, EvidenceScene(d)) {
      assert e in same && MarkerOf(e) == MarkerOf(d);
      SceneHas(e, EvidenceScene(d));
    }
  }

  lemma KeptIffInScene(b: Brief, scenes: seq<Scene>, k: nat, c: Claim)
    requires HasClaimIds(b) && OwnTexts(b) && k < |scenes| && c in b.claims
    ensures SameAnchors(scenes, AnchorScenes(b, scenes, 0))
    ensures InScene(c, AnchorScenes(b, scenes, 0)[k]) <==> KeptOn(c, scenes[k], AnchoredAt(scenes, b.claims, k, 0))
  {
    hide Occurs;
    hide MarkerOf;
    hide LineOf;
    hide IsClaimId;
    hide InScene;
    hide KeptOn;
    hide MarkAll;
    hide AnchoredAt;
    hide AnchorScenes;
    var claims := AnchoredAt(scenes, b.claims, k, 0);
    SceneByScene(b, scenes, 0, k);
    AnchoredHaveIds(b, scenes, k, 0);
    MarkAllKeeps(scenes[k], claims, b.claims, c);
  }

  /** In the grounded storyboard, a claim's marker is on a scene of the model that kept it, on the scene
      added for the claim, or nowhere. */
  lemma MarkedIffKept(b: Brief, scenes: seq<Scene>, c: Claim)
    requires HasClaimIds(b) && OwnTexts(b) && c in b.claims
    ensures MarkedSomewhere(c, GroundedStoryboard(b, scenes))
            <==> KeptSomewhere(b, scenes, c) || (AnchorOf(scenes, c) == |scenes| && KeptInAdded(b, c))
  {
    hide InScene;
    hide AnchorScenes;
    hide IsClaimId;
    hide OwnTexts;
    hide StoryboardText;
    hide Occurs;
    hide KeptOn;
    hide AnchoredAt;
    hide AddedScene;
    hide WithId;
    hide FirstAnchor;
    hide KeptInAdded;
    var marked, final := AnchorScenes(b, scenes, 0), GroundedStoryboard(b, scenes);
    GrowsOnly(b, scenes, 0);
    if MarkedSomewhere(c, final) {
      CtaSceneHasNoMarker(b, c);
      var k :| 0 <= k < |final| && InScene(c, final[k]);
      assert InScene(c, marked[k]);
      if k < |scenes| {
        KeptIffInScene(b, scenes, k, c);
      } else {
        AddedScenes(b, scenes, 0, k);
        var id :| FirstAnchor(scenes, id, 0) == |scenes| && WithId(b.claims, id, 0) != [] && marked[k] == AddedScene(WithId(b.claims, id, 0));
        AddedKeepsIff(b, id, c);
      }
    }
    if KeptSomewhere(b, scenes, c) {
      var k :| 0 <= k < |scenes| && KeptOn(c, scenes[k], AnchoredAt(scenes, b.claims, k, 0));
      KeptIffInScene(b, scenes, k, c);
      assert InScene(c, final[k]);
    }
    if AnchorOf(scenes, c) == |scenes| && KeptInAdded(b, c) {
      var j :| 0 <= j < |b.claims| && b.claims[j] == c;
      WithIdHas(b.claims, 0, j);
      UnanchoredHasScene(b, scenes, 0, c.id);
      var n :| |scenes| <= n < |marked| && marked[n] == AddedScene(WithId(b.claims, c.id, 0));
      AddedKeepsIff(b, c.id, c);
      assert InScene(c, final[n]);
    }
  }

  /** The grounded storyboard is valid if and only if every claim keeps its marker on some scene: in a text
      that grounding leaves alone, on a screen that lacked no marker, or as the last one missing from its
      scene. */
  lemma StoryboardValidIff(b: Brief, scenes: seq<Scene>)
    requires HasClaimIds(b) && OwnTexts(b)
    requires AllKnown(b, scenes) && |GroundedStoryboard(b, scenes)| <= MAX_SCENES
    ensures ValidStoryboard(b, Normalized(GroundedStoryboard(b, scenes))) <==> AllKept(b, scenes)
  {
    hide MarkedSomewhere;
    hide KeptSomewhere;
    hide KeptInAdded;
    hide AnchorScenes;
    hide IsClaimId;
    hide OwnTexts;
    hide ValidStoryboard;
    hide WithCtaScene;
    hide FirstAnchor;
    StoryboardValidIffMarked(b, scenes);
    forall c | c in b.claims
      ensures MarkedSomewhere(c, GroundedStoryboard(b, scenes))
              <==> KeptSomewhere(b, scenes, c) || (AnchorOf(scenes, c) == |scenes| && KeptInAdded(b, c))
    {
      MarkedIffKept(b, scenes, c);
    }
  }

  /** The condition for any brief: what the scenes keep, or, when the brief's texts carry markers of other
      claims, that every marker is on some grounded scene. */
  ghost predicate StoryboardCanBeGrounded(b: Brief, scenes: seq<Scene>) {
    if OwnTexts(b) then AllKept(b, scenes) else AllMarkersIn(b, GroundedStoryboard(b, scenes))
  }

  lemma AnyStoryboardValidIff(b: Brief, scenes: seq<Scene>)
    requires HasClaimIds(b) && AllKnown(b, scenes) && |GroundedStoryboard(b, scenes)| <= MAX_SCENES
    ensures ValidStoryboard(b, Normalized(GroundedStoryboard(b, scenes))) <==> StoryboardCanBeGrounded(b, scenes)
  {
    hide OwnTexts;
    hide AllKept;
    hide AllMarkersIn;
    hide ValidStoryboard;
    hide GroundedStoryboard;
    hide Normalized;
    StoryboardValidIffMarked(b, scenes);
    if OwnTexts(b) { StoryboardValidIff(b, scenes); }
  }
}
