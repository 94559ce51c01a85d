/** `_ground_ollama_drafts` of src/soloscale/content_workspace.py, the storyboard: each claim's marker is
    put on the first scene that anchors the claim, or on a scene of its own. */
module GroundedScenes {
  import opened PyText
  import opened ClaimText
  import opened GroundedText

  datatype Scene = Scene(id: string, start: nat, end: nat, purpose: string, visual: string, voiceover: string,
                         onScreen: string, claimIds: seq<string>)

  function FieldsOf(s: Scene): (texts: seq<string>) {
    [s.purpose, s.visual, s.voiceover, s.onScreen]
  }

  function SceneText(s: Scene): (text: string) {
    Join(FieldsOf(s), "\n")
  }

  /** The texts of the first i scenes. */
  function AllFields(scenes: seq<Scene>, i: nat): (texts: seq<string>)
    requires i <= |scenes|
    ensures |texts| == 4 * i
  {
    if i == 0 then [] else AllFields(scenes, i - 1) + FieldsOf(scenes[i - 1])
  }

  function StoryboardText(scenes: seq<Scene>): (text: string) {
    Join(AllFields(scenes, |scenes|), "\n")
  }

  // ----- anchoring the claims

  /** The first scene from the i-th on that anchors the claim. */
  function FirstAnchor(scenes: seq<Scene>, id: string, i: nat): (k: nat)
    requires i <= |scenes|
    ensures i <= k <= |scenes|
    ensures k < |scenes| ==> id in scenes[k].claimIds
    ensures forall j :: i <= j < k ==> id !in scenes[j].claimIds
    decreases |scenes| - i
  {
    if i == |scenes| || id in scenes[i].claimIds then i else FirstAnchor(scenes, id, i + 1)
  }

  function AnchorOf(scenes: seq<Scene>, c: Claim): (k: nat) {
    FirstAnchor(scenes, c.id, 0)
  }

  function EvidenceScene(c: Claim): (s: Scene) {
    Scene("", 0, 1, "Evidence anchor", "Evidence card", c.text, LineOf(c), [c.id])
  }

  function CtaScene(b: Brief): (s: Scene) {
    Scene("", 0, 1, "CTA", "CTA card", b.cta, b.cta, [])
  }

  /** The scene once the claim's line replaced its on-screen text, if it lacked the marker. */
  function MarkScene(s: Scene, c: Claim): (r: Scene) {
    if Occurs(MarkerOf(c), SceneText(s)) then s else s.(onScreen := LineOf(c))
  }

  function AnchorClaim(scenes: seq<Scene>, c: Claim): (r: seq<Scene>) {
    var k := AnchorOf(scenes, c);
    if k == |scenes| then scenes + [EvidenceScene(c)] else scenes[k := MarkScene(scenes[k], c)]
  }

  function AnchorScenes(b: Brief, scenes: seq<Scene>, i: nat): (r: seq<Scene>)
    requires i <= |b.claims|
    decreases |b.claims| - i
  {
    if i == |b.claims| then scenes else AnchorScenes(b, AnchorClaim(scenes, b.claims[i]), i + 1)
  }

  function WithCtaScene(b: Brief, scenes: seq<Scene>): (r: seq<Scene>) {
    if Occurs(b.cta, StoryboardText(scenes)) then scenes else scenes + [CtaScene(b)]
  }

  function TwoDigits(n: nat): (s: string) {
    if n < 10 then "0" + Decimal(n) else Decimal(n)
  }

  /** Scenes renumbered, six seconds each. */
  function Normalized(scenes: seq<Scene>): (r: seq<Scene>) {
    seq(|scenes|, k requires 0 <= k < |scenes| =>
      scenes[k].(id := "SCENE-" + TwoDigits(k + 1), start := k * 6, end := (k + 1) * 6))
  }

  function GroundedStoryboard(b: Brief, scenes: seq<Scene>): (r: seq<Scene>) {
    WithCtaScene(b, AnchorScenes(b, scenes, 0))
  }

  method GroundStoryboard(b: Brief, start: seq<Scene>) returns (scenes: seq<Scene>)
    ensures scenes == GroundedStoryboard(b, start)
  {
    hide Occurs;
    hide SceneText;
    hide StoryboardText;
    scenes := start;
    for i := 0 to |b.claims|
      invariant AnchorScenes(b, start, 0) == AnchorScenes(b, scenes, i)
    {
      var c := b.claims[i];
      var k := 0;
      while k < |scenes| && c.id !in scenes[k].claimIds
        invariant k <= |scenes| && AnchorOf(scenes, c) == FirstAnchor(scenes, c.id, k)
      {
        k := k + 1;
      }
      if k == |scenes| {
        scenes := scenes + [EvidenceScene(c)];
      } else if !Occurs(MarkerOf(c), SceneText(scenes[k])) {
        scenes := scenes[k := scenes[k].(onScreen := LineOf(c))];
      } else {
        assert scenes[k := scenes[k]] == scenes;
      }
    }
    if !Occurs(b.cta, StoryboardText(scenes)) {
      scenes := scenes + [CtaScene(b)];
    }
  }

  // ----- what one scene ends up with

  /** The scene after these claims, all anchored to it, were marked in order. */
  function MarkAll(s: Scene, claims: seq<Claim>): (r: Scene)
    decreases |claims|
  {
    if claims == [] then s else MarkAll(MarkScene(s, claims[0]), claims[1..])
  }

  predicate InScene(c: Claim, s: Scene) {
    Occurs(MarkerOf(c), SceneText(s))
  }

  /** The marker stands in a text of the scene that grounding never changes. */
  predicate InFixedText(c: Claim, s: Scene) {
    Occurs(MarkerOf(c), s.purpose) || Occurs(MarkerOf(c), s.visual) || Occurs(MarkerOf(c), s.voiceover)
  }

  lemma SceneHas(c: Claim, s: Scene)
    requires IsClaimId(c.id)
    ensures InScene(c, s) <==> InFixedText(c, s) || Occurs(MarkerOf(c), s.onScreen)
  {
    hide Occurs;
    hide MarkerOf;
    hide IsClaimId;
    var m := MarkerOf(c);
    MarkerEndsWithSomething(c);
    var texts := FieldsOf(s);
    OccursInJoin(m, texts, "\n", 4);
    if InFixedText(c, s) || Occurs(m, s.onScreen) {
      assert Occurs(m, texts[0]) || Occurs(m, texts[1]) || Occurs(m, texts[2]) || Occurs(m, texts[3]);
    }
  }

  predicate HaveIds(claims: seq<Claim>) {
    forall c :: c in claims ==> IsClaimId(c.id)
  }

  /** Lines carry no marker but their own claim's. */
  predicate LinesAreOwn(claims: seq<Claim>) {
    forall c, d :: c in claims && d in claims && Occurs(MarkerOf(c), LineOf(d)) ==> MarkerOf(c) == MarkerOf(d)
  }

  /** At most one of the claims' markers is missing from the scene's fixed texts. */
  predicate OneMissing(s: Scene, claims: seq<Claim>) {
    forall c, d :: c in claims && d in claims && !InFixedText(c, s) && !InFixedText(d, s) ==> MarkerOf(c) == MarkerOf(d)
  }

  predicate AllInScene(s: Scene, claims: seq<Claim>) {
    forall c :: c in claims ==> InScene(c, s)
  }

  /** The condition on a scene and the claims it is the first to anchor: every marker is there already,
      or the on-screen text has to carry one marker only. */
  predicate Settled(s: Scene, claims: seq<Claim>) {
    AllInScene(s, claims) || OneMissing(s, claims)
  }

  lemma MarkSceneHas(s: Scene, c: Claim)
    requires IsClaimId(c.id)
    ensures InScene(c, MarkScene(s, c))
    ensures forall d :: InFixedText(d, MarkScene(s, c)) <==> InFixedText(d, s)
  {
    hide Occurs;
    hide MarkerOf;
    hide LineOf;
    hide IsClaimId;
    hide SceneText;
    SceneHas(c, MarkScene(s, c));
    LineHasMarker(c);
  }

  /** A marker that is there stays, unless another claim's marker has to take its place. */
  lemma {:induction false} PresentStays(s: Scene, claims: seq<Claim>, d: Claim)
    requires HaveIds(claims) && IsClaimId(d.id) && InScene(d, s)
    requires InFixedText(d, s) || forall c :: c in claims ==> InFixedText(c, s) || MarkerOf(c) == MarkerOf(d)
    ensures InScene(d, MarkAll(s, claims))
    decreases |claims|
  {
    hide Occurs;
    hide MarkerOf;
    hide LineOf;
    hide IsClaimId;
    hide InFixedText;
    if claims != [] {
      var c := claims[0];
      var next := MarkScene(s, c);
      SceneHas(c, s);
      SceneHas(d, s);
      MarkSceneHas(s, c);
      SceneHas(d, next);
      PresentStays(next, claims[1..], d);
    }
  }

  lemma {:induction false} OneMissingSuffices(s: Scene, claims: seq<Claim>)
    requires HaveIds(claims) && OneMissing(s, claims)
    ensures AllInScene(MarkAll(s, claims), claims)
    decreases |claims|
  {
    hide Occurs;
    hide MarkerOf;
    hide IsClaimId;
    hide InFixedText;
    hide InScene;
    hide MarkScene;
    if claims != [] {
      var c := claims[0];
      var next := MarkScene(s, c);
      MarkSceneHas(s, c);
      PresentStays(next, claims[1..], c);
      OneMissingSuffices(next, claims[1..]);
    }
  }

  lemma {:induction false} AllPresentUnchanged(s: Scene, claims: seq<Claim>)
    requires AllInScene(s, claims)
    ensures MarkAll(s, claims) == s
    decreases |claims|
  {
    hide SceneText;
    if claims != [] {
      assert InScene(claims[0], s);
      AllPresentUnchanged(s, claims[1..]);
    }
  }

  /** Marking changes nothing but the on-screen text, which ends as it was or as one claim's line. */
  lemma {:induction false} MarkAllForm(s: Scene, claims: seq<Claim>)
    ensures MarkAll(s, claims) == s || exists c :: c in claims && MarkAll(s, claims) == s.(onScreen := LineOf(c))
    decreases |claims|
  {
    hide Occurs;
    hide LineOf;
    if claims != [] {
      MarkAllForm(MarkScene(s, claims[0]), claims[1..]);
    }
  }

  /** Every claim anchored to the scene has its marker there in the end exactly when the scene is settled. */
  lemma SettledIff(s: Scene, claims: seq<Claim>)
    requires HaveIds(claims) && LinesAreOwn(claims)
    ensures AllInScene(MarkAll(s, claims), claims) <==> Settled(s, claims)
  {
    hide Occurs;
    hide MarkerOf;
    hide LineOf;
    hide IsClaimId;
    hide MarkAll;
    hide InScene;
    hide InFixedText;
    var r := MarkAll(s, claims);
    if Settled(s, claims) {
      SettledSuffices(s, claims);
    } else if AllInScene(r, claims) {
      MarkAllForm(s, claims);
      var e :| e in claims && r == s.(onScreen := LineOf(e));
      forall c, d | c in claims && d in claims && !InFixedText(c, s) && !InFixedText(d, s) ensures MarkerOf(c) == MarkerOf(d) {
        OnScreenOnly(c, s, r, e);
        OnScreenOnly(d, s, r, e);
      }
    }
  }

  lemma OnScreenOnly(c: Claim, s: Scene, r: Scene, e: Claim)
    requires IsClaimId(c.id) && InScene(c, r) && !InFixedText(c, s) && r == s.(onScreen := LineOf(e))
    ensures Occurs(MarkerOf(c), LineOf(e))
  {
    hide Occurs;
    SceneHas(c, r);
  }

  lemma SettledSuffices(s: Scene, claims: seq<Claim>)
    requires HaveIds(claims) && Settled(s, claims)
    ensures AllInScene(MarkAll(s, claims), claims)
  {
    hide InScene;
    hide MarkAll;
    if AllInScene(s, claims) { AllPresentUnchanged(s, claims); } else { OneMissingSuffices(s, claims); }
  }

  // ----- what the storyboard ends up with

  /** The claims, from the i-th on, whose first anchor is scene k. */
  function AnchoredAt(scenes: seq<Scene>, claims: seq<Claim>, k: nat, i: nat): (r: seq<Claim>)
    requires i <= |claims|
    decreases |claims| - i
  {
    if i == |claims| then []
    else (if AnchorOf(scenes, claims[i]) == k then [claims[i]] else []) + AnchoredAt(scenes, claims, k, i + 1)
  }

  /** The same scenes with the same claims, and possibly more after them. */
  ghost predicate SameAnchors(scenes: seq<Scene>, more: seq<Scene>) {
    |scenes| <= |more| && forall k :: 0 <= k < |scenes| ==> more[k].claimIds == scenes[k].claimIds
  }

  lemma {:induction false} FirstAnchorSame(scenes: seq<Scene>, more: seq<Scene>, id: string, i: nat)
    requires SameAnchors(scenes, more) && i <= |scenes|
    ensures var k := FirstAnchor(scenes, id, i); var m := FirstAnchor(more, id, i);
            (k < |scenes| ==> m == k) && (k == |scenes| ==> m >= k)
    decreases |scenes| - i
  {
    if i < |scenes| && id !in scenes[i].claimIds {
      FirstAnchorSame(scenes, more, id, i + 1);
    }
  }

  lemma AnchorClaimSame(scenes: seq<Scene>, c: Claim)
    ensures SameAnchors(scenes, AnchorClaim(scenes, c))
  {
    hide SceneText;
    hide Occurs;
  }

  lemma {:induction false} AnchoredAtSame(scenes: seq<Scene>, more: seq<Scene>, claims: seq<Claim>, k: nat, i: nat)
    requires i <= |claims| && SameAnchors(scenes, more) && k < |scenes|
    ensures AnchoredAt(more, claims, k, i) == AnchoredAt(scenes, claims, k, i)
    decreases |claims| - i
  {
    if i < |claims| {
      FirstAnchorSame(scenes, more, claims[i].id, 0);
      AnchoredAtSame(scenes, more, claims, k, i + 1);
    }
  }

  /** Each scene is marked by exactly the claims it is the first to anchor, in their order. */
  lemma {:induction false} SceneByScene(b: Brief, scenes: seq<Scene>, i: nat, k: nat)
    requires i <= |b.claims| && k < |scenes|
    ensures var r := AnchorScenes(b, scenes, i);
            |scenes| <= |r| && SameAnchors(scenes, r) && r[k] == MarkAll(scenes[k], AnchoredAt(scenes, b.claims, k, i))
    decreases |b.claims| - i
  {
    hide MarkScene;
    hide FirstAnchor;
    if i < |b.claims| {
      var c := b.claims[i];
      var next := AnchorClaim(scenes, c);
      AnchorClaimSame(scenes, c);
      AnchoredAtSame(scenes, next, b.claims, k, i + 1);
      SceneByScene(b, next, i + 1, k);
      var rest := AnchoredAt(scenes, b.claims, k, i + 1);
      assert ([c] + rest)[1..] == rest;
      assert [] + rest == rest;
    }
  }

  /** Claims with the same id have the same marker. */
  predicate OneStatusPerId(b: Brief) {
    forall c, d :: c in b.claims && d in b.claims && c.id == d.id ==> c.status == d.status
  }

  lemma {:induction false} AnchoredAtMembers(scenes: seq<Scene>, claims: seq<Claim>, k: nat, i: nat)
    requires i <= |claims|
    ensures forall c :: c in AnchoredAt(scenes, claims, k, i) ==> c in claims[i..] && AnchorOf(scenes, c) == k
    ensures forall j :: i <= j < |claims| && AnchorOf(scenes, claims[j]) == k ==> claims[j] in AnchoredAt(scenes, claims, k, i)
    decreases |claims| - i
  {
    hide FirstAnchor;
    if i < |claims| {
      AnchoredAtMembers(scenes, claims, k, i + 1);
      assert claims[i..] == [claims[i]] + claims[i + 1..];
    }
  }

  ghost predicate MarkedSomewhere(c: Claim, scenes: seq<Scene>) {
    exists k :: 0 <= k < |scenes| && InScene(c, scenes[k])
  }

  /** Every scene of the model is settled for the claims it is the first to anchor. */
  predicate AllSettled(b: Brief, scenes: seq<Scene>) {
    forall k :: 0 <= k < |scenes| ==> Settled(scenes[k], AnchoredAt(scenes, b.claims, k, 0))
  }

  lemma AnchoredHaveIds(b: Brief, scenes: seq<Scene>, k: nat, i: nat)
    requires HasClaimIds(b) && i <= |b.claims|
    ensures HaveIds(AnchoredAt(scenes, b.claims, k, i))
    ensures forall c :: c in AnchoredAt(scenes, b.claims, k, i) ==> c in b.claims && AnchorOf(scenes, c) == k
  {
    hide IsClaimId;
    hide AnchoredAt;
    AnchoredAtMembers(scenes, b.claims, k, i);
  }

  /** Every claim that some scene anchors has its marker in its own first anchor in the end, exactly
      when all scenes are settled. */
  lemma OwnScenesMarkedIff(b: Brief, scenes: seq<Scene>)
    requires HasClaimIds(b) && LinesAreOwn(b.claims)
    ensures var r := AnchorScenes(b, scenes, 0);
            && |scenes| <= |r|
            && ((forall c :: c in b.claims && AnchorOf(scenes, c) < |scenes| ==> InScene(c, r[AnchorOf(scenes, c)]))
                <==> AllSettled(b, scenes))
  {
    hide Occurs;
    hide MarkerOf;
    hide LineOf;
    hide IsClaimId;
    hide Settled;
    hide InScene;
    hide AnchorScenes;
    hide AnchoredAt;
    hide FirstAnchor;
    hide MarkAll;
    var r := AnchorScenes(b, scenes, 0);
    GrowsOnly(b, scenes, 0);
    forall k | 0 <= k < |scenes| ensures AllInScene(r[k], AnchoredAt(scenes, b.claims, k, 0)) <==> Settled(scenes[k], AnchoredAt(scenes, b.claims, k, 0)) {
      SceneByScene(b, scenes, 0, k);
      AnchoredHaveIds(b, scenes, k, 0);
      SettledIff(scenes[k], AnchoredAt(scenes, b.claims, k, 0));
    }
    if AllSettled(b, scenes) {
      forall c | c in b.claims && AnchorOf(scenes, c) < |scenes| ensures InScene(c, r[AnchorOf(scenes, c)]) {
        var k := AnchorOf(scenes, c);
        var j :| 0 <= j < |b.claims| && b.claims[j] == c;
        AnchoredAtMembers(scenes, b.claims, k, 0);
        assert Settled(scenes[k], AnchoredAt(scenes, b.claims, k, 0));
      }
    }
    if forall c :: c in b.claims && AnchorOf(scenes, c) < |scenes| ==> InScene(c, r[AnchorOf(scenes, c)]) {
      forall k | 0 <= k < |scenes| ensures Settled(scenes[k], AnchoredAt(scenes, b.claims, k, 0)) {
        AnchoredHaveIds(b, scenes, k, 0);
        assert AllInScene(r[k], AnchoredAt(scenes, b.claims, k, 0));
      }
    }
  }

  lemma {:induction false} GrowsOnly(b: Brief, scenes: seq<Scene>, i: nat)
    requires i <= |b.claims|
    ensures SameAnchors(scenes, AnchorScenes(b, scenes, i))
    decreases |b.claims| - i
  {
    hide AnchorClaim;
    if i < |b.claims| {
      AnchorClaimSame(scenes, b.claims[i]);
      GrowsOnly(b, AnchorClaim(scenes, b.claims[i]), i + 1);
    }
  }

  lemma AnchoredIsMarked(b: Brief, scenes: seq<Scene>, c: Claim)
    requires HasClaimIds(b) && c in b.claims && AnchorOf(scenes, c) < |scenes| && AllSettled(b, scenes)
    ensures MarkedSomewhere(c, AnchorScenes(b, scenes, 0))
  {
    hide Settled;
    hide InScene;
    hide AnchorScenes;
    hide AnchoredAt;
    hide FirstAnchor;
    hide MarkAll;
    var k := AnchorOf(scenes, c);
    var claims := AnchoredAt(scenes, b.claims, k, 0);
    SceneByScene(b, scenes, 0, k);
    AnchoredHaveIds(b, scenes, k, 0);
    AnchoredAtMembers(scenes, b.claims, k, 0);
    var j :| 0 <= j < |b.claims| && b.claims[j] == c;
    assert Settled(scenes[k], claims);
    SettledSuffices(scenes[k], claims);
  }

  /** The scene added for a claim keeps the claim's marker: later claims anchored to it have its id. */
  lemma AddedSceneKeepsMarker(b: Brief, scenes: seq<Scene>, c: Claim, i: nat)
    requires HasClaimIds(b) && OneStatusPerId(b) && c in b.claims && i <= |b.claims|
    ensures var next := scenes + [EvidenceScene(c)]; MarkedSomewhere(c, AnchorScenes(b, next, i))
  {
    hide Occurs;
    hide LineOf;
    hide IsClaimId;
    hide AnchorScenes;
    hide MarkAll;
    hide AnchoredAt;
    var next := scenes + [EvidenceScene(c)];
    var k := |scenes|;
    SceneByScene(b, next, i, k);
    AnchoredHaveIds(b, next, k, i);
    LineHasMarker(c);
    SceneHas(c, EvidenceScene(c));
    PresentStays(EvidenceScene(c), AnchoredAt(next, b.claims, k, i), c);
  }

  lemma {:induction false} UnanchoredIsMarked(b: Brief, scenes: seq<Scene>, i: nat, j: nat)
    requires HasClaimIds(b) && OneStatusPerId(b) && i <= j < |b.claims| && AnchorOf(scenes, b.claims[j]) == |scenes|
    ensures MarkedSomewhere(b.claims[j], AnchorScenes(b, scenes, i))
    decreases j - i
  {
    hide InScene;
    hide MarkScene;
    hide IsClaimId;
    var c, d := b.claims[i], b.claims[j];
    if c.id == d.id {
      AddedSceneKeepsMarker(b, scenes, c, i + 1);
      SameMarker(c, d, AnchorScenes(b, scenes, i));
    } else {
      StillUnanchored(scenes, c, d.id);
      UnanchoredIsMarked(b, AnchorClaim(scenes, c), i + 1, j);
    }
  }

  lemma SameMarker(c: Claim, d: Claim, scenes: seq<Scene>)
    requires c.id == d.id && c.status == d.status && MarkedSomewhere(c, scenes)
    ensures MarkedSomewhere(d, scenes)
  {
    var k :| 0 <= k < |scenes| && InScene(c, scenes[k]);
    assert MarkerOf(c) == MarkerOf(d);
    assert InScene(d, scenes[k]);
  }

  lemma StillUnanchored(scenes: seq<Scene>, c: Claim, id: string)
    requires c.id != id && FirstAnchor(scenes, id, 0) == |scenes|
    ensures FirstAnchor(AnchorClaim(scenes, c), id, 0) == |AnchorClaim(scenes, c)|
  {
    hide Occurs;
    hide SceneText;
    var next := AnchorClaim(scenes, c);
    assert forall k :: 0 <= k < |next| ==> id !in next[k].claimIds;
  }

  /** When all scenes are settled, every claim's marker is somewhere in the storyboard. */
  lemma AllMarked(b: Brief, scenes: seq<Scene>)
    requires HasClaimIds(b) && OneStatusPerId(b) && AllSettled(b, scenes)
    ensures forall k :: 0 <= k < |b.claims| ==> MarkedSomewhere(b.claims[k], AnchorScenes(b, scenes, 0))
  {
    hide AnchorScenes;
    hide FirstAnchor;
    hide MarkedSomewhere;
    hide AllSettled;
    forall k | 0 <= k < |b.claims| ensures MarkedSomewhere(b.claims[k], AnchorScenes(b, scenes, 0)) {
      if AnchorOf(scenes, b.claims[k]) < |scenes| {
        AnchoredIsMarked(b, scenes, b.claims[k]);
      } else {
        UnanchoredIsMarked(b, scenes, 0, k);
      }
    }
  }

  /** A scene that is the first anchor of claims of one marker only is settled. */
  lemma SingleAnchorIsSettled(s: Scene, claims: seq<Claim>)
    requires forall c, d :: c in claims && d in claims ==> MarkerOf(c) == MarkerOf(d)
    ensures Settled(s, claims)
  {
  }

  /** When no two claims of different markers have the same first anchor, all scenes are settled. */
  lemma OwnAnchorsSettle(b: Brief, scenes: seq<Scene>)
    requires HasClaimIds(b)
    requires forall c, d :: c in b.claims && d in b.claims && AnchorOf(scenes, c) == AnchorOf(scenes, d) < |scenes| ==> MarkerOf(c) == MarkerOf(d)
    ensures AllSettled(b, scenes)
  {
    hide Settled;
    hide IsClaimId;
    hide MarkerOf;
    hide AnchoredAt;
    hide FirstAnchor;
    forall k | 0 <= k < |scenes| ensures Settled(scenes[k], AnchoredAt(scenes, b.claims, k, 0)) {
      AnchoredHaveIds(b, scenes, k, 0);
      SingleAnchorIsSettled(scenes[k], AnchoredAt(scenes, b.claims, k, 0));
    }
  }
}
