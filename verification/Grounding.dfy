/** The whole of `_ground_ollama_drafts` and the separately written `_validate_generated_drafts` of
    src/soloscale/content_workspace.py: what the first returns, the second accepts. */
module Grounding {
  import opened Wrappers
  import opened PyText
  import opened Sorting
  import opened ClaimText
  import opened XThread
  import opened GroundedText
  import opened GroundedScenes

  /** The drafts: as the model wrote them, or as grounded. */
  datatype Drafts = Drafts(
    canonicalStory: string, linkedin: string, xThread: seq<string>, xPost: string,
    blog: string, youtubeScript: string, videoScript: string, storyboard: seq<Scene>)

  datatype GroundError = UnknownClaimId | TooManyPosts | TooManyScenes | OutsideSchema

  const MAX_SCENES: nat := 12

  // ----- grounding

  function RawTexts(t: Drafts): (texts: seq<string>) {
    [t.canonicalStory, t.linkedin] + t.xThread + [t.xPost, t.blog, t.youtubeScript, t.videoScript]
    + AllFields(t.storyboard, |t.storyboard|)
  }

  predicate KnownIds(b: Brief, s: Scene) {
    ToSet(s.claimIds) <= AllowedIds(b)
  }

  predicate AllKnown(b: Brief, scenes: seq<Scene>) {
    forall k :: 0 <= k < |scenes| ==> KnownIds(b, scenes[k])
  }

  predicate SceneFits(s: Scene) {
    && s.start < s.end <= 600 && 1 <= |s.purpose| <= 120 && 1 <= |s.visual| <= 500 && 1 <= |s.voiceover| <= 600
    && 1 <= |s.onScreen| <= 240 && |s.claimIds| <= 16
  }

  /** The field limits of `ContentDrafts`. */
  predicate FitsSchema(d: Drafts) {
    && |d.canonicalStory| <= 16000 && 1 <= |d.linkedin| <= 12000 && |d.blog| <= 24000
    && |d.youtubeScript| <= 32000 && 1 <= |d.videoScript| <= 16000
    && 1 <= |d.xThread| <= MAX_POSTS && |d.xPost| <= 280 && (forall k :: 0 <= k < |d.xThread| ==> |d.xThread[k]| <= 280)
    && 1 <= |d.storyboard| <= MAX_SCENES && forall k :: 0 <= k < |d.storyboard| ==> SceneFits(d.storyboard[k])
  }

  /** The model names no unknown claim, in its texts or its scenes' claim ids. */
  predicate NamesKnownClaims(b: Brief, t: Drafts) {
    AllKnown(b, t.storyboard) && Mentions(Join(RawTexts(t), "\n")) <= AllowedIds(b)
  }

  function GroundedDrafts(b: Brief, t: Drafts): (d: Drafts)
    requires b.claims != []
  {
    Drafts(Anchored(b, t.canonicalStory), Anchored(b, t.linkedin), NumberedThread(ThreadBodies(b, t.xThread)),
           GroundedXPost(b, t.xPost), Anchored(b, t.blog), Anchored(b, t.youtubeScript), Anchored(b, t.videoScript),
           Normalized(GroundedStoryboard(b, t.storyboard)))
  }

  function Ground(b: Brief, t: Drafts): (r: Result<Drafts, GroundError>)
    requires b.claims != []
  {
    if !NamesKnownClaims(b, t) then Err(UnknownClaimId)
    else if |ThreadBodies(b, t.xThread)| > MAX_POSTS then Err(TooManyPosts)
    else if |GroundedStoryboard(b, t.storyboard)| > MAX_SCENES then Err(TooManyScenes)
    else if !FitsSchema(GroundedDrafts(b, t)) then Err(OutsideSchema)
    else Ok(GroundedDrafts(b, t))
  }

  method GroundDrafts(b: Brief, t: Drafts) returns (r: Result<Drafts, GroundError>)
    requires b.claims != []
    ensures r == Ground(b, t)
  {
    hide Anchored;
    hide ThreadBodies;
    hide GroundedXPost;
    hide GroundedStoryboard;
    hide FitsSchema;
    hide Normalized;
    hide NumberedThread;
    if !NamesKnownClaims(b, t) {
      return Err(UnknownClaimId);
    }
    var bodies := GroundThread(b, t.xThread);
    if |bodies| > MAX_POSTS {
      return Err(TooManyPosts);
    }
    var scenes := GroundStoryboard(b, t.storyboard);
    if |scenes| > MAX_SCENES {
      return Err(TooManyScenes);
    }
    var canonicalStory := AnchoredChannel(b, t.canonicalStory);
    var linkedin := AnchoredChannel(b, t.linkedin);
    var blog := AnchoredChannel(b, t.blog);
    var youtubeScript := AnchoredChannel(b, t.youtubeScript);
    var videoScript := AnchoredChannel(b, t.videoScript);
    var drafts := Drafts(canonicalStory, linkedin, NumberedThread(bodies), GroundedXPost(b, t.xPost),
                         blog, youtubeScript, videoScript, Normalized(scenes));
    if !FitsSchema(drafts) {
      return Err(OutsideSchema);
    }
    r := Ok(drafts);
  }

  // ----- the validator

  predicate StartsWith(s: string, prefix: string) {
    |prefix| <= |s| && s[..|prefix|] == prefix
  }

  predicate ValidNumbering(thread: seq<string>) {
    forall k :: 0 <= k < |thread| ==> StartsWith(thread[k], Decimal(k + 1) + "/" + Decimal(|thread|) + " ")
  }

  function SceneIds(scenes: seq<Scene>): (ids: seq<string>) {
    seq(|scenes|, k requires 0 <= k < |scenes| => scenes[k].id)
  }

  /** Where the scene before the k-th ends. */
  function PreviousEnd(scenes: seq<Scene>, k: nat): (t: nat)
    requires k <= |scenes|
  {
    if k == 0 then 0 else scenes[k - 1].end
  }

  /** The claim ids of the first i scenes. */
  function IdsOfScenes(scenes: seq<Scene>, i: nat): (ids: set<string>)
    requires i <= |scenes|
  {
    if i == 0 then {} else IdsOfScenes(scenes, i - 1) + ToSet(scenes[i - 1].claimIds)
  }

  ghost predicate ValidStoryboard(b: Brief, scenes: seq<Scene>) {
    && Distinct(SceneIds(scenes))
    && (forall k :: 0 <= k < |scenes| ==> scenes[k].start >= PreviousEnd(scenes, k) && KnownIds(b, scenes[k]))
    && IdsOfScenes(scenes, |scenes|) == AllowedIds(b)
    && (forall k :: 0 <= k < |b.claims| ==> Occurs(MarkerOf(b.claims[k]), StoryboardText(scenes)))
    && Occurs(b.cta, StoryboardText(scenes))
  }

  /** Everything the validator checks but the privacy scan. */
  ghost predicate ValidDrafts(b: Brief, d: Drafts)
    requires b.claims != []
  {
    && ValidArtifact(b, d.canonicalStory) && ValidArtifact(b, d.linkedin) && ValidArtifact(b, Join(d.xThread, "\n\n"))
    && ValidArtifact(b, d.blog) && ValidArtifact(b, d.youtubeScript) && ValidArtifact(b, d.videoScript)
    && ValidXPost(b, d.xPost) && ValidNumbering(d.xThread) && ValidStoryboard(b, d.storyboard)
  }

  method ValidateDrafts(b: Brief, d: Drafts) returns (ok: bool)
    requires b.claims != []
    ensures ok <==> ValidDrafts(b, d)
  {
    hide ValidArtifact;
    hide ValidXPost;
    hide Occurs;
    hide Join;
    hide StartsWith;
    var artifacts := [d.canonicalStory, d.linkedin, Join(d.xThread, "\n\n"), d.blog, d.youtubeScript, d.videoScript];
    for i := 0 to |artifacts|
      invariant forall j :: 0 <= j < i ==> ValidArtifact(b, artifacts[j])
    {
      if !ValidArtifact(b, artifacts[i]) {
        return false;
      }
    }
    assert ValidArtifact(b, artifacts[0]) && ValidArtifact(b, artifacts[1]) && ValidArtifact(b, artifacts[2])
        && ValidArtifact(b, artifacts[3]) && ValidArtifact(b, artifacts[4]) && ValidArtifact(b, artifacts[5]);
    if !ValidXPost(b, d.xPost) {
      return false;
    }
    var total := |d.xThread|;
    for i := 0 to total
      invariant forall j :: 0 <= j < i ==> StartsWith(d.xThread[j], Decimal(j + 1) + "/" + Decimal(total) + " ")
    {
      if !StartsWith(d.xThread[i], Decimal(i + 1) + "/" + Decimal(total) + " ") {
        return false;
      }
    }
    ok := ValidateStoryboard(b, d.storyboard);
  }

  method ValidateStoryboard(b: Brief, scenes: seq<Scene>) returns (ok: bool)
    ensures ok <==> ValidStoryboard(b, scenes)
  {
    hide Occurs;
    hide KnownIds;
    hide StoryboardText;
    hide MarkerOf;
    hide AllowedIds;
    DistinctIffSetSize(SceneIds(scenes));
    if |SceneIds(scenes)| != |ToSet(SceneIds(scenes))| {
      return false;
    }
    var claimIds: set<string> := {};
    var previousEnd := 0;
    for i := 0 to |scenes|
      invariant previousEnd == PreviousEnd(scenes, i) && claimIds == IdsOfScenes(scenes, i)
      invariant forall j :: 0 <= j < i ==> scenes[j].start >= PreviousEnd(scenes, j) && KnownIds(b, scenes[j])
    {
      if scenes[i].start < previousEnd || !KnownIds(b, scenes[i]) {
        return false;
      }
      previousEnd := scenes[i].end;
      claimIds := claimIds + ToSet(scenes[i].claimIds);
    }
    if claimIds != AllowedIds(b) {
      return false;
    }
    var text := StoryboardText(scenes);
    for i := 0 to |b.claims|
      invariant forall j :: 0 <= j < i ==> Occurs(MarkerOf(b.claims[j]), text)
    {
      if !Occurs(MarkerOf(b.claims[i]), text) {
        return false;
      }
    }
    ok := Occurs(b.cta, text);
  }

  // ----- the storyboard is valid

  lemma {:induction false} FieldsAt(scenes: seq<Scene>, i: nat, k: nat)
    requires k < i <= |scenes|
    ensures forall j :: 0 <= j < 4 ==> AllFields(scenes, i)[4 * k + j] == FieldsOf(scenes[k])[j]
  {
    if k < i - 1 { FieldsAt(scenes, i - 1, k); }
  }

  lemma FieldInStoryboard(m: string, scenes: seq<Scene>, k: nat, j: nat)
    requires m != "" && '\n' !in m && k < |scenes| && j < 4 && Occurs(m, FieldsOf(scenes[k])[j])
    ensures Occurs(m, StoryboardText(scenes))
  {
    hide Occurs;
    hide AllFields;
    var texts := AllFields(scenes, |scenes|);
    FieldsAt(scenes, |scenes|, k);
    assert Occurs(m, texts[4 * k + j]);
    OccursInJoin(m, texts, "\n", |texts|);
  }

  lemma MarkedInStoryboard(c: Claim, scenes: seq<Scene>)
    requires IsClaimId(c.id) && MarkedSomewhere(c, scenes)
    ensures Occurs(MarkerOf(c), StoryboardText(scenes))
  {
    hide Occurs;
    hide MarkerOf;
    hide StoryboardText;
    hide IsClaimId;
    var k :| 0 <= k < |scenes| && InScene(c, scenes[k]);
    var m := MarkerOf(c);
    MarkerEndsWithSomething(c);
    var texts := FieldsOf(scenes[k]);
    OccursInJoin(m, texts, "\n", 4);
    var j :| 0 <= j < 4 && Occurs(m, texts[j]);
    FieldInStoryboard(m, scenes, k, j);
  }

  /** Another scene keeps what occurs in the storyboard. */
  lemma OccursInLonger(m: string, scenes: seq<Scene>, s: Scene)
    requires m != "" && '\n' !in m && Occurs(m, StoryboardText(scenes))
    ensures Occurs(m, StoryboardText(scenes + [s]))
  {
    hide Occurs;
    var texts, more := AllFields(scenes, |scenes|), AllFields(scenes + [s], |scenes| + 1);
    FieldsOfPrefix(scenes, scenes + [s], |scenes|);
    assert texts <= more;
    OccursInJoin(m, texts, "\n", |texts|);
    OccursInMore(m, texts, more);
    OccursInJoin(m, more, "\n", |more|);
  }

  lemma {:induction false} FieldsOfPrefix(scenes: seq<Scene>, more: seq<Scene>, i: nat)
    requires i <= |scenes| <= |more| && forall k :: 0 <= k < i ==> FieldsOf(scenes[k]) == FieldsOf(more[k])
    ensures AllFields(scenes, i) == AllFields(more, i)
  {
    hide FieldsOf;
    if i > 0 { FieldsOfPrefix(scenes, more, i - 1); }
  }

  lemma NormalizedText(scenes: seq<Scene>)
    ensures StoryboardText(Normalized(scenes)) == StoryboardText(scenes)
  {
    hide TwoDigits;
    FieldsOfPrefix(scenes, Normalized(scenes), |scenes|);
  }

  lemma StoryboardHasTexts(b: Brief, scenes: seq<Scene>)
    requires SafeBrief(b) && OneStatusPerId(b) && AllSettled(b, scenes)
    ensures var text := StoryboardText(Normalized(GroundedStoryboard(b, scenes)));
            (forall k :: 0 <= k < |b.claims| ==> Occurs(MarkerOf(b.claims[k]), text)) && Occurs(b.cta, text)
  {
    hide Occurs;
    hide MarkerOf;
    hide StoryboardText;
    hide IsClaimId;
    hide AnchorScenes;
    hide AllSettled;
    hide Normalized;
    hide Strip;
    hide MarkedSomewhere;
    hide Mentions;
    var marked := AnchorScenes(b, scenes, 0);
    var final := GroundedStoryboard(b, scenes);
    AllMarked(b, scenes);
    NormalizedText(final);
    forall k | 0 <= k < |b.claims| ensures Occurs(MarkerOf(b.claims[k]), StoryboardText(final)) {
      MarkedInStoryboard(b.claims[k], marked);
      LineIsSafe(b, k);
      MarkerIsSomething(b.claims[k]);
      if final != marked { OccursInLonger(MarkerOf(b.claims[k]), marked, CtaScene(b)); }
    }
    if !Occurs(b.cta, StoryboardText(marked)) {
      OccursInItself(b.cta);
      FieldInStoryboard(b.cta, final, |marked|, 2);
    }
  }

  lemma {:induction false} IdsAre(scenes: seq<Scene>, i: nat)
    requires i <= |scenes|
    ensures forall id :: id in IdsOfScenes(scenes, i) <==> exists k :: 0 <= k < i && id in scenes[k].claimIds
  {
    if i > 0 { IdsAre(scenes, i - 1); }
  }

  lemma AnchoringOneKeepsKnown(b: Brief, scenes: seq<Scene>, c: Claim)
    requires AllKnown(b, scenes) && c in b.claims
    ensures AllKnown(b, AnchorClaim(scenes, c))
  {
    hide Occurs;
    hide SceneText;
    var next := AnchorClaim(scenes, c);
    assert c.id in AllowedIds(b);
    forall k | 0 <= k < |next| ensures KnownIds(b, next[k]) {
      assert k < |scenes| ==> KnownIds(b, scenes[k]) && next[k].claimIds == scenes[k].claimIds;
    }
  }

  lemma {:induction false} AnchoringKeepsKnown(b: Brief, scenes: seq<Scene>, i: nat)
    requires i <= |b.claims| && AllKnown(b, scenes)
    ensures AllKnown(b, AnchorScenes(b, scenes, i))
    decreases |b.claims| - i
  {
    hide AllKnown;
    hide AnchorClaim;
    if i < |b.claims| {
      AnchoringOneKeepsKnown(b, scenes, b.claims[i]);
      AnchoringKeepsKnown(b, AnchorClaim(scenes, b.claims[i]), i + 1);
    }
  }

  ghost predicate AnchoredSomewhere(id: string, scenes: seq<Scene>) {
    exists k :: 0 <= k < |scenes| && id in scenes[k].claimIds
  }

  lemma AnchorsPersist(id: string, scenes: seq<Scene>, more: seq<Scene>)
    requires SameAnchors(scenes, more) && AnchoredSomewhere(id, scenes)
    ensures AnchoredSomewhere(id, more)
  {
    var k :| 0 <= k < |scenes| && id in scenes[k].claimIds;
    assert id in more[k].claimIds;
  }

  /** Every claim is anchored in the end. */
  lemma {:induction false} EveryClaimAnchored(b: Brief, scenes: seq<Scene>, i: nat, j: nat)
    requires i <= j < |b.claims|
    ensures AnchoredSomewhere(b.claims[j].id, AnchorScenes(b, scenes, i))
    decreases j - i
  {
    hide AnchorClaim;
    hide AnchoredSomewhere;
    hide SameAnchors;
    var next := AnchorClaim(scenes, b.claims[i]);
    if i == j {
      AnchoredNow(scenes, b.claims[i]);
      GrowsOnly(b, next, i + 1);
      AnchorsPersist(b.claims[i].id, next, AnchorScenes(b, next, i + 1));
    } else {
      EveryClaimAnchored(b, next, i + 1, j);
    }
  }

  lemma AnchoredNow(scenes: seq<Scene>, c: Claim)
    ensures AnchoredSomewhere(c.id, AnchorClaim(scenes, c))
  {
    hide Occurs;
    hide SceneText;
    assert c.id in AnchorClaim(scenes, c)[AnchorOf(scenes, c)].claimIds;
  }

  lemma TwoDigitsDiffer(m: nat, n: nat)
    requires 0 < m < n < 100
    ensures TwoDigits(m) != TwoDigits(n)
  {
    ValueOfDecimal(n);
    if TwoDigits(m) == TwoDigits(n) {
      if n < 10 {
        assert Decimal(m) == TwoDigits(m)[1..] && Decimal(n) == TwoDigits(n)[1..];
        DecimalInjective(m, n);
      } else if m >= 10 {
        DecimalInjective(m, n);
      }
    }
  }

  lemma SceneIdsDiffer(scenes: seq<Scene>)
    requires |scenes| <= MAX_SCENES
    ensures Distinct(SceneIds(Normalized(scenes)))
  {
    hide TwoDigits;
    var r := Normalized(scenes);
    forall i, j | 0 <= i < j < |r| ensures SceneIds(r)[i] != SceneIds(r)[j] {
      TwoDigitsDiffer(i + 1, j + 1);
      assert r[i].id[6..] == TwoDigits(i + 1) && r[j].id[6..] == TwoDigits(j + 1);
    }
  }

  /** What is right about every grounded storyboard: scene ids, times and claim ids. */
  lemma StoryboardFrame(b: Brief, scenes: seq<Scene>)
    requires AllKnown(b, scenes) && |GroundedStoryboard(b, scenes)| <= MAX_SCENES
    ensures var r := Normalized(GroundedStoryboard(b, scenes));
            && Distinct(SceneIds(r)) && IdsOfScenes(r, |r|) == AllowedIds(b)
            && forall k :: 0 <= k < |r| ==> r[k].start >= PreviousEnd(r, k) && KnownIds(b, r[k])
  {
    hide Occurs;
    hide StoryboardText;
    hide AnchorScenes;
    hide TwoDigits;
    hide Distinct;
    var marked := AnchorScenes(b, scenes, 0);
    var final := GroundedStoryboard(b, scenes);
    var r := Normalized(final);
    SceneIdsDiffer(final);
    AnchoringKeepsKnown(b, scenes, 0);
    forall k | 0 <= k < |r| ensures r[k].start >= PreviousEnd(r, k) && KnownIds(b, r[k]) {
      assert r[k].claimIds == final[k].claimIds;
      assert k < |marked| ==> KnownIds(b, marked[k]);
    }
    IdsAre(r, |r|);
    forall id | id in AllowedIds(b) ensures id in IdsOfScenes(r, |r|) {
      var c :| c in b.claims && c.id == id;
      var j :| 0 <= j < |b.claims| && b.claims[j] == c;
      EveryClaimAnchored(b, scenes, 0, j);
      assert AnchoredSomewhere(id, marked);
      var k :| 0 <= k < |marked| && id in marked[k].claimIds;
      assert id in r[k].claimIds;
    }
    forall id | id in IdsOfScenes(r, |r|) ensures id in AllowedIds(b) {
      var k :| 0 <= k < |r| && id in r[k].claimIds;
      assert KnownIds(b, r[k]);
    }
  }

  lemma StoryboardIsValid(b: Brief, scenes: seq<Scene>)
    requires SafeBrief(b) && OneStatusPerId(b) && AllSettled(b, scenes)
    requires AllKnown(b, scenes) && |GroundedStoryboard(b, scenes)| <= MAX_SCENES
    ensures ValidStoryboard(b, Normalized(GroundedStoryboard(b, scenes)))
  {
    hide SafeBrief;
    hide Occurs;
    hide MarkerOf;
    hide StoryboardText;
    hide GroundedStoryboard;
    hide AllSettled;
    hide Normalized;
    hide OneStatusPerId;
    hide Distinct;
    StoryboardFrame(b, scenes);
    StoryboardHasTexts(b, scenes);
  }

  // ----- the transformation and its checker agree

  /** What the model wrote names known claims only, text by text. */
  lemma RawTextsAreSafe(b: Brief, t: Drafts)
    requires NamesKnownClaims(b, t)
    ensures AllSafe(b, t.xThread) && Mentions(t.canonicalStory) <= AllowedIds(b) && Mentions(t.linkedin) <= AllowedIds(b)
    ensures Mentions(t.xPost) <= AllowedIds(b) && Mentions(t.blog) <= AllowedIds(b)
    ensures Mentions(t.youtubeScript) <= AllowedIds(b) && Mentions(t.videoScript) <= AllowedIds(b)
  {
    hide Mentions;
    hide AllFields;
    hide JoinUpTo;
    hide KnownIds;
    var texts := RawTexts(t);
    MentionsOfJoin(texts, "\n", |texts|);
    forall k | 0 <= k < |texts| ensures Mentions(texts[k]) <= AllowedIds(b) {
      forall id | id in Mentions(texts[k]) ensures id in AllowedIds(b) { assert MentionedIn(id, texts, |texts|); }
    }
    var n := |t.xThread|;
    assert texts[0] == t.canonicalStory && texts[1] == t.linkedin && texts[n + 2] == t.xPost && texts[n + 3] == t.blog
        && texts[n + 4] == t.youtubeScript && texts[n + 5] == t.videoScript;
    forall k | 0 <= k < n ensures Mentions(t.xThread[k]) <= AllowedIds(b) { assert texts[k + 2] == t.xThread[k]; }
  }

  lemma NumberingIsValid(bodies: seq<string>)
    ensures ValidNumbering(NumberedThread(bodies))
  {
    hide Decimal;
    var thread := NumberedThread(bodies);
    forall k | 0 <= k < |thread| ensures StartsWith(thread[k], Decimal(k + 1) + "/" + Decimal(|thread|) + " ") {
      var prefix := Decimal(k + 1) + "/" + Decimal(|thread|) + " ";
      assert thread[k] == prefix + bodies[k];
    }
  }

  /** Every draft set grounding returns passes the validator, whatever the model wrote, for a brief whose
      own texts name no foreign claim and whose call to action is one trimmed line, provided no scene of
      the model has to carry the markers of two claims in its on-screen text. */
  lemma GroundedDraftsAreValid(b: Brief, t: Drafts)
    requires SafeBrief(b) && OneStatusPerId(b) && AllSettled(b, t.storyboard) && Ground(b, t).Ok?
    ensures ValidDrafts(b, Ground(b, t).value)
  {
    hide SafeBrief;
    hide Mentions;
    hide ValidArtifact;
    hide ValidXPost;
    hide ValidNumbering;
    hide ValidStoryboard;
    hide Anchored;
    hide ThreadBodies;
    hide NumberedThread;
    hide GroundedXPost;
    hide GroundedStoryboard;
    hide Normalized;
    hide AllSettled;
    hide FitsSchema;
    hide AllSafe;
    hide Join;
    RawTextsAreSafe(b, t);
    AnchoredIsValid(b, t.canonicalStory);
    AnchoredIsValid(b, t.linkedin);
    AnchoredIsValid(b, t.blog);
    AnchoredIsValid(b, t.youtubeScript);
    AnchoredIsValid(b, t.videoScript);
    ThreadIsValid(b, t.xThread);
    XPostIsValid(b, t.xPost);
    NumberingIsValid(ThreadBodies(b, t.xThread));
    StoryboardIsValid(b, t.storyboard);
  }
}
