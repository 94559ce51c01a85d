/** Inputs of src/soloscale/content_workspace.py whose grounded drafts its validator rejects. */
module RejectedDrafts {
  import opened Wrappers
  import opened PyText
  import opened Sorting
  import opened ClaimText
  import opened XThread
  import opened GroundedText
  import opened GroundedScenes
  import opened Grounding
  import opened StoryboardExact
  import opened GroundingExact

  // ----- small draft sets: one text, a few posts and one scene

  function Small(text: string, posts: seq<string>, scene: Scene): (t: Drafts) {
    Drafts(text, text, posts, text, text, text, text, [scene])
  }

  /** One or two claims with short texts, and a short call to action. */
  ghost predicate SmallBrief(b: Brief) {
    && HasClaimIds(b) && 1 <= |b.claims| <= 2 && (forall c :: c in b.claims ==> 1 <= |c.text| <= 100)
    && 1 <= |b.cta| <= 20
  }

  /** A short text that has all the markers of the brief. */
  ghost predicate CarriesMarkers(b: Brief, text: string) {
    && Marked(b, text, |b.claims|) && Mentions(text) <= AllowedIds(b) && 1 <= |text| <= 100 && Strip(text) == text
  }

  /** A few short posts that name known claims only. */
  ghost predicate SmallThread(b: Brief, posts: seq<string>) {
    && AllSafe(b, posts) && 1 <= |ThreadBodies(b, posts)| <= 3
    && forall k :: 0 <= k < |ThreadBodies(b, posts)| ==> |ThreadBodies(b, posts)[k]| <= 200
  }

  /** A scene with short texts that name no claim. */
  ghost predicate SmallScene(b: Brief, s: Scene) {
    FieldsFit(s) && KnownIds(b, s) && forall k :: 0 <= k < 4 ==> Mentions(FieldsOf(s)[k]) == {}
  }

  lemma {:induction false} NothingToAnchor(b: Brief, text: string, i: nat)
    requires i <= |b.claims| && Marked(b, text, |b.claims|)
    ensures AnchorClaims(b, text, i) == text
    decreases |b.claims| - i
  {
    hide Occurs;
    if i < |b.claims| { NothingToAnchor(b, text, i + 1); }
  }

  lemma {:induction false} NothingToAdd(b: Brief, text: string, bodies: seq<string>, i: nat)
    requires i <= |b.claims| && Marked(b, text, |b.claims|)
    ensures AddLines(b, text, i, bodies) == bodies
    decreases |b.claims| - i
  {
    hide Occurs;
    if i < |b.claims| { NothingToAdd(b, text, bodies, i + 1); }
  }

  lemma ChannelOfMarkers(b: Brief, text: string)
    requires SmallBrief(b) && CarriesMarkers(b, text)
    ensures AnchorClaims(b, Strip(text), 0) == text && 1 <= |Anchored(b, text)| <= 130
  {
    hide Occurs;
    hide Strip;
    hide MarkerOf;
    hide IsClaimId;
    hide Mentions;
    NothingToAnchor(b, text, 0);
    if !Occurs(b.cta, text) {
      StripShortens(text + "\n\n" + b.cta);
      AppendKeepsMarkers(b, text, |b.claims|, b.cta);
      MarkerIsSomething(b.claims[0]);
      NotInNothing(MarkerOf(b.claims[0]), Strip(text + "\n\n" + b.cta));
    }
  }

  /** A post that starts with no prefix is its own body. */
  lemma PlainBody(post: string)
    requires post != "" && post[0] != 'N' && post[0] != 'n' && !IsDigit(post[0]) && Strip(post) == post
    ensures BodyOf(post) == post
  {
    hide Strip;
    assert post[0 + 0] != "N"[0] && post[0 + 0] != "n"[0];
    assert DigitsEnd(post, 0) == 0;
    assert WordOrDigits(post, 0, "N", "n") == 0;
    assert PrefixLength(post) == 0;
  }

  /** One plain post with all the markers. */
  lemma OnePost(b: Brief, text: string)
    requires SmallBrief(b) && CarriesMarkers(b, text) && BodyOf(text) == text
    ensures SmallThread(b, [text])
  {
    hide Occurs;
    hide Strip;
    hide Mentions;
    hide IsClaimId;
    hide BodyOf;
    assert [text][0] == text && [] + [text] == [text];
    assert BodiesFrom([text], 1, [text]) == [text];
    assert BodiesFrom([text], 0, []) == [text];
    assert Join([text], "\n") == text;
    NothingToAdd(b, text, [text], 0);
  }

  lemma PostsFit(b: Brief, posts: seq<string>)
    requires SmallThread(b, posts)
    ensures var thread := NumberedThread(ThreadBodies(b, posts));
            1 <= |thread| <= 3 && forall k :: 0 <= k < |thread| ==> |thread[k]| <= 280
  {
    hide Decimal;
    hide ThreadBodies;
    DecimalOfSmall(1);
    DecimalOfSmall(2);
    DecimalOfSmall(3);
  }

  lemma PostStays(b: Brief, text: string)
    requires SmallBrief(b) && CarriesMarkers(b, text)
    ensures GroundedXPost(b, text) == text
  {
    hide Occurs;
    hide Strip;
    hide Mentions;
    hide IsClaimId;
  }

  /** The texts and claim ids of a scene are within the limits. */
  predicate FieldsFit(s: Scene) {
    && 1 <= |s.purpose| <= 120 && 1 <= |s.visual| <= 500 && 1 <= |s.voiceover| <= 600 && 1 <= |s.onScreen| <= 240
    && |s.claimIds| <= 16
  }

  lemma SmallLine(c: Claim)
    requires IsClaimId(c.id) && |c.text| <= 100
    ensures 1 <= |LineOf(c)| <= 240
  {
    assert |StatusText(c.status)| <= 10;
  }

  /** Anchoring keeps all scenes within the limits and adds at most one scene per claim. */
  lemma {:induction false} AnchoringFits(b: Brief, scenes: seq<Scene>, i: nat)
    requires SmallBrief(b) && i <= |b.claims| && forall s :: s in scenes ==> FieldsFit(s)
    ensures var r := AnchorScenes(b, scenes, i);
            |r| <= |scenes| + |b.claims| - i && forall s :: s in r ==> FieldsFit(s)
    decreases |b.claims| - i
  {
    hide Occurs;
    hide SceneText;
    hide LineOf;
    hide IsClaimId;
    if i < |b.claims| {
      var c := b.claims[i];
      SmallLine(c);
      var next := AnchorClaim(scenes, c);
      assert FieldsFit(EvidenceScene(c));
      assert AnchorOf(scenes, c) < |scenes| ==> scenes[AnchorOf(scenes, c)] in scenes;
      AnchoringFits(b, next, i + 1);
    }
  }

  lemma ScenesFit(b: Brief, s: Scene)
    requires SmallBrief(b) && FieldsFit(s)
    ensures var r := Normalized(GroundedStoryboard(b, [s]));
            1 <= |r| <= 4 && forall k :: 0 <= k < |r| ==> SceneFits(r[k])
  {
    hide Occurs;
    hide StoryboardText;
    hide TwoDigits;
    hide AnchorScenes;
    hide IsClaimId;
    AnchoringFits(b, [s], 0);
    GrowsOnly(b, [s], 0);
    var final := GroundedStoryboard(b, [s]);
    assert FieldsFit(CtaScene(b));
    forall k | 0 <= k < |final| ensures FieldsFit(final[k]) { assert final[k] in final; }
  }

  lemma SmallNamesKnownClaims(b: Brief, text: string, posts: seq<string>, s: Scene)
    requires CarriesMarkers(b, text) && SmallThread(b, posts) && SmallScene(b, s)
    ensures NamesKnownClaims(b, Small(text, posts, s))
  {
    hide Mentions;
    hide Marked;
    hide KnownIds;
    hide JoinUpTo;
    hide Strip;
    hide ThreadBodies;
    var texts := RawTexts(Small(text, posts, s));
    assert AllFields([s], 1) == FieldsOf(s);
    assert texts == [text, text] + posts + [text, text, text, text] + FieldsOf(s);
    forall k | 0 <= k < |texts| ensures Mentions(texts[k]) <= AllowedIds(b) {
      assert texts[k] == text || texts[k] in posts || texts[k] in FieldsOf(s);
    }
    MentionsOfJoin(texts, "\n", |texts|);
  }

  /** Such drafts are grounded without an error. */
  lemma SmallIsGrounded(b: Brief, text: string, posts: seq<string>, s: Scene)
    requires SmallBrief(b) && CarriesMarkers(b, text) && SmallThread(b, posts) && SmallScene(b, s)
    ensures Ground(b, Small(text, posts, s)).Ok?
  {
    hide CarriesMarkers;
    hide SmallThread;
    hide NamesKnownClaims;
    hide Anchored;
    hide ThreadBodies;
    hide NumberedThread;
    hide GroundedXPost;
    hide GroundedStoryboard;
    hide SceneFits;
    hide IsClaimId;
    SmallNamesKnownClaims(b, text, posts, s);
    ChannelOfMarkers(b, text);
    PostsFit(b, posts);
    PostStays(b, text);
    SmallSizes(b, text, posts, s);
    ScenesFit(b, s);
  }

  lemma SmallSizes(b: Brief, text: string, posts: seq<string>, s: Scene)
    requires SmallBrief(b) && CarriesMarkers(b, text) && SmallThread(b, posts) && SmallScene(b, s)
    ensures |ThreadBodies(b, posts)| <= 3 && |GroundedStoryboard(b, [s])| <= 4 && |text| <= 100
  {
    hide Mentions;
    hide Marked;
    hide IsClaimId;
    hide ThreadBodies;
    hide GroundedStoryboard;
    ScenesFit(b, s);
  }

  // ----- what rejects them

  lemma InvalidChannel(b: Brief, t: Drafts)
    requires b.claims != [] && Ground(b, t).Ok? && !ValidArtifact(b, Anchored(b, t.linkedin))
    ensures !ValidDrafts(b, Ground(b, t).value)
  {
    hide ValidArtifact;
    hide Anchored;
    hide FitsSchema;
    hide NamesKnownClaims;
    hide ThreadBodies;
    hide GroundedStoryboard;
    hide Normalized;
  }

  lemma InvalidThread(b: Brief, t: Drafts)
    requires b.claims != [] && Ground(b, t).Ok? && !ValidArtifact(b, Join(NumberedThread(ThreadBodies(b, t.xThread)), "\n\n"))
    ensures !ValidDrafts(b, Ground(b, t).value)
  {
    hide ValidArtifact;
    hide Anchored;
    hide FitsSchema;
    hide NamesKnownClaims;
    hide ThreadBodies;
    hide GroundedStoryboard;
    hide Normalized;
    hide NumberedThread;
    hide Join;
  }

  lemma InvalidStoryboard(b: Brief, t: Drafts)
    requires b.claims != [] && Ground(b, t).Ok? && HasClaimIds(b) && OwnTexts(b) && !AllKept(b, t.storyboard)
    ensures !ValidDrafts(b, Ground(b, t).value)
  {
    hide OwnTexts;
    hide AllKept;
    hide IsClaimId;
    hide ValidArtifact;
    hide ValidStoryboard;
    hide Anchored;
    hide FitsSchema;
    hide ThreadBodies;
    hide GroundedStoryboard;
    hide Normalized;
    hide Mentions;
    StoryboardValidIff(b, t.storyboard);
  }

  // ----- inputs whose grounded drafts are rejected

  const FIRST: Claim := Claim("CLAIM-01", "It builds.", Observed)
  const SECOND: Claim := Claim("CLAIM-02", "It runs.", Observed)

  /** The first claim once more, with another status. */
  const REVISED: Claim := Claim("CLAIM-01", "It builds.", Planned)

  /** A scene with neither marker on it that anchors these claims. */
  function Plain(claimIds: seq<string>): (s: Scene) {
    Scene("", 0, 1, "p", "v", "o", "s", claimIds)
  }

  const SHARED: Scene := Plain(["CLAIM-01", "CLAIM-02"])

  /** The markers of two claims and a call to action, so that no channel needs anything. */
  function Both(c: Claim, d: Claim): (text: string) {
    MarkerOf(c) + " " + MarkerOf(d) + " Try it."
  }

  lemma MarkersDiffer()
    ensures MarkerOf(FIRST) != MarkerOf(SECOND) && MarkerOf(FIRST) != MarkerOf(REVISED)
    ensures IsClaimId(FIRST.id) && IsClaimId(SECOND.id)
  {
    var m, n, r := MarkerOf(FIRST), MarkerOf(SECOND), MarkerOf(REVISED);
    assert m[|m| - 1] == '1' && n[|n| - 1] == '2';
    assert m[0] == 'O' && r[0] == 'P';
  }

  lemma TooShort(c: Claim)
    requires IsClaimId(c.id)
    ensures !InScene(c, SHARED) && !InFixedText(c, SHARED)
  {
    SceneHas(c, SHARED);
    assert |MarkerOf(c)| >= 8 + 3 + 7;
  }

  lemma NoCapitalC(s: string)
    requires 'C' !in s
    ensures Mentions(s) == {}
  {
    forall i | 0 <= i < |s| ensures !IsClaimId(IdAt(s, i)) {
      assert ID_PREFIX[0] == 'C';
      assert IdAt(s, i) != "" ==> IdAt(s, i)[..6][0] == s[i] != 'C';
    }
  }

  /** The marker of a claim with this id does not occur in a text that does not name the id. */
  lemma NotNamedNotMarked(c: Claim, s: string)
    requires IsClaimId(c.id) && c.id !in Mentions(s)
    ensures !Occurs(MarkerOf(c), s)
  {
    hide Occurs;
    hide Mentions;
    if Occurs(MarkerOf(c), s) { MarkerNamesClaim(c, s); }
  }

  lemma SharedTextsAreOwn(b: Brief)
    requires b == Brief([FIRST, SECOND], "Try it.")
    ensures OwnTexts(b)
  {
    hide Occurs;
    hide MarkerOf;
    hide LineOf;
    hide Mentions;
    hide IsClaimId;
    MarkersDiffer();
    NoCapitalC(FIRST.text);
    NoCapitalC(SECOND.text);
    NoCapitalC(b.cta);
    LineMentions(FIRST);
    LineMentions(SECOND);
    assert FIRST.id[7] == '1' && SECOND.id[7] == '2';
    NotNamedNotMarked(FIRST, LineOf(SECOND));
    NotNamedNotMarked(SECOND, LineOf(FIRST));
    NotNamedNotMarked(FIRST, b.cta);
    NotNamedNotMarked(SECOND, b.cta);
  }

  /** A claim's marker names the claim and nothing else. */
  lemma MarkerMentions(c: Claim)
    requires IsClaimId(c.id)
    ensures Mentions(MarkerOf(c)) <= {c.id}
  {
    hide Mentions;
    hide MarkerOf;
    var bare := c.(text := "");
    assert MarkerOf(bare) == MarkerOf(c) by { SameMarkerText(c); }
    LineMentions(bare);
    NothingMentioned("");
    MentionsOfSlice(LineOf(bare), 0, |MarkerOf(c)|);
    assert LineOf(bare)[0..|MarkerOf(c)|] == MarkerOf(c);
  }

  lemma SameMarkerText(c: Claim)
    ensures MarkerOf(c.(text := "")) == MarkerOf(c)
  {
  }

  lemma BothMentions(m: string, n: string)
    ensures Mentions(m + " " + n + " " + "Try it.") == Mentions(m) + Mentions(n)
  {
    hide Mentions;
    assert !IsIdChar(' ');
    MentionsSplit(m + " " + n, ' ', "Try it.");
    MentionsSplit(m, ' ', n);
    NoCapitalC("Try it.");
  }

  lemma BothCarriesMarkers(b: Brief, c: Claim, d: Claim)
    requires b == Brief([c, d], "Try it.") && c == FIRST && (d == SECOND || d == REVISED)
    ensures SmallBrief(b) && CarriesMarkers(b, Both(c, d)) && SmallThread(b, [Both(c, d)])
  {
    hide Mentions;
    hide Occurs;
    hide MarkerOf;
    hide IsClaimId;
    hide Strip;
    hide AllSafe;
    hide Both;
    hide BodyOf;
    hide SmallThread;
    var text := Both(c, d);
    MarkersDiffer();
    BothNamesKnown(b, c, d);
    BothOccur(c, d);
    BothIsPlain(c, d);
    OnePostIsSafe(b, text);
    OnePost(b, text);
  }

  lemma BothNamesKnown(b: Brief, c: Claim, d: Claim)
    requires b.claims == [c, d] && IsClaimId(c.id) && IsClaimId(d.id)
    ensures Mentions(Both(c, d)) <= AllowedIds(b)
  {
    hide Mentions;
    hide MarkerOf;
    hide IsClaimId;
    BothMentions(MarkerOf(c), MarkerOf(d));
    assert Both(c, d) == MarkerOf(c) + " " + MarkerOf(d) + " " + "Try it.";
    MarkerMentions(c);
    MarkerMentions(d);
    assert c in b.claims && d in b.claims && c.id in AllowedIds(b) && d.id in AllowedIds(b);
  }

  lemma OnePostIsSafe(b: Brief, text: string)
    requires Mentions(text) <= AllowedIds(b)
    ensures AllSafe(b, [text])
  {
    hide Mentions;
  }

  lemma BothOccur(c: Claim, d: Claim)
    ensures Occurs(MarkerOf(c), Both(c, d)) && Occurs(MarkerOf(d), Both(c, d))
  {
    hide Occurs;
    hide MarkerOf;
    var m, n := MarkerOf(c), MarkerOf(d);
    OccursInItself(m);
    OccursInItself(n);
    OccursWithin(m, "", m, " " + n + " Try it.");
    assert "" + m + (" " + n + " Try it.") == Both(c, d);
    OccursWithin(n, m + " ", n, " Try it.");
    assert m + " " + n + " Try it." == Both(c, d);
  }

  lemma BothIsPlain(c: Claim, d: Claim)
    requires c == FIRST && (d == SECOND || d == REVISED)
    ensures Strip(Both(c, d)) == Both(c, d) && BodyOf(Both(c, d)) == Both(c, d) && 1 <= |Both(c, d)| <= 100
  {
    hide Strip;
    hide BodyOf;
    var text := Both(c, d);
    assert text[0] == 'O' && text[|text| - 1] == '.';
    StripOfTrimmed(text);
    PlainBody(text);
  }

  lemma PlainIsSmall(b: Brief, claimIds: seq<string>)
    requires |claimIds| <= 16 && ToSet(claimIds) <= AllowedIds(b)
    ensures SmallScene(b, Plain(claimIds))
  {
    hide Mentions;
    hide ToSet;
    NoCapitalC("p");
    NoCapitalC("v");
    NoCapitalC("o");
    NoCapitalC("s");
    assert FieldsOf(Plain(claimIds)) == ["p", "v", "o", "s"];
  }

  /** FIRST's marker does not survive on the scene that both claims share: SECOND's line overwrites it. */
  lemma FirstIsNotKept(b: Brief)
    requires b.claims == [FIRST, SECOND]
    ensures !AllKept(b, [SHARED])
  {
    hide Occurs;
    hide MarkerOf;
    hide InScene;
    hide InFixedText;
    assert FirstAnchor([SHARED], FIRST.id, 0) == 0;
    assert FirstAnchor([SHARED], SECOND.id, 0) == 0;
    assert AnchoredAt([SHARED], b.claims, 0, 2) == [];
    assert AnchoredAt([SHARED], b.claims, 0, 1) == [SECOND];
    assert AnchoredAt([SHARED], b.claims, 0, 0) == [FIRST, SECOND];
    assert [FIRST, SECOND][1..] == [SECOND] && [SECOND][1..] == [];
    MarkersDiffer();
    TooShort(FIRST);
    TooShort(SECOND);
    assert FIRST in b.claims && [FIRST, SECOND][0] == FIRST && [SECOND][0] == SECOND;
    assert LastMissing(SHARED, [SECOND]) == Some(SECOND);
    assert LastMissing(SHARED, [FIRST, SECOND]) == Some(SECOND);
    assert !KeptOn(FIRST, SHARED, [FIRST, SECOND]);
  }

  /** Drafts that grounding accepts and the validator then rejects: the second claim's line overwrites the
      first one's on the scene that anchors both. */
  lemma SecondClaimOverwritesFirst(b: Brief)
    requires b == Brief([FIRST, SECOND], "Try it.")
    ensures var text := Both(FIRST, SECOND); var t := Small(text, [text], SHARED);
            Ground(b, t).Ok? && !ValidDrafts(b, Ground(b, t).value)
  {
    hide Ground;
    hide ValidDrafts;
    hide OwnTexts;
    hide AllKept;
    hide CarriesMarkers;
    hide SmallThread;
    hide SmallScene;
    hide Both;
    hide IsClaimId;
    var text := Both(FIRST, SECOND);
    MarkersDiffer();
    BothCarriesMarkers(b, FIRST, SECOND);
    assert FIRST in b.claims && SECOND in b.claims;
    PlainIsSmall(b, SHARED.claimIds);
    SmallIsGrounded(b, text, [text], SHARED);
    SharedTextsAreOwn(b);
    FirstIsNotKept(b);
    InvalidStoryboard(b, Small(text, [text], SHARED));
  }

  /** The same for two claims of one id: on the scene added for the first one, the line of the second one,
      with another status, takes its place. */
  lemma SecondStatusOverwritesFirst(b: Brief)
    requires b == Brief([FIRST, REVISED], "Try it.")
    ensures var text := Both(FIRST, REVISED); var t := Small(text, [text], Plain([]));
            Ground(b, t).Ok? && !ValidDrafts(b, Ground(b, t).value)
  {
    hide Ground;
    hide ValidDrafts;
    hide OwnTexts;
    hide AllKept;
    hide CarriesMarkers;
    hide SmallThread;
    hide SmallScene;
    hide Both;
    hide IsClaimId;
    var text := Both(FIRST, REVISED);
    MarkersDiffer();
    BothCarriesMarkers(b, FIRST, REVISED);
    PlainIsSmall(b, []);
    SmallIsGrounded(b, text, [text], Plain([]));
    StatusesAreOwn(b);
    FirstStatusIsNotKept(b);
    InvalidStoryboard(b, Small(text, [text], Plain([])));
  }

  lemma NotOnLine(c: Claim, letter: char)
    requires letter !in StatusText(c.status) && letter !in c.id && letter !in c.text
    requires letter != ' ' && letter != '\U{B7}' && letter != '\U{2014}'
    ensures letter !in LineOf(c)
  {
    hide StatusText;
  }

  /** A claim of one status is not on the line of the same claim with another status. */
  lemma OtherStatusNotOnLine(c: Claim, d: Claim)
    requires (c == FIRST && d == REVISED) || (c == REVISED && d == FIRST)
    ensures !Occurs(MarkerOf(c), LineOf(d))
  {
    hide Occurs;
    hide LineOf;
    var letter := if c == FIRST then 'B' else 'P';
    assert MarkerOf(c)[if c == FIRST then 1 else 0] == letter;
    NotOnLine(d, letter);
    if Occurs(MarkerOf(c), LineOf(d)) { OccurrenceHasChar(MarkerOf(c), LineOf(d), letter); }
  }

  lemma StatusesAreOwn(b: Brief)
    requires b == Brief([FIRST, REVISED], "Try it.")
    ensures OwnTexts(b)
  {
    hide Occurs;
    hide MarkerOf;
    hide LineOf;
    hide Mentions;
    hide IsClaimId;
    MarkersDiffer();
    NoCapitalC(b.cta);
    OtherStatusNotOnLine(FIRST, REVISED);
    OtherStatusNotOnLine(REVISED, FIRST);
    NotNamedNotMarked(FIRST, b.cta);
    NotNamedNotMarked(REVISED, b.cta);
  }

  lemma FirstStatusIsNotKept(b: Brief)
    requires b.claims == [FIRST, REVISED]
    ensures !AllKept(b, [Plain([])])
  {
    hide Occurs;
    hide MarkerOf;
    hide LineOf;
    hide InScene;
    hide InFixedText;
    var s := Plain([]);
    assert AnchorOf([s], FIRST) == 1 && AnchorOf([s], REVISED) == 1;
    assert AnchoredAt([s], b.claims, 0, 2) == [] && AnchoredAt([s], b.claims, 0, 1) == [];
    assert AnchoredAt([s], b.claims, 0, 0) == [];
    assert WithId(b.claims, FIRST.id, 2) == [] && WithId(b.claims, FIRST.id, 1) == [REVISED];
    assert WithId(b.claims, FIRST.id, 0) == [FIRST, REVISED];
    assert [FIRST, REVISED][1..] == [REVISED] && [REVISED][1..] == [];
    MarkersDiffer();
    PlainHasNoMarker(FIRST, []);
    EvidenceOf(FIRST, REVISED);
    assert FIRST in b.claims && [REVISED][0] == REVISED;
    assert LastMissing(EvidenceScene(FIRST), [REVISED]) == Some(REVISED);
    assert !KeptOn(FIRST, EvidenceScene(FIRST), [REVISED]);
    assert !KeptOn(FIRST, s, []);
  }

  lemma PlainHasNoMarker(c: Claim, claimIds: seq<string>)
    requires IsClaimId(c.id)
    ensures !InScene(c, Plain(claimIds)) && !InFixedText(c, Plain(claimIds)) && !Occurs(MarkerOf(c), Plain(claimIds).onScreen)
  {
    SceneHas(c, Plain(claimIds));
    assert |MarkerOf(c)| >= 8 + 3 + 7;
  }

  /** The first claim's scene has neither status in a fixed text, and not the second one on its screen. */
  lemma EvidenceOf(c: Claim, d: Claim)
    requires c == FIRST && d == REVISED
    ensures !InFixedText(c, EvidenceScene(c)) && !InFixedText(d, EvidenceScene(c)) && !InScene(d, EvidenceScene(c))
  {
    hide Occurs;
    hide LineOf;
    hide Mentions;
    MarkersDiffer();
    FixedWordsHaveNoMarker(c);
    FixedWordsHaveNoMarker(d);
    NoCapitalC(c.text);
    NotNamedNotMarked(c, c.text);
    NotNamedNotMarked(d, c.text);
    OtherStatusNotOnLine(d, c);
    SceneHas(d, EvidenceScene(c));
  }

  lemma FirstCarriesMarker(b: Brief)
    requires b.claims == [FIRST] && 1 <= |b.cta| <= 20
    ensures SmallBrief(b) && CarriesMarkers(b, MarkerOf(FIRST)) && BodyOf(MarkerOf(FIRST)) == MarkerOf(FIRST)
  {
    hide Mentions;
    hide Occurs;
    hide IsClaimId;
    hide BodyOf;
    hide Strip;
    MarkersDiffer();
    MarkerMentions(FIRST);
    assert FIRST in b.claims;
    assert FIRST.id in AllowedIds(b);
    OccursInItself(MarkerOf(FIRST));
    var m := MarkerOf(FIRST);
    assert m[0] == 'O' && m[|m| - 1] == '1';
    StripOfTrimmed(m);
    PlainBody(m);
  }

  /** The same for a call to action that ends with a blank: stripping the channels cuts it off. */
  lemma BlankEndIsStripped(b: Brief)
    requires b == Brief([FIRST], "Try it. ")
    ensures var text := MarkerOf(FIRST); var t := Small(text, [text], Plain([FIRST.id]));
            Ground(b, t).Ok? && !ValidDrafts(b, Ground(b, t).value)
  {
    hide Occurs;
    hide Ground;
    hide ValidDrafts;
    hide SmallScene;
    hide SmallThread;
    hide Anchored;
    hide ValidArtifact;
    hide CarriesMarkers;
    hide MarkerOf;
    hide IsSpace;
    hide Strip;
    hide Mentions;
    hide AnchorClaims;
    hide IsClaimId;
    hide OneParagraph;
    var text, s := MarkerOf(FIRST), Plain([FIRST.id]);
    MarkersDiffer();
    FirstCarriesMarker(b);
    OnePost(b, text);
    assert FIRST in b.claims;
    PlainIsSmall(b, [FIRST.id]);
    SmallIsGrounded(b, text, [text], s);
    ChannelOfMarkers(b, text);
    CtaIsNotInMarker(b);
    BlankEndIsParagraph(b.cta);
    ChannelValidIff(b, text);
    InvalidChannel(b, Small(text, [text], s));
  }

  lemma BlankEndIsParagraph(m: string)
    requires m == "Try it. "
    ensures OneParagraph(m)
  {
  }

  lemma OccurrenceHasChar(m: string, s: string, c: char)
    requires Occurs(m, s) && c in m
    ensures c in s
  {
    var i :| 0 <= i <= |s| && OccursAt(s, m, i);
    var k :| 0 <= k < |m| && m[k] == c;
    assert s[i + k] == s[i..i + |m|][k];
  }

  lemma CtaIsNotInMarker(b: Brief)
    requires b.cta == "Try it. "
    ensures !Occurs(b.cta, MarkerOf(FIRST)) && IsSpace(b.cta[|b.cta| - 1])
  {
    hide Occurs;
    assert b.cta[2] == 'y' && b.cta[7] == ' ';
    assert 'y' !in MarkerOf(FIRST);
    if Occurs(b.cta, MarkerOf(FIRST)) { OccurrenceHasChar(b.cta, MarkerOf(FIRST), 'y'); }
  }

  /** The same for a call to action of two lines that two posts of the model share: numbering the posts
      separates the lines. */
  lemma SplitCtaIsLost(b: Brief)
    requires b == Brief([FIRST], "Try.\nDo it.")
    ensures var text := MarkerOf(FIRST); var t := Small(text, [text + " Try.", "Do it."], Plain([FIRST.id]));
            Ground(b, t).Ok? && !ValidDrafts(b, Ground(b, t).value)
  {
    hide Occurs;
    hide Ground;
    hide ValidDrafts;
    hide SmallScene;
    hide SmallThread;
    hide ValidArtifact;
    hide CarriesMarkers;
    hide MarkerOf;
    hide IsClaimId;
    hide ThreadCanBeGrounded;
    hide NumberedThread;
    hide ThreadBodies;
    hide Join;
    var text, s := MarkerOf(FIRST), Plain([FIRST.id]);
    var posts := [text + " Try.", "Do it."];
    MarkersDiffer();
    FirstCarriesMarker(b);
    assert FIRST in b.claims;
    PlainIsSmall(b, [FIRST.id]);
    SplitThread(b);
    SmallIsGrounded(b, text, posts, s);
    ThreadValidIff(b, posts);
    InvalidThread(b, Small(text, posts, s));
  }

  lemma SplitBodies(posts: seq<string>)
    requires posts == [MarkerOf(FIRST) + " Try.", "Do it."]
    ensures BodiesFrom(posts, 0, []) == posts && |posts[0]| <= 100
  {
    hide BodyOf;
    hide Strip;
    var p, q := posts[0], posts[1];
    assert p[0] == 'O' && p[|p| - 1] == '.';
    StripOfTrimmed(p);
    StripOfTrimmed(q);
    PlainBody(p);
    PlainBody(q);
    assert p != q;
    assert [] + [p] == [p] && [p] + [q] == posts;
    assert BodiesFrom(posts, 2, posts) == posts;
    assert BodiesFrom(posts, 1, [p]) == posts;
  }

  lemma SplitThread(b: Brief)
    requires b == Brief([FIRST], "Try.\nDo it.")
    ensures var posts := [MarkerOf(FIRST) + " Try.", "Do it."]; SmallThread(b, posts) && !ThreadCanBeGrounded(b, posts)
  {
    hide Occurs;
    hide Mentions;
    hide IsClaimId;
    hide BodiesFrom;
    hide MarkerOf;
    hide OneParagraph;
    hide NumberedThread;
    var m := MarkerOf(FIRST);
    var p, q := m + " Try.", "Do it.";
    var posts := [p, q];
    SplitBodies(posts);
    SplitIsSafe(b, posts);
    var joined := Join(posts, "\n");
    assert JoinUpTo(posts, "\n", 1) == p;
    assert joined == p + "\n" + q;
    SplitOccurs(m);
    NothingToAdd(b, joined, posts, 0);
    assert Occurs(b.cta, joined);
    SplitIsNotHeld(b.cta, posts);
  }

  lemma SplitIsSafe(b: Brief, posts: seq<string>)
    requires b.claims == [FIRST] && posts == [MarkerOf(FIRST) + " Try.", "Do it."]
    ensures AllSafe(b, posts)
  {
    hide Mentions;
    hide MarkerOf;
    hide IsClaimId;
    MarkersDiffer();
    var m := MarkerOf(FIRST);
    MarkerMentions(FIRST);
    assert !IsIdChar(' ');
    MentionsSplit(m, ' ', "Try.");
    assert m + " " + "Try." == m + " Try.";
    NoCapitalC("Try.");
    NoCapitalC("Do it.");
    assert FIRST in b.claims && FIRST.id in AllowedIds(b);
  }

  lemma SplitOccurs(m: string)
    ensures Occurs(m, m + " Try." + "\n" + "Do it.") && Occurs("Try.\nDo it.", m + " Try." + "\n" + "Do it.")
  {
    hide Occurs;
    var cta, text := "Try.\nDo it.", m + " Try." + "\n" + "Do it.";
    OccursInItself(m);
    OccursWithin(m, "", m, " Try.\nDo it.");
    assert "" + m + " Try.\nDo it." == text;
    OccursInItself(cta);
    OccursWithin(cta, m + " ", cta, "");
    assert m + " " + cta + "" == text;
  }

  lemma SplitIsNotHeld(m: string, posts: seq<string>)
    requires m == "Try.\nDo it." && posts == [MarkerOf(FIRST) + " Try.", "Do it."]
    ensures !HeldByThread(m, NumberedThread(posts))
  {
    hide Occurs;
    hide Decimal;
    assert OneParagraph(m) && m[4] == '\n';
    forall k | 0 <= k < 2 ensures '\n' !in NumberedThread(posts)[k] { NoNewlineInPost(k + 1, 2, posts[k]); }
    forall k | 0 <= k < 2 ensures !Occurs(m, NumberedThread(posts)[k]) {
      if Occurs(m, NumberedThread(posts)[k]) { OccurrenceHasChar(m, NumberedThread(posts)[k], '\n'); }
    }
  }

  lemma NoNewlineInPost(number: nat, total: nat, body: string)
    requires '\n' !in body
    ensures '\n' !in Numbered(number, total, body)
  {
    hide Decimal;
    DecimalIsDigits(number);
    DecimalIsDigits(total);
  }
}
