/** What becomes of the model's drafts in `_ground_ollama_drafts` of src/soloscale/content_workspace.py:
    which text ends up where, and what is added to it. */
module GroundingProvenance {
  import opened Wrappers
  import opened PyText
  import opened Sorting
  import opened ClaimText
  import opened XThread
  import opened GroundedText
  import opened GroundedScenes
  import opened Grounding
  import opened StoryboardExact
  import opened GroundingExact

  // ----- channels

  /** Stripping a paragraph appended to a trimmed text leaves that text in front. */
  lemma TrimmedStays(s: string, more: string)
    requires Strip(s) == s
    ensures s <= Strip(s + more)
  {
    hide IsSpace;
    var t := s + more;
    StripIsSlice(s);
    StripIsSlice(t);
    if s != "" {
      assert t[0] == s[0] && t[|s| - 1] == s[|s| - 1];
      assert StripStart(t) == 0 && StripEnd(t) >= |s|;
      assert Strip(t)[..|s|] == t[..|s|] == s;
    }
  }

  lemma {:induction false} AnchoringStarts(b: Brief, result: string, i: nat)
    requires i <= |b.claims| && Strip(result) == result
    ensures result <= AnchorClaims(b, result, i)
    decreases |b.claims| - i
  {
    hide Occurs;
    hide Strip;
    if i < |b.claims| {
      var more := "\n\n" + LineOf(b.claims[i]);
      if Occurs(MarkerOf(b.claims[i]), result) {
        AnchoringStarts(b, result, i + 1);
      } else {
        assert result + "\n\n" + LineOf(b.claims[i]) == result + more;
        TrimmedStays(result, more);
        StripIdempotent(result + more);
        AnchoringStarts(b, Strip(result + more), i + 1);
      }
    }
  }

  /** The grounded channel starts with what the model wrote, stripped. */
  lemma ChannelStartsWithModel(b: Brief, value: string)
    ensures Strip(value) <= Anchored(b, value)
  {
    hide Occurs;
    hide Strip;
    var r := AnchorClaims(b, Strip(value), 0);
    StripIdempotent(value);
    AnchoringStarts(b, Strip(value), 0);
    AnchoredIsTrimmed(b, Strip(value), 0);
    assert r + "\n\n" + b.cta == r + ("\n\n" + b.cta);
    TrimmedStays(r, "\n\n" + b.cta);
  }

  /** These claims are among the brief's from the i-th on, in order, and the text lacks their markers. */
  ghost predicate AreMissing(b: Brief, text: string, i: nat, added: seq<Claim>)
    requires i <= |b.claims|
    decreases |b.claims| - i
  {
    if added == [] then true
    else if i == |b.claims| then false
    else (added[0] == b.claims[i] && !Occurs(MarkerOf(b.claims[i]), text) && AreMissing(b, text, i + 1, added[1..]))
         || AreMissing(b, text, i + 1, added)
  }

  /** What grounding adds to a channel: lines of missing claims in the brief's order, then the call to
      action if it is missing, each as a paragraph. */
  function Paragraphs(claims: seq<Claim>): (s: string) {
    if claims == [] then "" else "\n\n" + LineOf(claims[0]) + Paragraphs(claims[1..])
  }

  lemma {:induction false} AddedAreMissing(b: Brief, start: string, text: string, i: nat)
    requires HasClaimIds(b) && i <= |b.claims| && start <= text && Strip(text) == text
    ensures AreMissing(b, start, i, AddedClaims(b, text, i))
    decreases |b.claims| - i
  {
    hide Occurs;
    hide Strip;
    hide IsClaimId;
    hide MarkerOf;
    if i < |b.claims| {
      var more := "\n\n" + LineOf(b.claims[i]);
      if Occurs(MarkerOf(b.claims[i]), text) {
        AddedAreMissing(b, start, text, i + 1);
      } else {
        assert text + "\n\n" + LineOf(b.claims[i]) == text + more;
        TrimmedStays(text, more);
        StripIdempotent(text + more);
        AddedAreMissing(b, start, Strip(text + more), i + 1);
        var rest := AddedClaims(b, Strip(text + more), i + 1);
        assert ([b.claims[i]] + rest)[1..] == rest;
        if Occurs(MarkerOf(b.claims[i]), start) { OccursInPrefix(MarkerOf(b.claims[i]), start, text); }
      }
    }
  }

  lemma OccursInPrefix(m: string, s: string, t: string)
    requires Occurs(m, s) && s <= t
    ensures Occurs(m, t)
  {
    hide Occurs;
    OccursWithin(m, "", s, t[|s|..]);
    assert "" + s + t[|s|..] == t;
  }

  predicate TrimmedTexts(b: Brief) {
    forall k :: 0 <= k < |b.claims| ==> b.claims[k].text != "" && !IsSpace(b.claims[k].text[|b.claims[k].text| - 1])
  }

  lemma {:induction false} AnchoredParagraphs(b: Brief, text: string, i: nat)
    requires TrimmedTexts(b) && i <= |b.claims| && text != "" && Strip(text) == text
    ensures AnchorClaims(b, text, i) == text + Paragraphs(AddedClaims(b, text, i))
    decreases |b.claims| - i
  {
    hide Occurs;
    hide Strip;
    hide MarkerOf;
    hide IsSpace;
    if i == |b.claims| {
      assert text + "" == text;
    } else if Occurs(MarkerOf(b.claims[i]), text) {
      AnchoredParagraphs(b, text, i + 1);
    } else {
      var line := LineOf(b.claims[i]);
      var next := text + "\n\n" + line;
      ParagraphStays(text, line);
      LineEnds(b.claims[i]);
      StripIdempotent(next);
      AnchoredParagraphs(b, next, i + 1);
      var rest := AddedClaims(b, next, i + 1);
      assert ([b.claims[i]] + rest)[1..] == rest;
      assert next + Paragraphs(rest) == text + ("\n\n" + line + Paragraphs(rest));
    }
  }

  lemma LineEnds(c: Claim)
    requires c.text != ""
    ensures LineOf(c) != "" && LineOf(c)[|LineOf(c)| - 1] == c.text[|c.text| - 1]
  {
    hide MarkerOf;
  }

  lemma ParagraphStays(text: string, line: string)
    requires text != "" && Strip(text) == text
    ensures line != "" && !IsSpace(line[|line| - 1]) ==> Strip(text + "\n\n" + line) == text + "\n\n" + line
  {
    hide IsSpace;
    var t := text + "\n\n" + line;
    StripIsSlice(text);
    if line != "" && !IsSpace(line[|line| - 1]) {
      assert t[0] == text[0] && t[|t| - 1] == line[|line| - 1];
      StripOfTrimmed(t);
    }
  }

  /** For claims and a call to action that do not end with a blank, a channel that says something becomes
      exactly itself, the lines of missing claims and the call to action, if missing, as paragraphs. */
  lemma ChannelIsModelPlusMissing(b: Brief, value: string)
    requires HasClaimIds(b) && TrimmedTexts(b) && b.cta != "" && !IsSpace(b.cta[|b.cta| - 1]) && Strip(value) != ""
    ensures var added := AddedClaims(b, Strip(value), 0);
            var body := Strip(value) + Paragraphs(added);
            && AreMissing(b, Strip(value), 0, added)
            && Anchored(b, value) == body + if Occurs(b.cta, body) then "" else "\n\n" + b.cta
  {
    hide Occurs;
    hide Strip;
    hide IsSpace;
    hide AnchorClaims;
    hide AddedClaims;
    hide AreMissing;
    hide IsClaimId;
    StripIdempotent(value);
    AddedAreMissing(b, Strip(value), Strip(value), 0);
    AnchoredParagraphs(b, Strip(value), 0);
    AnchoredIsTrimmed(b, Strip(value), 0);
    var body := Strip(value) + Paragraphs(AddedClaims(b, Strip(value), 0));
    ParagraphStays(body, b.cta);
    assert body + "\n\n" + b.cta == body + ("\n\n" + b.cta);
    assert body + "" == body;
  }

  // ----- the thread

  function BodiesOf(posts: seq<string>): (bodies: seq<string>) {
    seq(|posts|, k requires 0 <= k < |posts| => BodyOf(posts[k]))
  }

  function NonEmpty(texts: seq<string>): (r: seq<string>) {
    if texts == [] then []
    else NonEmpty(texts[..|texts| - 1]) + if texts[|texts| - 1] == "" then [] else [texts[|texts| - 1]]
  }

  lemma {:induction false} BodiesFromIs(posts: seq<string>, i: nat)
    requires i <= |posts|
    ensures BodiesFrom(posts, 0, []) == BodiesFrom(posts, i, Dedupe(NonEmpty(BodiesOf(posts[..i]))))
    decreases i
  {
    hide BodyOf;
    if i == 0 {
      assert BodiesOf(posts[..0]) == [];
      assert NonEmpty([]) == [] && Dedupe<string>([]) == [];
    } else {
      BodiesFromIs(posts, i - 1);
      var before, body := BodiesOf(posts[..i - 1]), BodyOf(posts[i - 1]);
      assert BodiesOf(posts[..i]) == before + [body];
      assert (before + [body])[..i - 1] == before;
      var kept := NonEmpty(before);
      DedupeMembers(kept);
      if body != "" {
        assert (kept + [body])[..|kept|] == kept;
        DedupeMember(kept, body);
      } else {
        assert kept + [] == kept;
      }
    }
  }

  /** The model's posts without their numbering, without empty ones and repetitions, in order. */
  lemma BodiesAreDistinctModelBodies(posts: seq<string>)
    ensures BodiesFrom(posts, 0, []) == Dedupe(NonEmpty(BodiesOf(posts)))
  {
    BodiesFromIs(posts, |posts|);
    assert posts[..|posts|] == posts;
  }

  /** Numbering a trimmed body and taking the body of the post gives it back. */
  lemma BodyOfNumbered(number: nat, total: nat, body: string)
    requires body != "" && Strip(body) == body
    ensures BodyOf(Numbered(number, total, body)) == body
  {
    hide IsSpace;
    hide Decimal;
    var post := Numbered(number, total, body);
    var a, t := |Decimal(number)|, |Decimal(number)| + 1 + |Decimal(total)|;
    NumberedIsTrimmed(number, total, body);
    DecimalLength(number);
    DecimalLength(total);
    NumberedPrefix(number, total, body);
    assert post[t + 1..] == body;
  }

  /** One side of a numbering: the word, in either case, or digits. */
  predicate IsPart(s: string, i: nat, j: nat, upper: string, lower: string)
    requires |upper| == |lower|
  {
    && i < j <= |s|
    && ((j == i + |upper| && forall k :: 0 <= k < |upper| ==> s[i + k] == upper[k] || s[i + k] == lower[k])
        || forall k :: i <= k < j ==> IsDigit(s[k]))
  }

  /** N or digits, a slash, TOTAL or digits, and then blanks up to the body. */
  predicate IsNumbering(s: string, a: nat, t: nat, n: nat) {
    && IsPart(s, 0, a, "N", "n") && a < |s| && s[a] == '/'
    && IsPart(s, a + 1, t, "TOTAL", "total") && t < n <= |s|
    && (forall k :: t <= k < n ==> IsSpace(s[k])) && (n < |s| ==> !IsSpace(s[n]))
  }

  lemma PartEnds(s: string, i: nat, j: nat, upper: string, lower: string)
    requires |upper| == |lower| > 0 && !IsDigit(upper[0]) && !IsDigit(lower[0])
    requires IsPart(s, i, j, upper, lower) && j < |s| && !IsDigit(s[j])
    ensures WordOrDigits(s, i, upper, lower) == j
  {
    if forall k :: i <= k < j ==> IsDigit(s[k]) {
      assert s[i + 0] != upper[0] && s[i + 0] != lower[0];
      DigitsEndAt(s, i, j);
    }
  }

  lemma PartFound(s: string, i: nat, upper: string, lower: string)
    requires i <= |s| && |upper| == |lower| > 0
    ensures var j := WordOrDigits(s, i, upper, lower); j > i ==> IsPart(s, i, j, upper, lower)
  {
  }

  lemma BlanksEnd(s: string, i: nat, n: nat)
    requires i <= n <= |s| && (forall k :: i <= k < n ==> IsSpace(s[k])) && (n < |s| ==> !IsSpace(s[n]))
    ensures SkipBlanks(s, i) == n
  {
    SkipBlanksCorrect(s, i);
  }

  lemma NumberingEnds(s: string, a: nat, t: nat, n: nat)
    requires IsNumbering(s, a, t, n)
    ensures PrefixLength(s) == n
  {
    PartEnds(s, 0, a, "N", "n");
    PartEnds(s, a + 1, t, "TOTAL", "total");
    BlanksEnd(s, t, n);
  }

  /** What is cut off in front of a body is its numbering, if it has one. */
  lemma PrefixIsNumbering(s: string)
    ensures forall a: nat, t: nat, n: nat :: IsNumbering(s, a, t, n) ==> PrefixLength(s) == n
    ensures PrefixLength(s) > 0 ==> exists a, t :: IsNumbering(s, a, t, PrefixLength(s))
  {
    hide IsPart;
    hide WordOrDigits;
    hide SkipBlanks;
    forall a: nat, t: nat, n: nat | IsNumbering(s, a, t, n) ensures PrefixLength(s) == n {
      NumberingEnds(s, a, t, n);
    }
    if PrefixLength(s) > 0 {
      var a := WordOrDigits(s, 0, "N", "n");
      var t := WordOrDigits(s, a + 1, "TOTAL", "total");
      PartFound(s, 0, "N", "n");
      PartFound(s, a + 1, "TOTAL", "total");
      SkipBlanksCorrect(s, t);
      assert IsNumbering(s, a, t, PrefixLength(s));
    }
  }

  lemma NumberedIsTrimmed(number: nat, total: nat, body: string)
    requires body != "" && Strip(body) == body
    ensures Strip(Numbered(number, total, body)) == Numbered(number, total, body)
  {
    hide Decimal;
    var post := Numbered(number, total, body);
    DecimalIsDigits(number);
    DecimalLength(number);
    StripIsSlice(body);
    assert post[0] == Decimal(number)[0] && IsDigit(post[0]) && post[|post| - 1] == body[|body| - 1];
    StripOfTrimmed(post);
  }

  lemma DigitsEndAt(s: string, i: nat, j: nat)
    requires i <= j < |s| && (forall k :: i <= k < j ==> IsDigit(s[k])) && !IsDigit(s[j])
    ensures DigitsEnd(s, i) == j
  {
  }

  /** Digits, a slash, digits and one blank before something else. */
  predicate HasPrefix(post: string, a: nat, t: nat) {
    && 0 < a && a + 1 < t && t + 1 < |post|
    && (forall k :: 0 <= k < a ==> IsDigit(post[k])) && post[a] == '/'
    && (forall k :: a + 1 <= k < t ==> IsDigit(post[k])) && post[t] == ' ' && !IsSpace(post[t + 1])
  }

  lemma PrefixFound(post: string, a: nat, t: nat)
    requires HasPrefix(post, a, t)
    ensures PrefixLength(post) == t + 1
  {
    hide IsSpace;
    hide SkipBlanks;
    DigitsEndAt(post, 0, a);
    DigitsEndAt(post, a + 1, t);
    NoKeyword(post, 0, "N", "n");
    NoKeyword(post, a + 1, "TOTAL", "total");
    OneBlank(post, t);
    hide WordOrDigits;
  }

  lemma NumberedPrefix(number: nat, total: nat, body: string)
    requires body != "" && Strip(body) == body
    ensures PrefixLength(Numbered(number, total, body)) == |Decimal(number)| + 1 + |Decimal(total)| + 1
  {
    hide Decimal;
    hide IsSpace;
    hide PrefixLength;
    var post := Numbered(number, total, body);
    var a := |Decimal(number)|;
    var t := a + 1 + |Decimal(total)|;
    DecimalIsDigits(number);
    DecimalIsDigits(total);
    DecimalLength(number);
    DecimalLength(total);
    StripIsSlice(body);
    forall k | 0 <= k < a ensures IsDigit(post[k]) { assert post[k] == Decimal(number)[k]; }
    forall k | a + 1 <= k < t ensures IsDigit(post[k]) { assert post[k] == Decimal(total)[k - a - 1]; }
    assert post[a] == '/' && post[t] == ' ' && post[t + 1] == body[0];
    PrefixFound(post, a, t);
  }

  lemma OneBlank(s: string, t: nat)
    requires t + 1 < |s| && s[t] == ' ' && !IsSpace(s[t + 1])
    ensures SkipBlanks(s, t) == t + 1
  {
  }

  lemma NoKeyword(s: string, i: nat, upper: string, lower: string)
    requires i < |s| && IsDigit(s[i]) && |upper| == |lower| > 0 && !IsDigit(upper[0]) && !IsDigit(lower[0])
    ensures WordOrDigits(s, i, upper, lower) == DigitsEnd(s, i)
  {
    assert s[i + 0] != upper[0] && s[i + 0] != lower[0];
  }

  lemma {:induction false} LinesAfterBodies(b: Brief, text: string, i: nat, bodies: seq<string>)
    requires i <= |b.claims|
    ensures bodies <= AddLines(b, text, i, bodies)
    ensures forall k :: |bodies| <= k < |AddLines(b, text, i, bodies)| ==> IsMissingLine(b, text, AddLines(b, text, i, bodies)[k])
    decreases |b.claims| - i
  {
    hide Occurs;
    hide LineOf;
    hide MarkerOf;
    if i < |b.claims| {
      var c := b.claims[i];
      if Occurs(MarkerOf(c), text) {
        LinesAfterBodies(b, text, i + 1, bodies);
      } else {
        LinesAfterBodies(b, text, i + 1, bodies + [LineOf(c)]);
        var r := AddLines(b, text, i, bodies);
        assert bodies <= r && r[|bodies|] == LineOf(c);
        assert c in b.claims;
      }
    }
  }

  /** The line of a claim whose marker the text lacks. */
  ghost predicate IsMissingLine(b: Brief, text: string, line: string) {
    exists c :: c in b.claims && line == LineOf(c) && !Occurs(MarkerOf(c), text)
  }

  /** The thread's bodies: the model's, then lines of claims they lack, then possibly the call to action. */
  ghost predicate ContinuesThread(b: Brief, posts: seq<string>, bodies: seq<string>) {
    var model := Dedupe(NonEmpty(BodiesOf(posts)));
    && model <= bodies
    && forall k :: |model| <= k < |bodies| ==>
         IsMissingLine(b, Join(model, "\n"), bodies[k]) || (k == |bodies| - 1 && bodies[k] == b.cta)
  }

  lemma ThreadStartsWithModel(b: Brief, posts: seq<string>)
    ensures ContinuesThread(b, posts, ThreadBodies(b, posts))
  {
    hide Occurs;
    hide BodiesFrom;
    hide IsMissingLine;
    hide JoinUpTo;
    BodiesAreDistinctModelBodies(posts);
    var model := BodiesFrom(posts, 0, []);
    LinesAfterBodies(b, Join(model, "\n"), 0, model);
  }

  // ----- the storyboard

  /** A scene of the model after grounding: its other texts and claim ids as they were, its on-screen text
      as it was or the line of a claim it is the first to anchor; ids and times are those of its place. */
  ghost predicate IsModelScene(b: Brief, scenes: seq<Scene>, k: nat, r: Scene)
    requires k < |scenes|
  {
    var s := scenes[k];
    && r.purpose == s.purpose && r.visual == s.visual && r.voiceover == s.voiceover && r.claimIds == s.claimIds
    && (r.onScreen == s.onScreen || exists c :: c in b.claims && AnchorOf(scenes, c) == k && r.onScreen == LineOf(c))
  }

  /** A scene added for a claim that no scene of the model anchors. */
  ghost predicate IsEvidenceScene(b: Brief, scenes: seq<Scene>, r: Scene) {
    exists c, d :: c in b.claims && d in b.claims && c.id == d.id && AnchorOf(scenes, c) == |scenes|
      && r.purpose == "Evidence anchor" && r.voiceover == c.text && r.onScreen == LineOf(d) && r.claimIds == [c.id]
  }

  ghost predicate IsCtaScene(b: Brief, r: Scene) {
    r.purpose == "CTA" && r.voiceover == b.cta && r.onScreen == b.cta && r.claimIds == []
  }

  ghost predicate ContinuesStoryboard(b: Brief, scenes: seq<Scene>, r: seq<Scene>) {
    && |scenes| <= |r|
    && (forall k :: 0 <= k < |scenes| ==> IsModelScene(b, scenes, k, r[k]))
    && (forall k :: |scenes| <= k < |r| ==> IsEvidenceScene(b, scenes, r[k]) || (k == |r| - 1 && IsCtaScene(b, r[k])))
    && (forall k :: 0 <= k < |r| ==> r[k].start == 6 * k && r[k].end == 6 * k + 6 && r[k].id == "SCENE-" + TwoDigits(k + 1))
  }

  lemma ModelSceneStays(b: Brief, scenes: seq<Scene>, k: nat)
    requires HasClaimIds(b) && k < |scenes|
    ensures k < |AnchorScenes(b, scenes, 0)| && IsModelScene(b, scenes, k, AnchorScenes(b, scenes, 0)[k])
  {
    hide AnchorScenes;
    hide MarkAll;
    hide AnchoredAt;
    hide LineOf;
    hide IsClaimId;
    var claims := AnchoredAt(scenes, b.claims, k, 0);
    SceneByScene(b, scenes, 0, k);
    MarkAllForm(scenes[k], claims);
    AnchoredHaveIds(b, scenes, k, 0);
  }

  lemma AddedSceneIsEvidence(b: Brief, scenes: seq<Scene>, n: nat)
    requires |scenes| <= n < |AnchorScenes(b, scenes, 0)|
    ensures IsEvidenceScene(b, scenes, AnchorScenes(b, scenes, 0)[n])
  {
    hide AnchorScenes;
    hide MarkAll;
    hide LineOf;
    hide FirstAnchor;
    AddedScenes(b, scenes, 0, n);
    var s := AnchorScenes(b, scenes, 0)[n];
    var id :| FirstAnchor(scenes, id, 0) == |scenes| && WithId(b.claims, id, 0) != [] && s == AddedScene(WithId(b.claims, id, 0));
    var same := WithId(b.claims, id, 0);
    var c := same[0];
    assert c in same;
    MarkAllForm(EvidenceScene(c), same[1..]);
    if s == EvidenceScene(c) {
      assert s.onScreen == LineOf(c);
    } else {
      var d :| d in same[1..] && s == EvidenceScene(c).(onScreen := LineOf(d));
      assert d in same;
    }
  }

  lemma StoryboardStartsWithModel(b: Brief, scenes: seq<Scene>)
    requires HasClaimIds(b)
    ensures ContinuesStoryboard(b, scenes, Normalized(GroundedStoryboard(b, scenes)))
  {
    hide AnchorScenes;
    hide Occurs;
    hide StoryboardText;
    hide TwoDigits;
    hide LineOf;
    hide FirstAnchor;
    hide IsClaimId;
    GrowsOnly(b, scenes, 0);
    var marked := AnchorScenes(b, scenes, 0);
    var r := Normalized(GroundedStoryboard(b, scenes));
    forall k | 0 <= k < |scenes| ensures IsModelScene(b, scenes, k, r[k]) { ModelSceneStays(b, scenes, k); }
    forall k | |scenes| <= k < |r| ensures IsEvidenceScene(b, scenes, r[k]) || (k == |r| - 1 && IsCtaScene(b, r[k])) {
      if k < |marked| { AddedSceneIsEvidence(b, scenes, k); }
    }
  }

  // ----- the whole draft set

  lemma NewlineIsStripped(s: string)
    requires Strip(s) == s
    ensures Strip(s + "\n") == s
  {
    hide IsSpace;
    var t := s + "\n";
    StripIsSlice(s);
    StripIsSlice(t);
    assert IsSpace('\n') by { NewlineIsSpace(); }
    assert t[|s|] == '\n';
    if s != "" {
      assert t[0] == s[0] && t[|s| - 1] == s[|s| - 1];
      assert StripStart(t) == 0 && StripEnd(t) == |s|;
    }
  }

  lemma NewlineIsSpace()
    ensures IsSpace('\n')
  {
  }

  /** The post is the model's, stripped, when it can stay, and else the first claim's text with its bracketed
      marker and, when it fits, the call to action. */
  ghost predicate IsPostOf(b: Brief, value: string, post: string)
    requires b.claims != []
  {
    var c := b.claims[0];
    var body := c.text + "\n[" + MarkerOf(c) + "]";
    var kept := Strip(value) != "" && Occurs(MarkerOf(c), Strip(value)) && |Strip(value)| <= 280;
    post == if kept then Strip(value) else Strip(if |body + "\n\n" + b.cta| <= 280 then body + "\n\n" + b.cta else body)
  }

  lemma PostComesFromModel(b: Brief, value: string)
    requires b.claims != []
    ensures IsPostOf(b, value, GroundedXPost(b, value))
  {
    hide Strip;
    hide Occurs;
    var chosen := if PostHasCta(b) then PostBody(b) + "\n\n" + b.cta else PostBody(b);
    StripIdempotent(chosen);
    NewlineIsStripped(Strip(chosen));
  }

  /** Each draft is made of the model's draft of the same name. */
  lemma DraftsComeFromModel(b: Brief, t: Drafts)
    requires HasClaimIds(b) && b.claims != [] && Ground(b, t).Ok?
    ensures var d := Ground(b, t).value;
            && Strip(t.canonicalStory) <= d.canonicalStory && Strip(t.linkedin) <= d.linkedin && Strip(t.blog) <= d.blog
            && Strip(t.youtubeScript) <= d.youtubeScript && Strip(t.videoScript) <= d.videoScript
            && (exists bodies :: ContinuesThread(b, t.xThread, bodies) && d.xThread == NumberedThread(bodies))
            && IsPostOf(b, t.xPost, d.xPost)
            && ContinuesStoryboard(b, t.storyboard, d.storyboard)
  {
    hide Strip;
    hide Anchored;
    hide ThreadBodies;
    hide ContinuesThread;
    hide ContinuesStoryboard;
    hide NumberedThread;
    hide GroundedStoryboard;
    hide Normalized;
    hide FitsSchema;
    hide NamesKnownClaims;
    hide GroundedXPost;
    hide IsPostOf;
    hide Occurs;
    hide IsClaimId;
    PostComesFromModel(b, t.xPost);
    ChannelStartsWithModel(b, t.canonicalStory);
    ChannelStartsWithModel(b, t.linkedin);
    ChannelStartsWithModel(b, t.blog);
    ChannelStartsWithModel(b, t.youtubeScript);
    ChannelStartsWithModel(b, t.videoScript);
    ThreadStartsWithModel(b, t.xThread);
    StoryboardStartsWithModel(b, t.storyboard);
  }

  /** Grounding refuses drafts exactly when they name an unknown claim, in some text or scene, or the
      result would have too many posts or scenes or leave the schema's limits. */
  lemma GroundOkIff(b: Brief, t: Drafts)
    requires b.claims != []
    ensures var known := AllKnown(b, t.storyboard) && forall k :: 0 <= k < |RawTexts(t)| ==> Mentions(RawTexts(t)[k]) <= AllowedIds(b);
            var posts, scenes := |ThreadBodies(b, t.xThread)|, |GroundedStoryboard(b, t.storyboard)|;
            && (Ground(b, t) == Err(UnknownClaimId) <==> !known)
            && (Ground(b, t) == Err(TooManyPosts) <==> known && posts > 12)
            && (Ground(b, t) == Err(TooManyScenes) <==> known && posts <= 12 && scenes > 12)
            && (Ground(b, t).Ok? <==> known && posts <= 12 && scenes <= 12 && FitsSchema(GroundedDrafts(b, t)))
  {
    hide Mentions;
    hide AllKnown;
    hide RawTexts;
    hide JoinUpTo;
    hide GroundedDrafts;
    hide FitsSchema;
    hide ThreadBodies;
    hide GroundedStoryboard;
    var texts := RawTexts(t);
    MentionsOfJoin(texts, "\n", |texts|);
    if forall k :: 0 <= k < |texts| ==> Mentions(texts[k]) <= AllowedIds(b) {
      forall id | id in Mentions(Join(texts, "\n")) ensures id in AllowedIds(b) {
        var k :| 0 <= k < |texts| && id in Mentions(texts[k]);
      }
    }
    if Mentions(Join(texts, "\n")) <= AllowedIds(b) {
      forall k, id | 0 <= k < |texts| && id in Mentions(texts[k]) ensures id in AllowedIds(b) {
        assert MentionedIn(id, texts, |texts|);
      }
    }
  }
}
