/** Exactly when the drafts grounded by src/soloscale/content_workspace.py pass its validator, part by part. */
module GroundingExact {
  import opened PyText
  import opened ClaimText
  import opened XThread
  import opened GroundedText
  import opened GroundedScenes
  import opened Grounding
  import opened StoryboardExact

  // ----- one channel, exactly

  /** The claims whose lines the channel gets, from the i-th on. */
  function AddedClaims(b: Brief, result: string, i: nat): (r: seq<Claim>)
    requires i <= |b.claims|
    decreases |b.claims| - i
  {
    if i == |b.claims| then []
    else if Occurs(MarkerOf(b.claims[i]), result) then AddedClaims(b, result, i + 1)
    else [b.claims[i]] + AddedClaims(b, Strip(result + "\n\n" + LineOf(b.claims[i])), i + 1)
  }

  /** Stripping changes no id a text names: blanks are no part of ids. */
  lemma MentionsOfStripExact(s: string)
    ensures Mentions(Strip(s)) == Mentions(s)
  {
    hide IsClaimId;
    hide Strip;
    MentionsOfStrip(s);
    forall id | id in Mentions(s) ensures id in Mentions(Strip(s)) {
      var i :| 0 <= i < |s| && IsClaimId(IdAt(s, i)) && id == IdAt(s, i);
      ClaimIdLength(id);
      IdSurvivesStrip(s, i);
    }
  }

  lemma IdSurvivesStrip(s: string, i: nat)
    requires i + ID_LENGTH <= |s| && IsClaimId(s[i..i + ID_LENGTH])
    ensures s[i..i + ID_LENGTH] in Mentions(Strip(s))
  {
    hide IsClaimId;
    hide IsIdChar;
    hide IsSpace;
    hide StripStart;
    hide StripEnd;
    hide Mentions;
    var id, a, e := s[i..i + ID_LENGTH], StripStart(s), StripEnd(s);
    var first, last := s[i], s[i + ID_LENGTH - 1];
    StripIsSlice(s);
    assert first == id[0] && last == id[ID_LENGTH - 1];
    IdCharsOf(id, 0);
    IdCharsOf(id, ID_LENGTH - 1);
    BlankIsNoIdChar(first);
    BlankIsNoIdChar(last);
    assert a <= i && i + ID_LENGTH <= e;
    SliceOfSlice(s, a, e, i - a, i - a + ID_LENGTH);
    IsMention(Strip(s), i - a);
  }

  lemma BlankIsNoIdChar(c: char)
    ensures IsIdChar(c) ==> !IsSpace(c)
  {
  }

  lemma {:induction false} AnchoredMarkers(b: Brief, result: string, i: nat)
    requires HasClaimIds(b) && i <= |b.claims| && Marked(b, result, i)
    ensures Marked(b, AnchorClaims(b, result, i), |b.claims|)
    decreases |b.claims| - i
  {
    hide Occurs;
    hide Strip;
    hide MarkerOf;
    hide LineOf;
    hide IsClaimId;
    if i < |b.claims| {
      var marker, line := MarkerOf(b.claims[i]), LineOf(b.claims[i]);
      if Occurs(marker, result) {
        AnchoredMarkers(b, result, i + 1);
      } else {
        AppendKeepsMarkers(b, result, i, line);
        LineHasMarker(b.claims[i]);
        MarkerEndsWithSomething(b.claims[i]);
        OccursAcrossGap(marker, result, "\n\n", line);
        StripKeepsOccurrence(marker, result + "\n\n" + line);
        AnchoredMarkers(b, Strip(result + "\n\n" + line), i + 1);
      }
    }
  }

  ghost predicate AllTextsKnown(claims: seq<Claim>, ids: set<string>) {
    forall c :: c in claims ==> Mentions(c.text) <= ids
  }

  lemma {:induction false} AnchoredMentionsIff(b: Brief, result: string, i: nat)
    requires HasClaimIds(b) && i <= |b.claims|
    ensures Mentions(AnchorClaims(b, result, i)) <= AllowedIds(b)
            <==> Mentions(result) <= AllowedIds(b) && AllTextsKnown(AddedClaims(b, result, i), AllowedIds(b))
    decreases |b.claims| - i
  {
    hide Occurs;
    hide Strip;
    hide MarkerOf;
    hide LineOf;
    hide IsClaimId;
    hide Mentions;
    if i < |b.claims| {
      var c := b.claims[i];
      if Occurs(MarkerOf(c), result) {
        AnchoredMentionsIff(b, result, i + 1);
      } else {
        var next := result + "\n\n" + LineOf(c);
        MentionsOfStripExact(next);
        MentionsAcrossGap(result, "\n\n", LineOf(c));
        LineMentions(c);
        assert c.id in AllowedIds(b);
        AnchoredMentionsIff(b, Strip(next), i + 1);
      }
    }
  }

  lemma {:induction false} AnchoredIsTrimmed(b: Brief, result: string, i: nat)
    requires i <= |b.claims| && Strip(result) == result
    ensures Strip(AnchorClaims(b, result, i)) == AnchorClaims(b, result, i)
    decreases |b.claims| - i
  {
    hide Occurs;
    hide Strip;
    if i < |b.claims| {
      if Occurs(MarkerOf(b.claims[i]), result) {
        AnchoredIsTrimmed(b, result, i + 1);
      } else {
        StripIdempotent(result + "\n\n" + LineOf(b.claims[i]));
        AnchoredIsTrimmed(b, Strip(result + "\n\n" + LineOf(b.claims[i])), i + 1);
      }
    }
  }

  /** A text without an empty line in it, and without a newline at either end. */
  predicate OneParagraph(m: string) {
    && m != "" && m[0] != '\n' && m[|m| - 1] != '\n'
    && forall k :: 0 < k < |m| && m[k] == '\n' ==> m[k - 1] != '\n'
  }

  /** A paragraph is never found across an empty line. */
  lemma OccursAcrossEmptyLine(m: string, a: string, b: string)
    requires OneParagraph(m)
    ensures Occurs(m, a + "\n\n" + b) <==> Occurs(m, a) || Occurs(m, b)
  {
    hide Occurs;
    var s := a + "\n\n" + b;
    if Occurs(m, a) {
      OccursWithin(m, "", a, "\n\n" + b);
      assert "" + a + ("\n\n" + b) == s;
    }
    if Occurs(m, b) {
      OccursWithin(m, a + "\n\n", b, "");
      assert a + "\n\n" + b + "" == s;
    }
    if Occurs(m, s) { OccursOnOneSide(m, a, b); }
  }

  lemma OccursOnOneSide(m: string, a: string, b: string)
    requires OneParagraph(m) && Occurs(m, a + "\n\n" + b)
    ensures Occurs(m, a) || Occurs(m, b)
  {
    var s, n := a + "\n\n" + b, |a|;
    var i :| 0 <= i <= |s| && OccursAt(s, m, i);
    assert s[n] == '\n' && s[n + 1] == '\n';
    forall k | 0 <= k < |m| ensures m[k] == s[i + k] { assert s[i..i + |m|][k] == s[i + k]; }
    if i + |m| <= n {
      assert a[i..i + |m|] == m;
      OccursFrom(m, a, i);
    } else {
      if i <= n { NewlinesInside(s, m, i, n); }
      assert i != n + 1;
      SuffixSlice(a + "\n\n", b, i - n - 2, i - n - 2 + |m|);
      OccursFrom(m, b, i - n - 2);
    }
  }

  /** What covers the first of two adjacent newlines of s is no paragraph. */
  lemma NewlinesInside(s: string, m: string, i: nat, n: nat)
    requires i <= n < i + |m| <= |s| && n + 1 < |s| && (forall k :: 0 <= k < |m| ==> m[k] == s[i + k])
    requires s[n] == '\n' && s[n + 1] == '\n'
    ensures !OneParagraph(m)
  {
    assert m[n - i] == '\n';
    if n - i + 1 < |m| { assert m[n - i + 1] == '\n'; }
  }

  lemma {:induction false} ParagraphInJoin(m: string, texts: seq<string>, i: nat)
    requires OneParagraph(m) && i <= |texts|
    ensures Occurs(m, JoinUpTo(texts, "\n\n", i)) <==> OccursIn(m, texts, i)
  {
    hide Occurs;
    hide OneParagraph;
    if i == 0 {
      assert m != "" by { ParagraphIsSomething(m); }
      OccursInNothing(m);
    } else {
      ParagraphInJoin(m, texts, i - 1);
      if i > 1 { OccursAcrossEmptyLine(m, JoinUpTo(texts, "\n\n", i - 1), texts[i - 1]); }
    }
  }

  lemma ParagraphIsSomething(m: string)
    requires OneParagraph(m)
    ensures m != ""
  {
  }

  /** The ending m of r and an empty line and m survives stripping: it does not end with a blank, or it is
      no single paragraph and found again further to the left. */
  predicate EndSurvives(r: string, m: string)
    requires m != ""
  {
    !IsSpace(m[|m| - 1]) || (!OneParagraph(m) && Occurs(m, Strip(r + "\n\n" + m)))
  }

  /** After a non-empty trimmed text, an ending survives stripping exactly when it should. */
  lemma EndSurvivesIff(r: string, m: string)
    requires r != "" && Strip(r) == r && m != "" && !Occurs(m, r)
    ensures Occurs(m, Strip(r + "\n\n" + m)) <==> EndSurvives(r, m)
  {
    hide IsSpace;
    hide Occurs;
    hide OneParagraph;
    var t := r + "\n\n" + m;
    StripIsSlice(r);
    StripIsSlice(t);
    assert t[0] == r[0] && t[|t| - 1] == m[|m| - 1];
    var a, e := StripStart(t), StripEnd(t);
    assert a == 0;
    if !IsSpace(m[|m| - 1]) {
      assert e == |t|;
      OccursInItself(m);
      OccursWithin(m, r + "\n\n", m, "");
      assert r + "\n\n" + m + "" == t;
      assert Strip(t) == t;
    } else if OneParagraph(m) {
      assert e < |t|;
      CutEnding(r, m, e);
    }
  }

  /** A paragraph that is not in r is not in what is left of r, an empty line and the paragraph when its
      end is cut off. */
  lemma CutEnding(r: string, m: string, e: nat)
    requires OneParagraph(m) && !Occurs(m, r) && e < |r| + 2 + |m|
    ensures !Occurs(m, (r + "\n\n" + m)[..e])
  {
    hide Occurs;
    hide OneParagraph;
    var t := r + "\n\n" + m;
    if e >= |r| + 2 {
      var cut := m[..e - |r| - 2];
      assert t[..e] == r + "\n\n" + cut;
      OccursAcrossEmptyLine(m, r, cut);
      TooLong(m, cut);
    } else if Occurs(m, t[..e]) {
      OccursWithin(m, "", t[..e], t[e..|r| + 2]);
      assert "" + t[..e] + t[e..|r| + 2] == r + "\n\n" + "";
      OccursAcrossEmptyLine(m, r, "");
      ParagraphIsSomething(m);
      OccursInNothing(m);
    }
  }

  lemma TooLong(m: string, s: string)
    requires |m| > |s|
    ensures !Occurs(m, s)
  {
  }

  /** The lines the channel needs name known claims only, and the call to action is there already, or it
      names known claims only and survives stripping. */
  ghost predicate ChannelCanBeGrounded(b: Brief, value: string)
    requires b.cta != ""
  {
    var r := AnchorClaims(b, Strip(value), 0);
    && AllTextsKnown(AddedClaims(b, Strip(value), 0), AllowedIds(b))
    && (Occurs(b.cta, r) || (Mentions(b.cta) <= AllowedIds(b) && EndSurvives(r, b.cta)))
  }

  /** When exactly a grounded channel is valid, for any claim texts and call to action. */
  lemma ChannelValidIff(b: Brief, value: string)
    requires HasClaimIds(b) && b.claims != [] && b.cta != ""
    ensures ValidArtifact(b, Anchored(b, value)) <==> Mentions(value) <= AllowedIds(b) && ChannelCanBeGrounded(b, value)
  {
    hide Occurs;
    hide Mentions;
    hide Strip;
    hide IsSpace;
    hide MarkerOf;
    hide IsClaimId;
    hide AnchorClaims;
    hide AddedClaims;
    hide EndSurvives;
    var r := AnchorClaims(b, Strip(value), 0);
    var final := Anchored(b, value);
    MentionsOfStripExact(value);
    AnchoredMarkers(b, Strip(value), 0);
    AnchoredMentionsIff(b, Strip(value), 0);
    StripIdempotent(value);
    AnchoredIsTrimmed(b, Strip(value), 0);
    assert r != "" by { MarkerIsSomething(b.claims[0]); NotInNothing(MarkerOf(b.claims[0]), r); }
    if !Occurs(b.cta, r) {
      AppendKeepsMarkers(b, r, |b.claims|, b.cta);
      EndSurvivesIff(r, b.cta);
      MentionsOfStripExact(r + "\n\n" + b.cta);
      MentionsAcrossGap(r, "\n\n", b.cta);
    }
    assert Marked(b, final, |b.claims|);
    if Mentions(final) <= AllowedIds(b) { GroundedIsComplete(b, final); }
  }

  lemma NotInNothing(m: string, s: string)
    requires m != "" && Occurs(m, s)
    ensures s != ""
  {
  }

  // ----- the X thread, exactly

  /** The claims whose lines the thread gets, from the i-th on. */
  function AddedToThread(b: Brief, text: string, i: nat): (r: seq<Claim>)
    requires i <= |b.claims|
    decreases |b.claims| - i
  {
    if i == |b.claims| then []
    else (if Occurs(MarkerOf(b.claims[i]), text) then [] else [b.claims[i]]) + AddedToThread(b, text, i + 1)
  }

  lemma AllSafeSnoc(b: Brief, texts: seq<string>, last: string)
    ensures AllSafe(b, texts + [last]) <==> AllSafe(b, texts) && Mentions(last) <= AllowedIds(b)
  {
    hide Mentions;
    var more := texts + [last];
    assert more[|texts|] == last;
    if AllSafe(b, more) {
      forall k | 0 <= k < |texts| ensures Mentions(texts[k]) <= AllowedIds(b) { assert more[k] == texts[k]; }
    }
  }

  lemma {:induction false} AddedLinesSafeIff(b: Brief, text: string, i: nat, bodies: seq<string>)
    requires HasClaimIds(b) && i <= |b.claims|
    ensures AllSafe(b, AddLines(b, text, i, bodies))
            <==> AllSafe(b, bodies) && AllTextsKnown(AddedToThread(b, text, i), AllowedIds(b))
    decreases |b.claims| - i
  {
    hide Occurs;
    hide Mentions;
    hide MarkerOf;
    hide LineOf;
    hide IsClaimId;
    hide AllSafe;
    if i < |b.claims| {
      var c := b.claims[i];
      var added := if Occurs(MarkerOf(c), text) then bodies else bodies + [LineOf(c)];
      AddedLinesSafeIff(b, text, i + 1, added);
      if !Occurs(MarkerOf(c), text) {
        AllSafeSnoc(b, bodies, LineOf(c));
        LineMentions(c);
        assert c.id in AllowedIds(b);
      }
    }
  }

  lemma {:induction false} AddedLinesMarked(b: Brief, start: seq<string>, i: nat, bodies: seq<string>)
    requires HasClaimIds(b) && i <= |b.claims| && start <= bodies && MarkersIn(b, bodies, i)
    ensures MarkersIn(b, AddLines(b, Join(start, "\n"), i, bodies), |b.claims|)
    decreases |b.claims| - i
  {
    hide Occurs;
    hide OccursIn;
    hide MarkerOf;
    hide LineOf;
    hide IsClaimId;
    if i < |b.claims| {
      var marker, line := MarkerOf(b.claims[i]), LineOf(b.claims[i]);
      LineHasMarker(b.claims[i]);
      MarkerEndsWithSomething(b.claims[i]);
      OccursInJoin(marker, start, "\n", |start|);
      var next := if Occurs(marker, Join(start, "\n")) then bodies else bodies + [line];
      if Occurs(marker, Join(start, "\n")) {
        OccursInMore(marker, start, bodies);
      } else {
        OccursInLast(marker, bodies, line);
        forall k | 0 <= k < i ensures OccursIn(MarkerOf(b.claims[k]), next, |next|) { OccursInMore(MarkerOf(b.claims[k]), bodies, next); }
      }
      AddedLinesMarked(b, start, i + 1, next);
    }
  }

  /** A numbered thread is valid exactly when its bodies are safe and the call to action is found in it,
      for bodies with all the markers. */
  lemma NumberedValidIff(b: Brief, bodies: seq<string>)
    requires HasClaimIds(b) && MarkersIn(b, bodies, |b.claims|)
    ensures var text := Join(NumberedThread(bodies), "\n\n");
            ValidArtifact(b, text) <==> AllSafe(b, bodies) && Occurs(b.cta, text)
  {
    hide Occurs;
    hide OccursIn;
    hide Mentions;
    hide MarkerOf;
    hide IsClaimId;
    hide JoinUpTo;
    hide Numbered;
    var thread := NumberedThread(bodies);
    var text := Join(thread, "\n\n");
    MentionsOfJoin(thread, "\n\n", |thread|);
    forall k | 0 <= k < |b.claims| ensures Occurs(MarkerOf(b.claims[k]), text) {
      MarkerEndsWithSomething(b.claims[k]);
      NumberedOccursIn(MarkerOf(b.claims[k]), bodies);
      OccursInJoin(MarkerOf(b.claims[k]), thread, "\n\n", |thread|);
    }
    forall k | 0 <= k < |bodies| ensures Mentions(thread[k]) == Mentions(bodies[k]) {
      NumberingKeeps(k + 1, |bodies|, bodies[k], "");
    }
    if AllSafe(b, bodies) {
      forall id | id in Mentions(text) ensures id in AllowedIds(b) {
        var k :| 0 <= k < |thread| && id in Mentions(thread[k]);
      }
      GroundedIsComplete(b, text);
    }
    if Mentions(text) <= AllowedIds(b) {
      forall k, id | 0 <= k < |bodies| && id in Mentions(bodies[k]) ensures id in AllowedIds(b) {
        assert id in Mentions(thread[k]);
        assert MentionedIn(id, thread, |thread|);
      }
    }
  }

  /** One post of the thread holds the text; a text that is no single paragraph may also be found across
      posts. */
  ghost predicate HeldByThread(m: string, thread: seq<string>) {
    if OneParagraph(m) then OccursIn(m, thread, |thread|) else Occurs(m, Join(thread, "\n\n"))
  }

  lemma HeldIffFound(m: string, thread: seq<string>)
    ensures HeldByThread(m, thread) <==> Occurs(m, Join(thread, "\n\n"))
  {
    hide Occurs;
    hide OneParagraph;
    if OneParagraph(m) { ParagraphInJoin(m, thread, |thread|); }
  }

  /** One line that the bodies hold is held by one post of the numbered thread. */
  lemma OneLineIsHeld(m: string, bodies: seq<string>)
    requires m != "" && '\n' !in m && Occurs(m, Join(bodies, "\n"))
    ensures HeldByThread(m, NumberedThread(bodies))
  {
    hide Occurs;
    hide OccursIn;
    hide Numbered;
    hide JoinUpTo;
    assert m[0] in m && m[|m| - 1] in m;
    assert OneParagraph(m);
    OccursInJoin(m, bodies, "\n", |bodies|);
    NumberedOccursIn(m, bodies);
  }

  /** The bodies and the lines the thread needs name known claims only; the call to action, when the
      bodies already have it, is held by the numbered posts, and else names known claims only. */
  ghost predicate ThreadCanBeGrounded(b: Brief, posts: seq<string>) {
    var bodies := BodiesFrom(posts, 0, []);
    var joined := Join(bodies, "\n");
    var more := AddLines(b, joined, 0, bodies);
    && AllSafe(b, bodies) && AllTextsKnown(AddedToThread(b, joined, 0), AllowedIds(b))
    && if Occurs(b.cta, Join(more, "\n")) then HeldByThread(b.cta, NumberedThread(more)) else Mentions(b.cta) <= AllowedIds(b)
  }

  /** The call to action as a post of its own is found in the thread. */
  lemma OwnPostIsFound(more: seq<string>, m: string)
    ensures Occurs(m, Join(NumberedThread(more + [m]), "\n\n"))
  {
    hide Occurs;
    hide JoinUpTo;
    hide Numbered;
    var all := more + [m];
    var thread := NumberedThread(all);
    var k := |more|;
    OccursInItself(m);
    NumberingKeeps(k + 1, |all|, m, m);
    PartOccurs(thread, "\n\n", |thread|, k);
    OccursTwice(m, thread[k], Join(thread, "\n\n"));
  }

  lemma OccursTwice(m: string, s: string, t: string)
    requires Occurs(m, s) && Occurs(s, t)
    ensures Occurs(m, t)
  {
    var i :| 0 <= i <= |s| && OccursAt(s, m, i);
    var j :| 0 <= j <= |t| && OccursAt(t, s, j);
    SliceOfSlice(t, j, j + |s|, i, i + |m|);
    OccursFrom(m, t, j + i);
  }

  /** When exactly the grounded thread is valid, for any claim texts and call to action. */
  lemma ThreadValidIff(b: Brief, posts: seq<string>)
    requires HasClaimIds(b)
    ensures ValidArtifact(b, Join(NumberedThread(ThreadBodies(b, posts)), "\n\n")) <==> ThreadCanBeGrounded(b, posts)
  {
    hide Occurs;
    hide OccursIn;
    hide Mentions;
    hide MarkerOf;
    hide IsClaimId;
    hide BodiesFrom;
    hide AddLines;
    hide AddedToThread;
    hide AllSafe;
    hide ValidArtifact;
    hide NumberedThread;
    hide JoinUpTo;
    hide HeldByThread;
    var bodies := BodiesFrom(posts, 0, []);
    var more := AddLines(b, Join(bodies, "\n"), 0, bodies);
    var all := ThreadBodies(b, posts);
    AddedLinesMarked(b, bodies, 0, bodies);
    AddedLinesSafeIff(b, Join(bodies, "\n"), 0, bodies);
    if Occurs(b.cta, Join(more, "\n")) {
      HeldIffFound(b.cta, NumberedThread(more));
    } else {
      forall k | 0 <= k < |b.claims| ensures OccursIn(MarkerOf(b.claims[k]), all, |all|) { OccursInMore(MarkerOf(b.claims[k]), more, all); }
      AllSafeSnoc(b, more, b.cta);
      OwnPostIsFound(more, b.cta);
    }
    NumberedValidIff(b, all);
  }

  // ----- the standalone post and the whole draft set, exactly

  /** The model's post can stay. */
  predicate KeepsPost(b: Brief, value: string)
    requires b.claims != []
  {
    Strip(value) != "" && Occurs(MarkerOf(b.claims[0]), Strip(value)) && |Strip(value)| <= 280
  }

  lemma RenderedMentions(b: Brief)
    requires HasClaimIds(b) && b.claims != []
    ensures Mentions(Strip(RenderXPost(b)))
            == Mentions(PostBody(b)) + if PostHasCta(b) then Mentions(b.cta) else {}
  {
    hide Mentions;
    hide Strip;
    hide MarkerOf;
    hide IsClaimId;
    MentionsAcrossGap(PostBody(b), "\n\n", b.cta);
    var chosen := if PostHasCta(b) then PostBody(b) + "\n\n" + b.cta else PostBody(b);
    MentionsOfStripExact(chosen);
    assert Strip(chosen) + "\n" == Strip(chosen) + "\n" + "";
    MentionsAcrossGap(Strip(chosen), "\n", "");
    NothingMentioned("");
    MentionsOfStripExact(Strip(chosen) + "\n");
  }

  /** The model's post can stay, or what the rendered post is made of names known claims only. */
  predicate PostCanBeGrounded(b: Brief, value: string)
    requires b.claims != []
  {
    KeepsPost(b, value)
    || (Mentions(b.claims[0].text) <= AllowedIds(b) && (PostHasCta(b) ==> Mentions(b.cta) <= AllowedIds(b)))
  }

  /** When exactly the standalone post is valid, for a model that names known claims only. */
  lemma XPostValidIff(b: Brief, value: string)
    requires HasClaimIds(b) && b.claims != [] && Mentions(value) <= AllowedIds(b)
    ensures ValidXPost(b, GroundedXPost(b, value)) <==> PostCanBeGrounded(b, value)
  {
    hide Occurs;
    hide Mentions;
    hide Strip;
    hide MarkerOf;
    hide IsClaimId;
    hide RenderXPost;
    hide PostBody;
    MentionsOfStripExact(value);
    if !KeepsPost(b, value) {
      RenderedMentions(b);
      PostBodyMentions(b);
      RenderedHasMarker(b);
    }
  }

  /** When exactly the drafts that grounding returns pass the validator, part by part. */
  lemma GroundedDraftsValidIff(b: Brief, t: Drafts)
    requires HasClaimIds(b) && b.claims != [] && b.cta != "" && Ground(b, t).Ok?
    ensures ValidDrafts(b, Ground(b, t).value) <==>
            && ChannelCanBeGrounded(b, t.canonicalStory) && ChannelCanBeGrounded(b, t.linkedin) && ChannelCanBeGrounded(b, t.blog)
            && ChannelCanBeGrounded(b, t.youtubeScript) && ChannelCanBeGrounded(b, t.videoScript)
            && ThreadCanBeGrounded(b, t.xThread) && PostCanBeGrounded(b, t.xPost) && StoryboardCanBeGrounded(b, t.storyboard)
  {
    hide IsClaimId;
    hide Mentions;
    hide ValidArtifact;
    hide ValidXPost;
    hide ValidNumbering;
    hide ValidStoryboard;
    hide Anchored;
    hide ThreadBodies;
    hide NumberedThread;
    hide GroundedXPost;
    hide GroundedStoryboard;
    hide Normalized;
    hide StoryboardCanBeGrounded;
    hide FitsSchema;
    hide AllSafe;
    hide Join;
    hide ChannelCanBeGrounded;
    hide ThreadCanBeGrounded;
    hide PostCanBeGrounded;
    RawTextsAreSafe(b, t);
    ChannelValidIff(b, t.canonicalStory);
    ChannelValidIff(b, t.linkedin);
    ChannelValidIff(b, t.blog);
    ChannelValidIff(b, t.youtubeScript);
    ChannelValidIff(b, t.videoScript);
    ThreadValidIff(b, t.xThread);
    XPostValidIff(b, t.xPost);
    NumberingIsValid(ThreadBodies(b, t.xThread));
    AnyStoryboardValidIff(b, t.storyboard);
  }
}
