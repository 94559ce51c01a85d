/** `_ground_ollama_drafts` of src/soloscale/content_workspace.py, the text channels: truth anchors are
    added to model prose until every supplied claim and the call to action are present. */
module GroundedText {
  import opened PyText
  import opened ClaimText
  import opened XThread

  // ----- joined texts

  /** `sep.join(texts[:i])`. */
  function JoinUpTo(texts: seq<string>, sep: string, i: nat): (s: string)
    requires i <= |texts|
  {
    if i == 0 then "" else if i == 1 then texts[0] else JoinUpTo(texts, sep, i - 1) + sep + texts[i - 1]
  }

  function Join(texts: seq<string>, sep: string): (s: string) {
    JoinUpTo(texts, sep, |texts|)
  }

  /** One or two newlines. */
  predicate IsGap(sep: string) {
    sep == "\n" || sep == "\n\n"
  }

  lemma MentionsAcrossGap(a: string, sep: string, b: string)
    requires IsGap(sep)
    ensures Mentions(a + sep + b) == Mentions(a) + Mentions(b)
  {
    hide Mentions;
    assert !IsIdChar('\n') by { NewlineIsNoIdChar(); }
    if sep == "\n" {
      MentionsSplit(a, '\n', b);
    } else {
      assert a + sep + b == a + "\n" + ("" + "\n" + b);
      MentionsSplit(a, '\n', "" + "\n" + b);
      MentionsSplit("", '\n', b);
      NothingMentioned("");
    }
  }

  lemma NewlineIsNoIdChar()
    ensures !IsIdChar('\n')
  {
  }

  lemma OccursAcrossGap(m: string, a: string, sep: string, b: string)
    requires IsGap(sep) && m != "" && '\n' !in m
    ensures Occurs(m, a + sep + b) <==> Occurs(m, a) || Occurs(m, b)
  {
    hide Occurs;
    if sep == "\n" {
      OccursSplit(m, a, '\n', b);
    } else {
      assert a + sep + b == a + "\n" + ("" + "\n" + b);
      OccursSplit(m, a, '\n', "" + "\n" + b);
      OccursSplit(m, "", '\n', b);
      OccursInNothing(m);
    }
  }

  lemma OccursInNothing(m: string)
    requires m != ""
    ensures !Occurs(m, "")
  {
  }

  ghost predicate MentionedIn(id: string, texts: seq<string>, i: nat)
    requires i <= |texts|
  {
    exists k :: 0 <= k < i && id in Mentions(texts[k])
  }

  ghost predicate OccursIn(m: string, texts: seq<string>, i: nat)
    requires i <= |texts|
  {
    exists k :: 0 <= k < i && Occurs(m, texts[k])
  }

  /** A joined text names exactly the ids its parts name. */
  lemma {:induction false} MentionsOfJoin(texts: seq<string>, sep: string, i: nat)
    requires IsGap(sep) && i <= |texts|
    ensures forall id :: id in Mentions(JoinUpTo(texts, sep, i)) <==> MentionedIn(id, texts, i)
  {
    hide Mentions;
    if i == 0 {
      NothingMentioned("");
    } else {
      MentionsOfJoin(texts, sep, i - 1);
      if i > 1 { MentionsAcrossGap(JoinUpTo(texts, sep, i - 1), sep, texts[i - 1]); }
    }
  }

  /** A single-line text occurs in a joined text exactly when it occurs in one of the parts. */
  lemma {:induction false} OccursInJoin(m: string, texts: seq<string>, sep: string, i: nat)
    requires IsGap(sep) && m != "" && '\n' !in m && i <= |texts|
    ensures Occurs(m, JoinUpTo(texts, sep, i)) <==> OccursIn(m, texts, i)
  {
    hide Occurs;
    if i == 0 {
      OccursInNothing(m);
    } else {
      OccursInJoin(m, texts, sep, i - 1);
      if i > 1 { OccursAcrossGap(m, JoinUpTo(texts, sep, i - 1), sep, texts[i - 1]); }
    }
  }

  // ----- one channel

  /** The channel after the claims from the i-th on got their lines where their markers were missing. */
  function AnchorClaims(b: Brief, result: string, i: nat): (r: string)
    requires i <= |b.claims|
    decreases |b.claims| - i
  {
    if i == |b.claims| then result
    else if Occurs(MarkerOf(b.claims[i]), result) then AnchorClaims(b, result, i + 1)
    else AnchorClaims(b, Strip(result + "\n\n" + LineOf(b.claims[i])), i + 1)
  }

  function WithCta(b: Brief, result: string): (r: string) {
    if Occurs(b.cta, result) then result else Strip(result + "\n\n" + b.cta)
  }

  function Anchored(b: Brief, value: string): (r: string) {
    WithCta(b, AnchorClaims(b, Strip(value), 0))
  }

  method AnchoredChannel(b: Brief, value: string) returns (result: string)
    ensures result == Anchored(b, value)
  {
    hide Occurs;
    hide Strip;
    result := Strip(value);
    for i := 0 to |b.claims|
      invariant AnchorClaims(b, Strip(value), 0) == AnchorClaims(b, result, i)
    {
      if !Occurs(MarkerOf(b.claims[i]), result) {
        result := Strip(result + "\n\n" + LineOf(b.claims[i]));
      }
    }
    if !Occurs(b.cta, result) {
      result := Strip(result + "\n\n" + b.cta);
    }
  }

  /** The text names allowed ids only and has the markers of the first n claims. */
  ghost predicate Grounded(b: Brief, s: string, n: nat)
    requires n <= |b.claims|
  {
    Mentions(s) <= AllowedIds(b) && forall k :: 0 <= k < n ==> Occurs(MarkerOf(b.claims[k]), s)
  }

  lemma MentionsOfStrip(s: string)
    ensures Mentions(Strip(s)) <= Mentions(s)
  {
    MentionsOfSlice(s, StripStart(s), StripEnd(s));
  }

  /** The text has the markers of the first n claims. */
  ghost predicate Marked(b: Brief, s: string, n: nat)
    requires n <= |b.claims|
  {
    forall k :: 0 <= k < n ==> Occurs(MarkerOf(b.claims[k]), s)
  }

  /** Appending a paragraph and stripping keeps every marker. */
  lemma AppendKeepsMarkers(b: Brief, s: string, n: nat, more: string)
    requires HasClaimIds(b) && n <= |b.claims| && Marked(b, s, n)
    ensures Marked(b, Strip(s + "\n\n" + more), n)
  {
    hide Occurs;
    hide Strip;
    hide MarkerOf;
    hide IsClaimId;
    forall k | 0 <= k < n ensures Occurs(MarkerOf(b.claims[k]), Strip(s + "\n\n" + more)) {
      MarkerEndsWithSomething(b.claims[k]);
      OccursAcrossGap(MarkerOf(b.claims[k]), s, "\n\n", more);
      StripKeepsOccurrence(MarkerOf(b.claims[k]), s + "\n\n" + more);
    }
  }

  /** Appending a paragraph and stripping keeps what is grounded. */
  lemma AppendKeeps(b: Brief, s: string, n: nat, more: string)
    requires HasClaimIds(b) && n <= |b.claims| && Grounded(b, s, n) && Mentions(more) <= AllowedIds(b)
    ensures Grounded(b, Strip(s + "\n\n" + more), n)
  {
    hide Occurs;
    hide Mentions;
    hide Strip;
    hide MarkerOf;
    hide IsClaimId;
    MentionsAcrossGap(s, "\n\n", more);
    MentionsOfStrip(s + "\n\n" + more);
    AppendKeepsMarkers(b, s, n, more);
  }

  lemma LineIsSafe(b: Brief, i: nat)
    requires SafeBrief(b) && i < |b.claims|
    ensures Mentions(LineOf(b.claims[i])) <= AllowedIds(b)
    ensures Occurs(MarkerOf(b.claims[i]), LineOf(b.claims[i])) && NonBlankEnds(MarkerOf(b.claims[i])) && '\n' !in MarkerOf(b.claims[i])
  {
    hide Occurs;
    hide Mentions;
    hide MarkerOf;
    hide LineOf;
    hide IsClaimId;
    LineMentions(b.claims[i]);
    LineHasMarker(b.claims[i]);
    MarkerEndsWithSomething(b.claims[i]);
    assert b.claims[i].id in AllowedIds(b);
  }

  lemma {:induction false} AnchorClaimsGrounded(b: Brief, result: string, i: nat)
    requires SafeBrief(b) && i <= |b.claims| && Grounded(b, result, i)
    ensures Grounded(b, AnchorClaims(b, result, i), |b.claims|)
    decreases |b.claims| - i
  {
    hide Occurs;
    hide Mentions;
    hide Strip;
    hide MarkerOf;
    hide LineOf;
    hide IsClaimId;
    if i < |b.claims| {
      var marker, line := MarkerOf(b.claims[i]), LineOf(b.claims[i]);
      if Occurs(marker, result) {
        AnchorClaimsGrounded(b, result, i + 1);
      } else {
        var next := Strip(result + "\n\n" + line);
        LineIsSafe(b, i);
        AppendKeeps(b, result, i, line);
        OccursAcrossGap(marker, result, "\n\n", line);
        StripKeepsOccurrence(marker, result + "\n\n" + line);
        AnchorClaimsGrounded(b, next, i + 1);
      }
    }
  }

  /** A text with all the markers names all the brief's claims. */
  lemma GroundedIsComplete(b: Brief, s: string)
    requires HasClaimIds(b) && Grounded(b, s, |b.claims|)
    ensures Mentions(s) == AllowedIds(b)
  {
    hide Occurs;
    hide Mentions;
    hide MarkerOf;
    hide IsClaimId;
    forall id | id in AllowedIds(b) ensures id in Mentions(s) {
      var c :| c in b.claims && c.id == id;
      var k :| 0 <= k < |b.claims| && b.claims[k] == c;
      MarkerNamesClaim(b.claims[k], s);
    }
  }

  /** Any channel of the model that names no unknown claim is grounded into a valid artifact. */
  lemma AnchoredIsValid(b: Brief, value: string)
    requires SafeBrief(b) && Mentions(value) <= AllowedIds(b)
    ensures ValidArtifact(b, Anchored(b, value))
  {
    hide Occurs;
    hide Mentions;
    hide Strip;
    hide MarkerOf;
    hide IsClaimId;
    hide AnchorClaims;
    MentionsOfStrip(value);
    AnchorClaimsGrounded(b, Strip(value), 0);
    var r := AnchorClaims(b, Strip(value), 0);
    if !Occurs(b.cta, r) {
      AppendKeeps(b, r, |b.claims|, b.cta);
      StripKeepsEnd(r + "\n\n", b.cta);
    }
    GroundedIsComplete(b, Anchored(b, value));
  }

  // ----- the X thread

  /** The end of a case-insensitive keyword or of digits at i; i when there is neither. */
  function WordOrDigits(s: string, i: nat, upper: string, lower: string): (j: nat)
    requires i <= |s| && |upper| == |lower|
    ensures i <= j <= |s|
  {
    if i + |upper| <= |s| && forall k :: 0 <= k < |upper| ==> s[i + k] == upper[k] || s[i + k] == lower[k] then i + |upper|
    else DigitsEnd(s, i)
  }

  /** The length of the prefix `(N|digits)/(TOTAL|digits)` and the blanks after it; 0 without one. */
  function PrefixLength(s: string): (n: nat)
    ensures n <= |s|
  {
    var a := WordOrDigits(s, 0, "N", "n");
    if a == 0 || a == |s| || s[a] != '/' then 0
    else
      var t := WordOrDigits(s, a + 1, "TOTAL", "total");
      if t == a + 1 || SkipBlanks(s, t) == t then 0 else SkipBlanks(s, t)
  }

  function BodyOf(post: string): (body: string) {
    Strip(post)[PrefixLength(Strip(post))..]
  }

  /** The distinct non-empty bodies, in order, after those already kept. */
  function BodiesFrom(posts: seq<string>, i: nat, bodies: seq<string>): (r: seq<string>)
    requires i <= |posts|
    decreases |posts| - i
  {
    if i == |posts| then bodies
    else
      var body := BodyOf(posts[i]);
      BodiesFrom(posts, i + 1, if body != "" && body !in bodies then bodies + [body] else bodies)
  }

  /** The bodies after a line was added for each claim, from the i-th on, whose marker the text lacks. */
  function AddLines(b: Brief, text: string, i: nat, bodies: seq<string>): (r: seq<string>)
    requires i <= |b.claims|
    decreases |b.claims| - i
  {
    if i == |b.claims| then bodies
    else AddLines(b, text, i + 1, if Occurs(MarkerOf(b.claims[i]), text) then bodies else bodies + [LineOf(b.claims[i])])
  }

  function ThreadBodies(b: Brief, posts: seq<string>): (r: seq<string>) {
    var bodies := BodiesFrom(posts, 0, []);
    var more := AddLines(b, Join(bodies, "\n"), 0, bodies);
    if Occurs(b.cta, Join(more, "\n")) then more else more + [b.cta]
  }

  function NumberedThread(bodies: seq<string>): (posts: seq<string>) {
    seq(|bodies|, k requires 0 <= k < |bodies| => Numbered(k + 1, |bodies|, bodies[k]))
  }

  method GroundThread(b: Brief, posts: seq<string>) returns (bodies: seq<string>)
    ensures bodies == ThreadBodies(b, posts)
  {
    hide Occurs;
    hide BodyOf;
    hide Join;
    bodies := [];
    for i := 0 to |posts|
      invariant BodiesFrom(posts, 0, []) == BodiesFrom(posts, i, bodies)
    {
      var body := BodyOf(posts[i]);
      if body != "" && body !in bodies {
        bodies := bodies + [body];
      }
    }
    var joined := Join(bodies, "\n");
    ghost var start := bodies;
    for i := 0 to |b.claims|
      invariant AddLines(b, joined, 0, start) == AddLines(b, joined, i, bodies)
    {
      if !Occurs(MarkerOf(b.claims[i]), joined) {
        bodies := bodies + [LineOf(b.claims[i])];
      }
    }
    if !Occurs(b.cta, Join(bodies, "\n")) {
      bodies := bodies + [b.cta];
    }
  }

  ghost predicate AllSafe(b: Brief, texts: seq<string>) {
    forall k :: 0 <= k < |texts| ==> Mentions(texts[k]) <= AllowedIds(b)
  }

  lemma BodyMentions(post: string)
    ensures Mentions(BodyOf(post)) <= Mentions(post)
  {
    hide Mentions;
    hide Strip;
    hide PrefixLength;
    var t := Strip(post);
    MentionsOfStrip(post);
    MentionsOfSlice(t, PrefixLength(t), |t|);
    assert t[PrefixLength(t)..|t|] == t[PrefixLength(t)..];
  }

  lemma {:induction false} BodiesAreSafe(b: Brief, posts: seq<string>, i: nat, bodies: seq<string>)
    requires i <= |posts| && AllSafe(b, posts) && AllSafe(b, bodies)
    ensures AllSafe(b, BodiesFrom(posts, i, bodies))
    decreases |posts| - i
  {
    hide Mentions;
    hide BodyOf;
    if i < |posts| {
      var body := BodyOf(posts[i]);
      BodyMentions(posts[i]);
      BodiesAreSafe(b, posts, i + 1, if body != "" && body !in bodies then bodies + [body] else bodies);
    }
  }

  /** The first n claims have their markers in one of the texts. */
  ghost predicate MarkersIn(b: Brief, texts: seq<string>, n: nat)
    requires n <= |b.claims|
  {
    forall k :: 0 <= k < n ==> OccursIn(MarkerOf(b.claims[k]), texts, |texts|)
  }

  lemma OccursInMore(m: string, texts: seq<string>, more: seq<string>)
    requires texts <= more && OccursIn(m, texts, |texts|)
    ensures OccursIn(m, more, |more|)
  {
    var k :| 0 <= k < |texts| && Occurs(m, texts[k]);
    assert Occurs(m, more[k]);
  }

  lemma OccursInLast(m: string, texts: seq<string>, last: string)
    requires Occurs(m, last)
    ensures OccursIn(m, texts + [last], |texts + [last]|)
  {
    assert Occurs(m, (texts + [last])[|texts|]);
  }

  /** Added lines keep the texts safe and complete the markers. */
  lemma {:induction false} AddLinesCorrect(b: Brief, start: seq<string>, i: nat, bodies: seq<string>)
    requires SafeBrief(b) && i <= |b.claims| && start <= bodies && AllSafe(b, bodies) && MarkersIn(b, bodies, i)
    ensures var r := AddLines(b, Join(start, "\n"), i, bodies);
            start <= r && AllSafe(b, r) && MarkersIn(b, r, |b.claims|)
    decreases |b.claims| - i
  {
    hide Occurs;
    hide OccursIn;
    hide Mentions;
    hide MarkerOf;
    hide LineOf;
    hide IsClaimId;
    hide Strip;
    if i < |b.claims| {
      var marker, line := MarkerOf(b.claims[i]), LineOf(b.claims[i]);
      LineIsSafe(b, i);
      OccursInJoin(marker, start, "\n", |start|);
      var next := if Occurs(marker, Join(start, "\n")) then bodies else bodies + [line];
      if Occurs(marker, Join(start, "\n")) {
        OccursInMore(marker, start, bodies);
      } else {
        OccursInLast(marker, bodies, line);
        forall k | 0 <= k < i ensures OccursIn(MarkerOf(b.claims[k]), next, |next|) { OccursInMore(MarkerOf(b.claims[k]), bodies, next); }
      }
      AddLinesCorrect(b, start, i + 1, next);
    }
  }

  lemma ThreadBodiesCorrect(b: Brief, posts: seq<string>)
    requires SafeBrief(b) && AllSafe(b, posts)
    ensures var bodies := ThreadBodies(b, posts);
            AllSafe(b, bodies) && MarkersIn(b, bodies, |b.claims|) && OccursIn(b.cta, bodies, |bodies|)
  {
    hide Occurs;
    hide OccursIn;
    hide Mentions;
    hide MarkerOf;
    hide IsClaimId;
    hide Strip;
    hide Join;
    var start := BodiesFrom(posts, 0, []);
    BodiesAreSafe(b, posts, 0, []);
    AddLinesCorrect(b, start, 0, start);
    var more := AddLines(b, Join(start, "\n"), 0, start);
    CtaInJoin(b, more);
    if !Occurs(b.cta, Join(more, "\n")) {
      var all := more + [b.cta];
      OccursInItself(b.cta);
      OccursInLast(b.cta, more, b.cta);
      forall k | 0 <= k < |b.claims| ensures OccursIn(MarkerOf(b.claims[k]), all, |all|) { OccursInMore(MarkerOf(b.claims[k]), more, all); }
    }
  }

  lemma CtaInJoin(b: Brief, texts: seq<string>)
    requires SafeBrief(b)
    ensures Occurs(b.cta, Join(texts, "\n")) <==> OccursIn(b.cta, texts, |texts|)
  {
    hide Occurs;
    hide OccursIn;
    OccursInJoin(b.cta, texts, "\n", |texts|);
  }

  lemma OccursInItself(m: string)
    ensures Occurs(m, m)
  {
    assert m[0..|m|] == m;
    OccursFrom(m, m, 0);
  }

  lemma NumbersNameNothing(number: nat, total: nat)
    ensures Mentions(Decimal(number) + "/" + Decimal(total)) == {}
  {
    hide Decimal;
    var s := Decimal(number) + "/" + Decimal(total);
    DecimalIsDigits(number);
    DecimalIsDigits(total);
    forall i | 0 <= i < |s| ensures !IsClaimId(IdAt(s, i)) {
      assert ID_PREFIX[0] == 'C';
      assert IdAt(s, i) != "" ==> IdAt(s, i)[..6][0] == s[i] != 'C';
    }
  }

  /** Numbering a post changes neither the ids it names nor what occurs in it. */
  lemma NumberingKeeps(number: nat, total: nat, body: string, m: string)
    ensures Mentions(Numbered(number, total, body)) == Mentions(body)
    ensures Occurs(m, body) ==> Occurs(m, Numbered(number, total, body))
  {
    hide Mentions;
    hide Occurs;
    hide Decimal;
    var head := Decimal(number) + "/" + Decimal(total);
    assert !IsIdChar(' ');
    MentionsSplit(head, ' ', body);
    NumbersNameNothing(number, total);
    assert Numbered(number, total, body) == head + " " + body;
    if Occurs(m, body) {
      OccursWithin(m, head + " ", body, "");
      assert head + " " + body + "" == head + " " + body;
    }
  }

  lemma NumberedOccursIn(m: string, bodies: seq<string>)
    requires OccursIn(m, bodies, |bodies|)
    ensures OccursIn(m, NumberedThread(bodies), |bodies|)
  {
    hide Occurs;
    hide Numbered;
    var k :| 0 <= k < |bodies| && Occurs(m, bodies[k]);
    NumberingKeeps(k + 1, |bodies|, bodies[k], m);
    assert Occurs(m, NumberedThread(bodies)[k]);
  }

  /** The grounded thread, joined as the validator joins it, is a valid artifact. */
  lemma ThreadIsValid(b: Brief, posts: seq<string>)
    requires SafeBrief(b) && AllSafe(b, posts)
    ensures ValidArtifact(b, Join(NumberedThread(ThreadBodies(b, posts)), "\n\n"))
  {
    hide Occurs;
    hide OccursIn;
    hide Mentions;
    hide MarkerOf;
    hide IsClaimId;
    hide Strip;
    hide ThreadBodies;
    hide JoinUpTo;
    hide Numbered;
    var bodies := ThreadBodies(b, posts);
    ThreadBodiesCorrect(b, posts);
    var thread := NumberedThread(bodies);
    var text := Join(thread, "\n\n");
    MentionsOfJoin(thread, "\n\n", |thread|);
    forall id | id in Mentions(text) ensures id in AllowedIds(b) {
      var k :| 0 <= k < |thread| && id in Mentions(thread[k]);
      NumberingKeeps(k + 1, |bodies|, bodies[k], "");
    }
    forall k | 0 <= k < |b.claims| ensures Occurs(MarkerOf(b.claims[k]), text) {
      LineIsSafe(b, k);
      MarkerIsSomething(b.claims[k]);
      NumberedOccursIn(MarkerOf(b.claims[k]), bodies);
      OccursInJoin(MarkerOf(b.claims[k]), thread, "\n\n", |thread|);
    }
    NumberedOccursIn(b.cta, bodies);
    OccursInJoin(b.cta, thread, "\n\n", |thread|);
    GroundedIsComplete(b, text);
  }

  lemma MarkerIsSomething(c: Claim)
    ensures MarkerOf(c) != ""
  {
  }

  // ----- limits

  lemma DecimalOfSmall(n: nat)
    requires n < 100
    ensures |Decimal(n)| <= 2
  {
  }

  /** A line added for a claim fits one post, whatever its position in a thread of at most 12. */
  lemma AddedLineFits(c: Claim, number: nat, total: nat)
    requires |c.text| <= 220 && |c.id| == ID_LENGTH && number <= total <= MAX_POSTS
    ensures |Numbered(number, total, LineOf(c))| <= 250 < 280
  {
    hide Decimal;
    DecimalOfSmall(number);
    DecimalOfSmall(total);
    assert |StatusText(c.status)| <= 10;
  }

  // ----- the standalone X post

  /** The first claim's text and its bracketed marker. */
  function PostBody(b: Brief): (body: string)
    requires b.claims != []
  {
    b.claims[0].text + "\n[" + MarkerOf(b.claims[0]) + "]"
  }

  /** The call to action fits into the rendered post. */
  predicate PostHasCta(b: Brief)
    requires b.claims != []
  {
    |PostBody(b) + "\n\n" + b.cta| <= 280
  }

  function RenderXPost(b: Brief): (post: string)
    requires b.claims != []
  {
    Strip(if PostHasCta(b) then PostBody(b) + "\n\n" + b.cta else PostBody(b)) + "\n"
  }

  function GroundedXPost(b: Brief, value: string): (post: string)
    requires b.claims != []
  {
    var result := Strip(value);
    if result == "" || !Occurs(MarkerOf(b.claims[0]), result) || |result| > 280 then Strip(RenderXPost(b)) else result
  }

  /** What the validator asks of the standalone post. */
  predicate ValidXPost(b: Brief, post: string)
    requires b.claims != []
  {
    Mentions(post) <= AllowedIds(b) && Occurs(MarkerOf(b.claims[0]), post)
  }

  lemma StripShortens(s: string)
    ensures |Strip(s)| <= |s|
  {
  }

  lemma PostBodyMentions(b: Brief)
    requires HasClaimIds(b) && b.claims != []
    ensures Mentions(PostBody(b)) == Mentions(b.claims[0].text) + {b.claims[0].id}
    ensures Occurs(MarkerOf(b.claims[0]), PostBody(b)) && b.claims[0].id in AllowedIds(b)
  {
    hide Occurs;
    hide Mentions;
    hide StatusText;
    var c := b.claims[0];
    var body := PostBody(b);
    assert body == (c.text + "\n[") + MarkerOf(c) + "]";
    OccursInItself(MarkerOf(c));
    OccursWithin(MarkerOf(c), c.text + "\n[", MarkerOf(c), "]");
    var status := "[" + StatusText(c.status) + " \U{B7}";
    assert body == c.text + "\n" + (status + " " + (c.id + "]" + ""));
    NewlineIsNoIdChar();
    assert !IsIdChar(' ') && !IsIdChar(']') && !IsIdChar('[');
    MentionsSplit(c.text, '\n', status + " " + (c.id + "]" + ""));
    MentionsSplit(status, ' ', c.id + "]" + "");
    MentionsSplit(c.id, ']', "");
    IdNamesItself(c.id);
    NothingMentioned("");
    assert status == ("" + "[" + StatusText(c.status)) + " " + "\U{B7}";
    MentionsSplit("" + "[" + StatusText(c.status), ' ', "\U{B7}");
    NothingMentioned("\U{B7}");
    MentionsSplit("", '[', StatusText(c.status));
    StatusNamesNothing(c.status);
    assert c.id in AllowedIds(b);
  }

  /** The rendered post has the first claim's marker, whatever it is stripped of. */
  lemma RenderedHasMarker(b: Brief)
    requires HasClaimIds(b) && b.claims != []
    ensures Occurs(MarkerOf(b.claims[0]), Strip(RenderXPost(b)))
  {
    hide Occurs;
    hide Mentions;
    hide Strip;
    hide IsClaimId;
    hide MarkerOf;
    var marker := MarkerOf(b.claims[0]);
    var chosen := if PostHasCta(b) then PostBody(b) + "\n\n" + b.cta else PostBody(b);
    PostBodyMentions(b);
    MarkerEndsWithSomething(b.claims[0]);
    OccursAcrossGap(marker, PostBody(b), "\n\n", b.cta);
    StripKeepsOccurrence(marker, chosen);
    OccursAcrossGap(marker, Strip(chosen), "\n", "");
    assert Strip(chosen) + "\n" == Strip(chosen) + "\n" + "";
    StripKeepsOccurrence(marker, Strip(chosen) + "\n");
  }

  lemma RenderedIsSafe(b: Brief)
    requires SafeBrief(b)
    ensures Mentions(Strip(RenderXPost(b))) <= AllowedIds(b)
  {
    hide Occurs;
    hide Mentions;
    hide Strip;
    hide IsClaimId;
    hide MarkerOf;
    var chosen := if PostHasCta(b) then PostBody(b) + "\n\n" + b.cta else PostBody(b);
    PostBodyMentions(b);
    MentionsAcrossGap(PostBody(b), "\n\n", b.cta);
    MentionsOfStrip(chosen);
    assert Strip(chosen) + "\n" == Strip(chosen) + "\n" + "";
    MentionsAcrossGap(Strip(chosen), "\n", "");
    NothingMentioned("");
    MentionsOfStrip(Strip(chosen) + "\n");
  }

  /** The standalone post is valid and, for a claim within the field limits, never longer than 280. */
  lemma XPostIsValid(b: Brief, value: string)
    requires SafeBrief(b) && Mentions(value) <= AllowedIds(b)
    ensures ValidXPost(b, GroundedXPost(b, value))
    ensures |b.claims[0].text| <= 220 ==> |GroundedXPost(b, value)| <= 280
  {
    hide Occurs;
    hide Mentions;
    hide Strip;
    hide IsClaimId;
    hide RenderXPost;
    MentionsOfStrip(value);
    RenderedIsSafe(b);
    RenderedHasMarker(b);
    if |b.claims[0].text| <= 220 { RenderedFits(b); }
  }

  lemma RenderedFits(b: Brief)
    requires SafeBrief(b) && |b.claims[0].text| <= 220
    ensures |Strip(RenderXPost(b))| <= 280
  {
    hide Strip;
    hide IsClaimId;
    hide Mentions;
    hide StatusText;
    var chosen := if PostHasCta(b) then PostBody(b) + "\n\n" + b.cta else PostBody(b);
    StripShortens(chosen);
    StripOfLine(Strip(chosen));
    IdLengthOf(b);
  }

  lemma IdLengthOf(b: Brief)
    requires SafeBrief(b)
    ensures |b.claims[0].id| == ID_LENGTH && |StatusText(b.claims[0].status)| <= 10
  {
  }

  lemma StripOfLine(s: string)
    ensures |Strip(s + "\n")| <= |s|
  {
    var t := s + "\n";
    StripIsSlice(t);
    if StripStart(t) < StripEnd(t) {
      assert !IsSpace(t[StripEnd(t) - 1]);
      assert t[|s|] == '\n' && IsSpace('\n');
    }
  }
}
