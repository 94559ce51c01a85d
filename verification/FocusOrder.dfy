/** Which matches `_focus_match_spans` of src/soloscale/evidence_agent.py finds when there are more than its
    limit: those of the longest terms, each term's from left to right. */
module FocusOrder {
  import opened PyText
  import opened Sorting
  import opened FocusSpans

  /** Longer terms come first, terms of one length in the order of texts. */
  ghost predicate ComesFirst(s: string, t: string) {
    |s| > |t| || (|s| == |t| && TextLe(s, t))
  }

  lemma TermsAreOrdered()
    ensures TotalPreorder(TermLe)
  {
    forall a: string, b: string ensures TermLe(a, b) || TermLe(b, a) { TextLeTotal(a, b); }
    forall a: string, b: string, c: string | TermLe(a, b) && TermLe(b, c) ensures TermLe(a, c) {
      if |a| == |b| == |c| { TextLeTransitive(a, b, c); }
    }
  }

  lemma SortedTerms(terms: seq<string>)
    ensures forall i, j :: 0 <= i < j < |Sort(terms, TermLe)| ==> ComesFirst(Sort(terms, TermLe)[i], Sort(terms, TermLe)[j])
  {
    TermsAreOrdered();
    SortSorted(terms, TermLe);
    var sorted := Sort(terms, TermLe);
    forall i, j | 0 <= i < j < |sorted| ensures ComesFirst(sorted[i], sorted[j]) { assert TermLe(sorted[i], sorted[j]); }
  }

  /** The matches of one needle from left to right, without overlap. */
  ghost predicate LeftToRight(matches: seq<Match>) {
    forall i, j :: 0 <= i < j < |matches| ==> matches[i].at + matches[i].length <= matches[j].at
  }

  lemma {:induction false} OccurrencesLeftToRight(hay: string, needle: string, from: nat, room: nat)
    requires needle != ""
    ensures var matches := Occurrences(hay, needle, from, room);
            LeftToRight(matches) && forall i :: 0 <= i < |matches| ==> matches[i].at >= from && matches[i].length == |needle|
    decreases room
  {
    hide Find;
    if room > 0 && Find(hay, needle, from) >= 0 {
      var p := Find(hay, needle, from);
      OccurrencesLeftToRight(hay, needle, p + |needle|, room - 1);
    }
  }

  /** Each match belongs to the term at the given position of the list; earlier matches belong to earlier
      terms, or to the same one further left. */
  ghost predicate Owned(f: Folding, hay: string, terms: seq<string>, matches: seq<Match>, owners: seq<nat>) {
    && |owners| == |matches|
    && (forall i :: 0 <= i < |matches| ==> owners[i] < |terms| && Matches(f, hay, terms[owners[i]], matches[i]))
    && (forall i, j :: 0 <= i < j < |matches| ==>
          owners[i] < owners[j] || (owners[i] == owners[j] && matches[i].at + matches[i].length <= matches[j].at))
  }

  /** An occurrence that no match touches is missed because of the limit only, and of a term that comes no
      earlier than those found. */
  ghost predicate MissedAtTheLimit(f: Folding, hay: string, terms: seq<string>, matches: seq<Match>, owners: seq<nat>, room: nat) {
    forall q, m :: 0 <= q < |terms| && Matches(f, hay, terms[q], m) && !Touched(matches, m) ==>
      |matches| == room && forall i :: 0 <= i < |owners| ==> owners[i] <= q
  }

  function Later(owners: seq<nat>): (r: seq<nat>) {
    seq(|owners|, k requires 0 <= k < |owners| => owners[k] + 1)
  }

  lemma {:induction false} MatchesAreOwned(f: Folding, hay: string, terms: seq<string>, room: nat) returns (owners: seq<nat>)
    ensures |owners| == |AllMatches(f, hay, terms, room)|
    ensures Owned(f, hay, terms, AllMatches(f, hay, terms, room), owners)
    ensures MissedAtTheLimit(f, hay, terms, AllMatches(f, hay, terms, room), owners, room)
  {
    hide Occurrences;
    hide Folded;
    hide Owned;
    hide MissedAtTheLimit;
    hide Matches;
    if terms == [] {
      owners := [];
      NothingOwned(f, hay, room);
    } else {
      var needle := Folded(f, terms[0]);
      if needle == "" {
        var rest := MatchesAreOwned(f, hay, terms[1..], room);
        owners := Later(rest);
        NothingOfFirst(f, hay, terms, AllMatches(f, hay, terms[1..], room), rest, room);
      } else {
        var found := Occurrences(hay, needle, 0, room);
        var rest := MatchesAreOwned(f, hay, terms[1..], room - |found|);
        var more := AllMatches(f, hay, terms[1..], room - |found|);
        owners := seq(|found|, _ => 0) + Later(rest);
        FirstThenRest(f, hay, terms, found, more, rest, room);
        MissedOfFirst(f, hay, terms, found, more, rest, room);
      }
    }
  }

  lemma NothingOwned(f: Folding, hay: string, room: nat)
    ensures Owned(f, hay, [], [], []) && MissedAtTheLimit(f, hay, [], [], [], room)
  {
  }

  lemma NothingOfFirst(f: Folding, hay: string, terms: seq<string>, matches: seq<Match>, rest: seq<nat>, room: nat)
    requires terms != [] && Folded(f, terms[0]) == ""
    requires Owned(f, hay, terms[1..], matches, rest) && MissedAtTheLimit(f, hay, terms[1..], matches, rest, room)
    ensures Owned(f, hay, terms, matches, Later(rest)) && MissedAtTheLimit(f, hay, terms, matches, Later(rest), room)
  {
    hide Folded;
    hide Touched;
    var owners := Later(rest);
    forall i | 0 <= i < |matches| ensures owners[i] < |terms| && Matches(f, hay, terms[owners[i]], matches[i]) {
      assert terms[1..][rest[i]] == terms[owners[i]];
    }
    forall q, m | 0 <= q < |terms| && Matches(f, hay, terms[q], m) && !Touched(matches, m)
      ensures |matches| == room && forall i :: 0 <= i < |owners| ==> owners[i] <= q
    {
      assert q > 0;
      assert terms[1..][q - 1] == terms[q];
    }
  }

  lemma FirstThenRest(f: Folding, hay: string, terms: seq<string>, found: seq<Match>, more: seq<Match>, rest: seq<nat>, room: nat)
    requires terms != [] && Folded(f, terms[0]) != "" && found == Occurrences(hay, Folded(f, terms[0]), 0, room)
    requires Owned(f, hay, terms[1..], more, rest)
    ensures Owned(f, hay, terms, found + more, seq(|found|, _ => 0) + Later(rest))
  {
    hide Occurrences;
    hide Folded;
    var matches, owners := found + more, seq(|found|, _ => 0) + Later(rest);
    OccurrencesAreNeedles(hay, Folded(f, terms[0]), 0, room);
    OccurrencesLeftToRight(hay, Folded(f, terms[0]), 0, room);
    forall i | 0 <= i < |matches| ensures owners[i] < |terms| && Matches(f, hay, terms[owners[i]], matches[i]) {
      if i < |found| {
        assert matches[i] in found;
      } else {
        assert terms[1..][rest[i - |found|]] == terms[owners[i]] && matches[i] == more[i - |found|];
      }
    }
  }

  lemma MissedOfFirst(f: Folding, hay: string, terms: seq<string>, found: seq<Match>, more: seq<Match>, rest: seq<nat>, room: nat)
    requires terms != [] && Folded(f, terms[0]) != "" && found == Occurrences(hay, Folded(f, terms[0]), 0, room)
    requires |found| <= room && |rest| == |more| <= room - |found|
    requires MissedAtTheLimit(f, hay, terms[1..], more, rest, room - |found|)
    ensures MissedAtTheLimit(f, hay, terms, found + more, seq(|found|, _ => 0) + Later(rest), room)
  {
    hide Occurrences;
    hide Folded;
    hide Touched;
    var matches, owners := found + more, seq(|found|, _ => 0) + Later(rest);
    forall q, m | 0 <= q < |terms| && Matches(f, hay, terms[q], m) && !Touched(matches, m)
      ensures |matches| == room && forall i :: 0 <= i < |owners| ==> owners[i] <= q
    {
      if q == 0 {
        if |found| < room { FoundIsTouched(f, hay, terms[0], found, more, room, m); }
      } else {
        assert terms[1..][q - 1] == terms[q];
        if Touched(more, m) { TouchedInConcat(found, more, m); }
      }
    }
  }

  lemma FoundIsTouched(f: Folding, hay: string, term: string, found: seq<Match>, more: seq<Match>, room: nat, m: Match)
    requires Folded(f, term) != "" && found == Occurrences(hay, Folded(f, term), 0, room) && |found| < room && Matches(f, hay, term, m)
    ensures Touched(found + more, m)
  {
    hide Occurrences;
    hide Folded;
    hide Touched;
    OccurrencesComplete(hay, Folded(f, term), 0, room, m.at);
    TouchedInConcat(found, more, m);
  }

  lemma SortKeepsDistinct(terms: seq<string>)
    requires Distinct(terms)
    ensures Distinct(Sort(terms, TermLe))
  {
    var sorted := Sort(terms, TermLe);
    SortKeepsMembers(terms, TermLe);
    SortPermutes(terms, TermLe);
    DistinctIffSetSize(terms);
    DistinctIffSetSize(sorted);
    assert ToSet(sorted) == ToSet(terms);
  }

  /** The matches in a text, each with its term: longer terms first, each from left to right; and when an
      occurrence is missed, the limit was reached by terms that come before. */
  lemma LongestTermsFirst(f: Folding, text: string, terms: seq<string>) returns (owners: seq<string>)
    ensures var matches := TextMatches(f, text, terms);
            && |owners| == |matches|
            && (forall i :: 0 <= i < |matches| ==> owners[i] in terms && Matches(f, Folded(f, text), owners[i], matches[i]))
            && (forall i, j :: 0 <= i < j < |matches| ==> owners[i] == owners[j] || ComesFirst(owners[i], owners[j]))
            && (Distinct(terms) ==> forall i, j :: 0 <= i < j < |matches| && owners[i] == owners[j] ==>
                  matches[i].at + matches[i].length <= matches[j].at)
            && (forall t, m :: t in terms && Matches(f, Folded(f, text), t, m) && !Touched(matches, m) ==>
                  |matches| == MAX_FOCUS_MATCH_SPANS && forall i :: 0 <= i < |owners| ==> owners[i] == t || ComesFirst(owners[i], t))
  {
    hide Matches;
    hide Touched;
    hide ComesFirst;
    hide AllMatches;
    var sorted, hay := Sort(terms, TermLe), Folded(f, text);
    var positions := MatchesAreOwned(f, hay, sorted, MAX_FOCUS_MATCH_SPANS);
    SortedTerms(terms);
    SortKeepsMembers(terms, TermLe);
    owners := seq(|positions|, k requires 0 <= k < |positions| => sorted[positions[k]]);
    var matches := TextMatches(f, text, terms);
    forall i | 0 <= i < |matches| ensures owners[i] in terms { assert sorted[positions[i]] in sorted; }
    if Distinct(terms) { SortKeepsDistinct(terms); }
    forall t, m | t in terms && Matches(f, hay, t, m) && !Touched(matches, m)
      ensures |matches| == MAX_FOCUS_MATCH_SPANS && forall i :: 0 <= i < |owners| ==> owners[i] == t || ComesFirst(owners[i], t)
    {
      assert t in sorted;
      var q :| 0 <= q < |sorted| && sorted[q] == t;
    }
  }
}
