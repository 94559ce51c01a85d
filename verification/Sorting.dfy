/** Python's stable `sorted`, as insertion sort over a total preorder. */
module Sorting {
  ghost predicate TotalPreorder<T(!new)>(le: (T, T) -> bool) {
    && (forall a, b :: le(a, b) || le(b, a))
    && (forall a, b, c :: le(a, b) && le(b, c) ==> le(a, c))
  }

  function Insert<T>(x: T, s: seq<T>, le: (T, T) -> bool): (r: seq<T>) {
    if s == [] || le(x, s[0]) then [x] + s else [s[0]] + Insert(x, s[1..], le)
  }

  function Sort<T>(s: seq<T>, le: (T, T) -> bool): (r: seq<T>) {
    if s == [] then [] else Insert(s[0], Sort(s[1..], le), le)
  }

  ghost predicate Sorted<T>(s: seq<T>, le: (T, T) -> bool) {
    forall i, j :: 0 <= i < j < |s| ==> le(s[i], s[j])
  }

  lemma {:induction false} InsertPermutes<T>(x: T, s: seq<T>, le: (T, T) -> bool)
    ensures multiset(Insert(x, s, le)) == multiset{x} + multiset(s)
  {
    if s == [] || le(x, s[0]) {
    } else {
      InsertPermutes(x, s[1..], le);
      assert s == [s[0]] + s[1..];
    }
  }

  lemma {:induction false} InsertMembers<T>(x: T, s: seq<T>, le: (T, T) -> bool)
    ensures forall y :: y in Insert(x, s, le) <==> y == x || y in s
  {
    if s != [] && !le(x, s[0]) {
      InsertMembers(x, s[1..], le);
      assert s == [s[0]] + s[1..];
    }
  }

  /** A value before a sorted list, all of whose values come after it. */
  lemma ConsSorted<T(!new)>(x: T, s: seq<T>, le: (T, T) -> bool)
    requires Sorted(s, le) && forall y :: y in s ==> le(x, y)
    ensures Sorted([x] + s, le)
  {
    var r := [x] + s;
    forall i, j | 0 <= i < j < |r| ensures le(r[i], r[j]) {
      assert r[j] == s[j - 1];
      if i > 0 { assert r[i] == s[i - 1]; }
    }
  }

  lemma {:induction false} InsertSorted<T(!new)>(x: T, s: seq<T>, le: (T, T) -> bool)
    requires TotalPreorder(le) && Sorted(s, le)
    ensures Sorted(Insert(x, s, le), le)
  {
    if s != [] {
      forall y | y in s ensures le(s[0], y) {
        var i :| 0 <= i < |s| && s[i] == y;
      }
      if le(x, s[0]) {
        ConsSorted(x, s, le);
      } else {
        InsertSorted(x, s[1..], le);
        InsertMembers(x, s[1..], le);
        ConsSorted(s[0], Insert(x, s[1..], le), le);
      }
    }
  }

  lemma {:induction false} SortPermutes<T>(s: seq<T>, le: (T, T) -> bool)
    ensures multiset(Sort(s, le)) == multiset(s)
    ensures |Sort(s, le)| == |s|
  {
    if s != [] {
      SortPermutes(s[1..], le);
      InsertPermutes(s[0], Sort(s[1..], le), le);
      assert s == [s[0]] + s[1..];
    }
    assert |multiset(Sort(s, le))| == |multiset(s)|;
  }

  lemma {:induction false} SortSorted<T(!new)>(s: seq<T>, le: (T, T) -> bool)
    requires TotalPreorder(le)
    ensures Sorted(Sort(s, le), le)
  {
    if s != [] {
      SortSorted(s[1..], le);
      InsertSorted(s[0], Sort(s[1..], le), le);
    }
  }

  lemma SortKeepsMembers<T>(s: seq<T>, le: (T, T) -> bool)
    ensures forall x :: x in Sort(s, le) <==> x in s
  {
    SortPermutes(s, le);
    forall x ensures x in Sort(s, le) <==> x in s {
      assert x in multiset(Sort(s, le)) <==> x in multiset(s);
    }
  }

  ghost predicate Distinct<T>(s: seq<T>) {
    forall i, j :: 0 <= i < j < |s| ==> s[i] != s[j]
  }

  // ----- removing duplicates

  function ToSet<T(==)>(s: seq<T>): (r: set<T>) {
    set x | x in s
  }

  lemma {:induction false} DistinctIffSetSize<T>(s: seq<T>)
    ensures |ToSet(s)| <= |s|
    ensures |ToSet(s)| == |s| <==> Distinct(s)
  {
    if s != [] {
      var n := |s| - 1;
      DistinctIffSetSize(s[..n]);
      assert s == s[..n] + [s[n]];
      assert ToSet(s) == ToSet(s[..n]) + {s[n]};
    }
  }

  /** `list(dict.fromkeys(s))`: each value once, at its first occurrence. */
  function Dedupe<T(==)>(s: seq<T>): (r: seq<T>) {
    if s == [] then []
    else
      var n := |s| - 1;
      if s[n] in s[..n] then Dedupe(s[..n]) else Dedupe(s[..n]) + [s[n]]
  }

  lemma {:induction false} DedupeMembers<T>(s: seq<T>)
    ensures Distinct(Dedupe(s)) && forall x :: x in Dedupe(s) <==> x in s
  {
    if s != [] {
      var n := |s| - 1;
      DedupeMembers(s[..n]);
      assert s == s[..n] + [s[n]];
    }
  }

  lemma DedupeMember<T>(s: seq<T>, x: T)
    ensures x in Dedupe(s) <==> x in s
  {
    DedupeMembers(s);
  }

  lemma {:induction false} DedupeConcat<T>(a: seq<T>, b: seq<T>)
    ensures Dedupe(a + b) == Dedupe(Dedupe(a) + b)
    decreases |b|
  {
    if b == [] {
      assert a + b == a && Dedupe(a) + b == Dedupe(a);
      DedupeMembers(a);
      DedupeOfDistinct(Dedupe(a));
    } else {
      var n := |b| - 1;
      DedupeConcat(a, b[..n]);
      assert (a + b)[..|a| + n] == a + b[..n];
      assert (Dedupe(a) + b)[..|Dedupe(a)| + n] == Dedupe(a) + b[..n];
      DedupeMember(a, b[n]);
    }
  }

  lemma {:induction false} DedupeOfDistinct<T>(a: seq<T>)
    requires Distinct(a)
    ensures Dedupe(a) == a
  {
    if a != [] {
      var n := |a| - 1;
      DedupeOfDistinct(a[..n]);
      assert a == a[..n] + [a[n]];
    }
  }

  /** The values with the property, in order. */
  function Sift<T>(s: seq<T>, p: T -> bool): (r: seq<T>) {
    if s == [] then [] else (if p(s[0]) then [s[0]] else []) + Sift(s[1..], p)
  }

  /** x occurs before every occurrence of y. */
  ghost predicate OccursFirst<T>(s: seq<T>, x: T, y: T) {
    exists i :: 0 <= i < |s| && s[i] == x && y !in s[..i + 1]
  }

  /** The values come in the order of their first occurrences. */
  lemma {:induction false} DedupeOrder<T>(s: seq<T>, i: nat, j: nat)
    requires i < j < |Dedupe(s)|
    ensures OccursFirst(s, Dedupe(s)[i], Dedupe(s)[j])
  {
    var n := |s| - 1;
    var before := Dedupe(s[..n]);
    DedupeMembers(s[..n]);
    if j < |before| {
      DedupeOrder(s[..n], i, j);
      var k :| 0 <= k < n && s[..n][k] == before[i] && before[j] !in s[..n][..k + 1];
      assert s[..n][..k + 1] == s[..k + 1];
    } else {
      DedupeMember(s[..n], before[i]);
      var k :| 0 <= k < n && s[..n][k] == before[i];
      assert s[n] !in s[..n] && s[..k + 1] <= s[..n];
    }
  }

  // ----- counting

  function Count<T>(s: seq<T>, p: T -> bool): (n: nat)
    ensures n <= |s|
  {
    if s == [] then 0 else (if p(s[0]) then 1 else 0) + Count(s[1..], p)
  }

  lemma {:induction false} CountAppend<T>(s: seq<T>, t: seq<T>, p: T -> bool)
    ensures Count(s + t, p) == Count(s, p) + Count(t, p)
  {
    if s == [] {
      assert s + t == t;
    } else {
      CountAppend(s[1..], t, p);
      assert (s + t)[1..] == s[1..] + t;
    }
  }

  lemma {:induction false} CountInsert<T>(x: T, s: seq<T>, le: (T, T) -> bool, p: T -> bool)
    ensures Count(Insert(x, s, le), p) == Count([x] + s, p)
  {
    assert ([x] + s)[1..] == s;
    if s == [] || le(x, s[0]) {
    } else {
      CountInsert(x, s[1..], le, p);
      assert ([x] + s[1..])[1..] == s[1..];
      assert ([s[0]] + Insert(x, s[1..], le))[1..] == Insert(x, s[1..], le);
    }
  }

  lemma {:induction false} CountSort<T>(s: seq<T>, le: (T, T) -> bool, p: T -> bool)
    ensures Count(Sort(s, le), p) == Count(s, p)
  {
    if s != [] {
      CountSort(s[1..], le, p);
      CountInsert(s[0], Sort(s[1..], le), le, p);
      assert ([s[0]] + Sort(s[1..], le))[1..] == Sort(s[1..], le);
    }
  }

  lemma {:induction false} CountNoneOrAll<T>(s: seq<T>, p: T -> bool)
    ensures (forall x :: x in s ==> !p(x)) ==> Count(s, p) == 0
    ensures (forall x :: x in s ==> p(x)) ==> Count(s, p) == |s|
  {
    if s != [] {
      CountNoneOrAll(s[1..], p);
    }
  }

  lemma {:induction false} CountAgree<T>(s: seq<T>, p: T -> bool, q: T -> bool)
    requires forall x :: x in s ==> (p(x) <==> q(x))
    ensures Count(s, p) == Count(s, q)
  {
    if s != [] {
      CountAgree(s[1..], p, q);
    }
  }

  lemma {:induction false} CountMonotone<T>(s: seq<T>, p: T -> bool, q: T -> bool)
    requires forall x :: x in s && p(x) ==> q(x)
    ensures Count(s, p) <= Count(s, q)
  {
    if s != [] {
      CountMonotone(s[1..], p, q);
    }
  }
}
