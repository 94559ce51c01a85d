/** The order in which `_ordered_chatgpt_nodes` of src/soloscale/conversation_intake.py emits siblings:
    by time and then by id, each with everything below it before the next one. */
module MessageOrder {
  import opened Wrappers
  import opened PyText
  import opened Sorting
  import opened MessageTree
  import opened MessageBranch

  // ----- the order of keys

  /** The node comes first: it has the smaller time, or the same time and the smaller id. */
  ghost predicate Earlier(m: Mapping, a: Id, b: Id) {
    Time(m, a) < Time(m, b) || (Time(m, a) == Time(m, b) && a != b && TextLe(a, b))
  }

  /** The ids are in the order of their times, and of the ids themselves where the times agree. */
  ghost predicate ByTime(m: Mapping, ids: seq<Id>) {
    forall i, j :: 0 <= i < j < |ids| && ids[i] != ids[j] ==> Earlier(m, ids[i], ids[j])
  }

  lemma KeysAreOrdered(m: Mapping)
    ensures TotalPreorder((a, b) => KeyLe(m, a, b))
  {
    var le := (a, b) => KeyLe(m, a, b);
    forall a, b ensures le(a, b) || le(b, a) { TextLeTotal(a, b); }
    forall a, b, c | le(a, b) && le(b, c) ensures le(a, c) {
      if Time(m, a) == Time(m, b) == Time(m, c) { TextLeTransitive(a, b, c); }
    }
  }

  lemma SortedByTime(m: Mapping, ids: seq<Id>)
    ensures ByTime(m, SortIds(m, ids))
  {
    KeysAreOrdered(m);
    SortSorted(ids, (a, b) => KeyLe(m, a, b));
    var sorted := SortIds(m, ids);
    forall i, j | 0 <= i < j < |sorted| && sorted[i] != sorted[j] ensures Earlier(m, sorted[i], sorted[j]) {
      assert KeyLe(m, sorted[i], sorted[j]);
    }
  }

  lemma {:induction false} RootsDistinct(m: Mapping, ids: seq<Id>)
    requires Distinct(ids) && forall id :: id in ids ==> id in m.nodes
    ensures Distinct(RootsAmong(m, ids))
  {
    if ids != [] {
      RootsDistinct(m, ids[1..]);
      RootsAre(m, ids[1..]);
      assert ids[0] !in ids[1..];
    }
  }

  lemma DistinctMultiplicity<T>(s: seq<T>, x: T)
    requires Distinct(s)
    ensures multiset(s)[x] <= 1
  {
    if x in s {
      var i :| 0 <= i < |s| && s[i] == x;
      assert s == s[..i] + [x] + s[i + 1..];
      assert x !in s[..i] && x !in s[i + 1..];
    }
  }

  lemma SortIsDistinct(m: Mapping, ids: seq<Id>)
    requires Distinct(ids)
    ensures Distinct(SortIds(m, ids))
  {
    var sorted := SortIds(m, ids);
    SortPermutes(ids, (a, b) => KeyLe(m, a, b));
    forall i, j | 0 <= i < j < |sorted| ensures sorted[i] != sorted[j] {
      if sorted[i] == sorted[j] {
        DistinctMultiplicity(ids, sorted[i]);
        TwiceThere(sorted, i, j);
      }
    }
  }

  lemma TwiceThere<T>(s: seq<T>, i: nat, j: nat)
    requires i < j < |s| && s[i] == s[j]
    ensures multiset(s)[s[i]] >= 2
  {
    assert s == s[..j] + s[j..];
    assert s[..j][i] == s[i] && s[j..][0] == s[i];
  }

  /** On any mapping, the children that are visited below a node and the roots come by time, each once. */
  lemma ListsAreByTime(m: Mapping, id: Id)
    requires m.Valid()
    ensures ByTime(m, OrderedChildren(m, id)) && Distinct(OrderedChildren(m, id))
    ensures ByTime(m, SortIds(m, Roots(m))) && Distinct(SortIds(m, Roots(m)))
  {
    SortedByTime(m, Roots(m));
    RootsDistinct(m, m.keys);
    SortIsDistinct(m, Roots(m));
    if id in m.nodes && m.nodes[id].Node? {
      SortedByTime(m, Dedupe(m.nodes[id].children));
      DedupeMembers(m.nodes[id].children);
      SortIsDistinct(m, Dedupe(m.nodes[id].children));
    }
  }

  // ----- what a search emits in a consistent forest

  /** x is the node or below it. */
  ghost predicate Under(m: Mapping, id: Id, x: Id) {
    AtOrAbove(Parents(m), id, x)
  }

  /** Neither lies under the other. */
  ghost predicate Apart(m: Mapping, ids: seq<Id>) {
    forall i, j :: 0 <= i < j < |ids| && ids[i] in m.nodes && ids[j] in m.nodes ==>
      !Under(m, ids[i], ids[j]) && !Under(m, ids[j], ids[i])
  }

  /** Everything emitted that lies under an earlier one of these ids comes before a later one. */
  ghost predicate SubtreesInOrder(m: Mapping, ids: seq<Id>, order: seq<Id>) {
    forall i, j, x :: 0 <= i < j < |ids| && ids[i] in m.nodes && ids[j] in m.nodes && x in order && Under(m, ids[i], x) ==>
      Before(order, x, ids[j])
  }

  /** So it is for the children of every emitted node. */
  ghost predicate ChildrenInOrder(m: Mapping, order: seq<Id>) {
    forall q :: q in order ==> SubtreesInOrder(m, OrderedChildren(m, q), order)
  }

  /** Whatever was visited was visited after its parent. */
  ghost predicate UpClosed(m: Mapping, visited: set<Id>) {
    forall x :: x in visited && x in Parents(m) && Parents(m)[x] in m.nodes ==> Parents(m)[x] in visited
  }

  lemma UnderItself(m: Mapping, id: Id)
    ensures Under(m, id, id)
  {
    assert Up(Parents(m), id, 0) == Some(id);
  }

  lemma UnderChild(m: Mapping, id: Id, c: Id, x: Id)
    requires c in Parents(m) && Parents(m)[c] == id && Under(m, c, x)
    ensures Under(m, id, x)
  {
    var k: nat :| Up(Parents(m), x, k) == Some(c);
    assert Up(Parents(m), x, k + 1) == Some(id);
  }

  /** What lies under two keys makes one of them lie under the other. */
  lemma UnderBoth(m: Mapping, a: Id, b: Id, x: Id)
    requires Under(m, a, x) && Under(m, b, x)
    ensures Under(m, a, b) || Under(m, b, a)
  {
    ChainIsLinear(Parents(m), a, b, x);
    UnderItself(m, a);
  }

  lemma UnderTransitive(m: Mapping, a: Id, b: Id, x: Id)
    requires Under(m, a, b) && Under(m, b, x)
    ensures Under(m, a, x)
  {
    var j: nat :| Up(Parents(m), x, j) == Some(b);
    var k: nat :| Up(Parents(m), b, k) == Some(a);
    UpUp(Parents(m), x, j, k);
  }

  lemma ParentNotUnderChild(m: Mapping, rank: map<Id, nat>, id: Id, c: Id)
    requires ConsistentForest(m, rank) && id in m.nodes && c in m.nodes && c in Parents(m) && Parents(m)[c] == id
    ensures !Under(m, c, id)
  {
    if Under(m, c, id) {
      var k: nat :| Up(Parents(m), id, k) == Some(c);
      RankFalls(Parents(m), m.nodes.Keys, rank, id, k);
    }
  }

  lemma ChildLinks(m: Mapping, rank: map<Id, nat>, id: Id)
    requires ConsistentForest(m, rank) && id in m.nodes
    ensures LinkedToChildren(m, id)
  {
    hide Parents;
    if m.nodes[id].Node? { ChildrenOf(m, id); }
  }

  /** Siblings are apart. */
  lemma ChildrenApart(m: Mapping, rank: map<Id, nat>, id: Id)
    requires ConsistentForest(m, rank) && id in m.nodes
    ensures Apart(m, OrderedChildren(m, id))
    ensures forall c :: c in OrderedChildren(m, id) && c in m.nodes ==> c in Parents(m) && Parents(m)[c] == id
  {
    hide OrderedChildren;
    hide Parents;
    hide Under;
    ChildLinks(m, rank, id);
    assert LinkedToChildren(m, id);
    assert m.Valid();
    ListsAreByTime(m, id);
    var cs := OrderedChildren(m, id);
    hide ConsistentForest;
    forall i, j | 0 <= i < |cs| && 0 <= j < |cs| && i != j && cs[i] in m.nodes && cs[j] in m.nodes ensures !Under(m, cs[i], cs[j]) {
      assert cs[i] in cs && cs[j] in cs && cs[i] != cs[j];
      SiblingNotUnder(m, rank, id, cs[i], cs[j]);
    }
  }

  lemma SiblingNotUnder(m: Mapping, rank: map<Id, nat>, id: Id, c: Id, d: Id)
    requires ConsistentForest(m, rank) && id in m.nodes && c in m.nodes && d in m.nodes && c != d
    requires c in Parents(m) && Parents(m)[c] == id && d in Parents(m) && Parents(m)[d] == id
    ensures !Under(m, c, d)
  {
    if Under(m, c, d) {
      var k: nat :| Up(Parents(m), d, k) == Some(c);
      assert k > 0;
      OneStep(m, d, id);
      UpUp(Parents(m), d, 1, k - 1);
      assert Under(m, c, id);
      ParentNotUnderChild(m, rank, id, c);
    }
  }

  lemma OneStep(m: Mapping, d: Id, id: Id)
    requires d in Parents(m) && Parents(m)[d] == id
    ensures Up(Parents(m), d, 1) == Some(id)
  {
    assert Up(Parents(m), d, 0) == Some(d);
  }

  lemma BeforeInConcat(a: seq<Id>, b: seq<Id>, x: Id, y: Id)
    ensures Before(a, x, y) ==> Before(a + b, x, y)
    ensures Before(b, x, y) ==> Before(a + b, x, y)
    ensures x in a && y in b ==> Before(a + b, x, y)
  {
    var s := a + b;
    if Before(a, x, y) {
      var i, j :| 0 <= i < j < |a| && a[i] == x && a[j] == y;
      assert s[i] == x && s[j] == y;
    }
    if Before(b, x, y) {
      var i, j :| 0 <= i < j < |b| && b[i] == x && b[j] == y;
      assert s[|a| + i] == x && s[|a| + j] == y;
    }
    if x in a && y in b {
      var i :| 0 <= i < |a| && a[i] == x;
      var j :| 0 <= j < |b| && b[j] == y;
      assert s[i] == x && s[|a| + j] == y;
    }
  }

  /** No node of one lies under a node of the other. */
  ghost predicate Separate(m: Mapping, a: seq<Id>, b: seq<Id>) {
    forall q, x :: q in a && x in b ==> !Under(m, q, x) && !Under(m, x, q)
  }

  ghost predicate LinkedToChildren(m: Mapping, q: Id) {
    q in m.nodes && forall c :: c in OrderedChildren(m, q) && c in m.nodes ==> c in Parents(m) && Parents(m)[c] == q
  }

  lemma SideOf(m: Mapping, a: seq<Id>, b: seq<Id>, q: Id, c: Id, x: Id)
    requires Separate(m, a, b) && LinkedToChildren(m, q) && c in OrderedChildren(m, q) && c in m.nodes && Under(m, c, x)
    ensures !(q in a && x in b) && !(q in b && x in a)
  {
    hide OrderedChildren;
    UnderChild(m, q, c, x);
  }

  /** What two searches emit one after the other keeps the children's order. */
  lemma ConcatKeepsChildren(m: Mapping, a: seq<Id>, b: seq<Id>)
    requires ChildrenInOrder(m, a) && ChildrenInOrder(m, b) && Separate(m, a, b)
    requires forall q :: q in a + b ==> LinkedToChildren(m, q)
    ensures ChildrenInOrder(m, a + b)
  {
    hide OrderedChildren;
    hide Under;
    hide Before;
    hide Separate;
    hide LinkedToChildren;
    forall q | q in a + b ensures SubtreesInOrder(m, OrderedChildren(m, q), a + b) {
      var cs := OrderedChildren(m, q);
      assert LinkedToChildren(m, q);
      forall i, j, x | 0 <= i < j < |cs| && cs[i] in m.nodes && cs[j] in m.nodes && x in a + b && Under(m, cs[i], x)
        ensures Before(a + b, x, cs[j])
      {
        assert cs[i] in cs;
        SideOf(m, a, b, q, cs[i], x);
        BeforeInConcat(a, b, x, cs[j]);
        if q in a { assert SubtreesInOrder(m, cs, a); } else { assert SubtreesInOrder(m, cs, b); }
      }
    }
  }

  /** The node in front keeps the order of what was emitted below it. */
  lemma NodeKeepsChildren(m: Mapping, rank: map<Id, nat>, id: Id, below: seq<Id>)
    requires ConsistentForest(m, rank) && id in m.nodes && ChildrenInOrder(m, below)
    requires SubtreesInOrder(m, OrderedChildren(m, id), below)
    requires forall x :: x in below ==> x in m.nodes && x != id && Under(m, id, x)
    ensures ChildrenInOrder(m, [id] + below)
  {
    var order := [id] + below;
    forall q | q in order ensures SubtreesInOrder(m, OrderedChildren(m, q), order) {
      var cs := OrderedChildren(m, q);
      ChildrenApart(m, rank, q);
      forall i, j, x | 0 <= i < j < |cs| && cs[i] in m.nodes && cs[j] in m.nodes && x in order && Under(m, cs[i], x)
        ensures Before(order, x, cs[j])
      {
        assert cs[i] in cs;
        if x == id {
          UnderChild(m, q, cs[i], id);
          NotUnderOwnChild(m, rank, id, q, cs[i]);
        }
        BeforeInConcat([id], below, x, cs[j]);
      }
    }
  }

  /** Nothing above q, nor q itself, lies under a child of q. */
  lemma NotUnderOwnChild(m: Mapping, rank: map<Id, nat>, id: Id, q: Id, c: Id)
    requires ConsistentForest(m, rank) && id in m.nodes && q in m.nodes && c in m.nodes
    requires c in Parents(m) && Parents(m)[c] == q && Under(m, id, q)
    ensures !Under(m, c, id)
  {
    if Under(m, c, id) {
      UnderTransitive(m, c, id, q);
      ParentNotUnderChild(m, rank, q, c);
    }
  }

  /** A search of nodes none of which was reached before, in a consistent forest. */
  ghost predicate CanSearch(m: Mapping, ids: seq<Id>, visited: set<Id>) {
    && Apart(m, ids) && Distinct(ids) && UpClosed(m, visited)
    && forall id :: id in ids && id in m.nodes ==> id !in visited && UpClosed(m, visited + {id})
  }

  /** x lies under one of the ids from a position on. */
  ghost predicate UnderSome(m: Mapping, ids: seq<Id>, from: nat, x: Id) {
    exists k :: from <= k < |ids| && ids[k] in m.nodes && Under(m, ids[k], x)
  }

  ghost predicate WellOrdered(m: Mapping, ids: seq<Id>, visited: set<Id>, w: Walk) {
    && GoodWalk(m, ids, visited, w) && UpClosed(m, w.visited)
    && (forall x :: x in w.order ==> UnderSome(m, ids, 0, x))
    && ChildrenInOrder(m, w.order) && SubtreesInOrder(m, ids, w.order)
  }

  lemma {:induction false} DfsWellOrdered(m: Mapping, rank: map<Id, nat>, id: Id, visited: set<Id>)
    requires ConsistentForest(m, rank) && CanSearch(m, [id], visited)
    ensures WellOrdered(m, [id], visited, Dfs(m, id, visited))
    decreases m.nodes.Keys - visited, 0, 0
  {
    DfsIsGood(m, id, visited);
    assert id in [id];
    if id in m.nodes {
      var children := OrderedChildren(m, id);
      ChildrenApart(m, rank, id);
      CanSearchChildren(m, rank, id, visited);
      DfsAllWellOrdered(m, rank, children, visited + {id});
      NodeWellOrdered(m, rank, id, visited, DfsAll(m, children, visited + {id}));
    }
  }

  lemma CanSearchChildren(m: Mapping, rank: map<Id, nat>, id: Id, visited: set<Id>)
    requires ConsistentForest(m, rank) && CanSearch(m, [id], visited) && id in m.nodes
    ensures CanSearch(m, OrderedChildren(m, id), visited + {id})
  {
    ListsAreByTime(m, id);
    ChildrenApart(m, rank, id);
    assert id in [id];
    forall c | c in OrderedChildren(m, id) && c in m.nodes ensures c !in visited + {id} && UpClosed(m, visited + {id} + {c}) {
      if c == id {
        UnderItself(m, id);
        ParentNotUnderChild(m, rank, id, c);
      }
    }
  }

  lemma NodeWellOrdered(m: Mapping, rank: map<Id, nat>, id: Id, visited: set<Id>, below: Walk)
    requires ConsistentForest(m, rank) && id in m.nodes && id !in visited
    requires WellOrdered(m, OrderedChildren(m, id), visited + {id}, below)
    requires GoodWalk(m, [id], visited, Walk(below.visited, [id] + below.order))
    ensures WellOrdered(m, [id], visited, Walk(below.visited, [id] + below.order))
  {
    hide GoodWalk;
    var order := [id] + below.order;
    ChildrenApart(m, rank, id);
    UnderItself(m, id);
    EmittedAreKeys(m, OrderedChildren(m, id), visited + {id}, below);
    forall x | x in below.order ensures Under(m, id, x) {
      var k :| 0 <= k < |OrderedChildren(m, id)| && OrderedChildren(m, id)[k] in m.nodes && Under(m, OrderedChildren(m, id)[k], x);
      UnderChild(m, id, OrderedChildren(m, id)[k], x);
    }
    NodeKeepsChildren(m, rank, id, below.order);
    forall x | x in order ensures UnderSome(m, [id], 0, x) {
      assert [id][0] == id;
    }
  }

  lemma EmittedAreKeys(m: Mapping, ids: seq<Id>, visited: set<Id>, w: Walk)
    requires GoodWalk(m, ids, visited, w)
    ensures forall x :: x in w.order ==> x in m.nodes && x !in visited
    ensures w.visited == visited + ToSet(w.order)
  {
  }

  lemma {:induction false} DfsAllWellOrdered(m: Mapping, rank: map<Id, nat>, ids: seq<Id>, visited: set<Id>)
    requires ConsistentForest(m, rank) && CanSearch(m, ids, visited)
    ensures WellOrdered(m, ids, visited, DfsAll(m, ids, visited))
    decreases m.nodes.Keys - visited, 1, |ids|
  {
    DfsAllIsGood(m, ids, visited);
    if ids != [] {
      var first := Dfs(m, ids[0], visited);
      CanSearchFirst(m, ids, visited);
      DfsWellOrdered(m, rank, ids[0], visited);
      CanSearchRest(m, ids, visited, first);
      DfsAllWellOrdered(m, rank, ids[1..], first.visited);
      ComposeWellOrdered(m, rank, ids, visited, first, DfsAll(m, ids[1..], first.visited));
    }
  }

  lemma CanSearchFirst(m: Mapping, ids: seq<Id>, visited: set<Id>)
    requires ids != [] && CanSearch(m, ids, visited)
    ensures CanSearch(m, [ids[0]], visited)
  {
    assert ids[0] in ids;
  }

  lemma CanSearchRest(m: Mapping, ids: seq<Id>, visited: set<Id>, first: Walk)
    requires ids != [] && CanSearch(m, ids, visited) && WellOrdered(m, [ids[0]], visited, first)
    ensures CanSearch(m, ids[1..], first.visited)
  {
    hide GoodWalk;
    EmittedAreKeys(m, [ids[0]], visited, first);
    FirstUnderFirst(m, ids, visited, first);
    var rest := ids[1..];
    forall i, j | 0 <= i < j < |rest| && rest[i] in m.nodes && rest[j] in m.nodes
      ensures !Under(m, rest[i], rest[j]) && !Under(m, rest[j], rest[i])
    {
      assert rest[i] == ids[i + 1] && rest[j] == ids[j + 1];
    }
    forall id | id in rest && id in m.nodes ensures id !in first.visited && UpClosed(m, first.visited + {id}) {
      var i :| 0 <= i < |rest| && rest[i] == id;
      assert ids[i + 1] == id && id in ids;
      assert ids[0] in m.nodes ==> !Under(m, ids[0], id);
      assert UpClosed(m, visited + {id});
    }
  }

  lemma ComposeWellOrdered(m: Mapping, rank: map<Id, nat>, ids: seq<Id>, visited: set<Id>, first: Walk, rest: Walk)
    requires ConsistentForest(m, rank) && ids != [] && CanSearch(m, ids, visited)
    requires WellOrdered(m, [ids[0]], visited, first) && WellOrdered(m, ids[1..], first.visited, rest)
    requires GoodWalk(m, ids, visited, Walk(rest.visited, first.order + rest.order))
    ensures WellOrdered(m, ids, visited, Walk(rest.visited, first.order + rest.order))
  {
    hide GoodWalk;
    hide ChildrenInOrder;
    hide SubtreesInOrder;
    hide ConsistentForest;
    hide Under;
    hide LinkedToChildren;
    var order := first.order + rest.order;
    EmittedAreKeys(m, [ids[0]], visited, first);
    EmittedAreKeys(m, ids[1..], first.visited, rest);
    FirstUnderFirst(m, ids, visited, first);
    RestUnderRest(m, ids, rest.order);
    RestIsSeparate(m, ids, first.order, rest.order);
    forall q | q in order ensures LinkedToChildren(m, q) { ChildLinks(m, rank, q); }
    ConcatKeepsChildren(m, first.order, rest.order);
    RestIsEmitted(m, ids, visited, first, rest);
    ComposeSubtrees(m, ids, first.order, rest.order);
    AllUnderSome(m, ids, first.order, rest.order);
  }

  lemma RestIsEmitted(m: Mapping, ids: seq<Id>, visited: set<Id>, first: Walk, rest: Walk)
    requires ids != [] && CanSearch(m, ids, visited)
    requires WellOrdered(m, [ids[0]], visited, first) && GoodWalk(m, ids[1..], first.visited, rest)
    ensures forall k :: 1 <= k < |ids| && ids[k] in m.nodes ==> ids[k] in rest.order
  {
    hide Under;
    hide UpClosed;
    EmittedAreKeys(m, ids[1..], first.visited, rest);
    CanSearchRest(m, ids, visited, first);
    forall k | 1 <= k < |ids| && ids[k] in m.nodes ensures ids[k] in rest.order {
      assert ids[1..][k - 1] == ids[k];
      assert ids[k] in ids[1..];
    }
  }

  lemma RestUnderRest(m: Mapping, ids: seq<Id>, order: seq<Id>)
    requires ids != [] && forall x :: x in order ==> UnderSome(m, ids[1..], 0, x)
    ensures forall x :: x in order ==> UnderSome(m, ids, 1, x)
  {
    hide Under;
    forall x | x in order ensures UnderSome(m, ids, 1, x) {
      var k :| 0 <= k < |ids[1..]| && ids[1..][k] in m.nodes && Under(m, ids[1..][k], x);
      assert ids[k + 1] == ids[1..][k];
    }
  }

  lemma RestIsSeparate(m: Mapping, ids: seq<Id>, a: seq<Id>, b: seq<Id>)
    requires ids != [] && Apart(m, ids)
    requires forall x :: x in a ==> ids[0] in m.nodes && Under(m, ids[0], x)
    requires forall x :: x in b ==> UnderSome(m, ids, 1, x)
    ensures Separate(m, a, b)
  {
    hide Under;
    hide Apart;
    forall q, x | q in a && x in b ensures !Under(m, q, x) && !Under(m, x, q) {
      var k :| 1 <= k < |ids| && ids[k] in m.nodes && Under(m, ids[k], x);
      NoCrossing(m, ids, k, q, x);
    }
  }

  lemma AllUnderSome(m: Mapping, ids: seq<Id>, a: seq<Id>, b: seq<Id>)
    requires ids != [] && forall x :: x in a ==> ids[0] in m.nodes && Under(m, ids[0], x)
    requires forall x :: x in b ==> UnderSome(m, ids, 1, x)
    ensures forall x :: x in a + b ==> UnderSome(m, ids, 0, x)
  {
    hide Under;
  }

  lemma FirstUnderFirst(m: Mapping, ids: seq<Id>, visited: set<Id>, first: Walk)
    requires ids != [] && WellOrdered(m, [ids[0]], visited, first)
    ensures forall x :: x in first.order ==> ids[0] in m.nodes && Under(m, ids[0], x)
    ensures ids[0] in m.nodes && ids[0] !in visited ==> ids[0] in first.order
  {
    assert ids[0] in [ids[0]];
    forall x | x in first.order ensures ids[0] in m.nodes && Under(m, ids[0], x) {
      assert UnderSome(m, [ids[0]], 0, x);
    }
  }

  lemma NoCrossing(m: Mapping, ids: seq<Id>, k: nat, q: Id, x: Id)
    requires Apart(m, ids) && 1 <= k < |ids| && ids[0] in m.nodes && ids[k] in m.nodes
    requires Under(m, ids[0], q) && Under(m, ids[k], x)
    ensures !Under(m, q, x) && !Under(m, x, q)
  {
    if Under(m, q, x) {
      UnderTransitive(m, ids[0], q, x);
      UnderBoth(m, ids[0], ids[k], x);
    } else if Under(m, x, q) {
      UnderTransitive(m, ids[k], x, q);
      UnderBoth(m, ids[0], ids[k], q);
    }
  }

  lemma NotUnderFirst(m: Mapping, ids: seq<Id>, k: nat, x: Id)
    requires Apart(m, ids) && 1 <= k < |ids| && ids[0] in m.nodes && ids[k] in m.nodes && Under(m, ids[k], x)
    ensures !Under(m, ids[0], x)
  {
    if Under(m, ids[0], x) { UnderBoth(m, ids[0], ids[k], x); }
  }

  lemma ComposeSubtrees(m: Mapping, ids: seq<Id>, a: seq<Id>, b: seq<Id>)
    requires ids != [] && Apart(m, ids)
    requires forall x :: x in a ==> ids[0] in m.nodes && Under(m, ids[0], x)
    requires forall x :: x in b ==> UnderSome(m, ids, 1, x)
    requires SubtreesInOrder(m, ids[1..], b)
    requires forall k :: 1 <= k < |ids| && ids[k] in m.nodes ==> ids[k] in b
    ensures SubtreesInOrder(m, ids, a + b)
  {
    hide Under;
    hide Before;
    hide Apart;
    hide UnderSome;
    forall i, j, x | 0 <= i < j < |ids| && ids[i] in m.nodes && ids[j] in m.nodes && x in a + b && Under(m, ids[i], x)
      ensures Before(a + b, x, ids[j])
    {
      if x in a {
        assert ids[j] in b;
        BeforeInConcat(a, b, x, ids[j]);
      } else {
        LaterInOrder(m, ids, a, b, i, j, x);
      }
    }
  }

  lemma LaterInOrder(m: Mapping, ids: seq<Id>, a: seq<Id>, b: seq<Id>, i: nat, j: nat, x: Id)
    requires Apart(m, ids) && i < j < |ids| && ids[i] in m.nodes && ids[j] in m.nodes && x in b && Under(m, ids[i], x)
    requires UnderSome(m, ids, 1, x) && SubtreesInOrder(m, ids[1..], b)
    ensures Before(a + b, x, ids[j])
  {
    hide Under;
    hide Before;
    hide Apart;
    hide SubtreesInOrder;
    var k :| 1 <= k < |ids| && ids[k] in m.nodes && Under(m, ids[k], x);
    if ids[0] in m.nodes { NotUnderFirst(m, ids, k, x); }
    LaterSubtrees(m, ids, b, i, j, x);
    BeforeInConcat(a, b, x, ids[j]);
  }

  lemma LaterSubtrees(m: Mapping, ids: seq<Id>, b: seq<Id>, i: nat, j: nat, x: Id)
    requires 0 < i < j < |ids| && ids[i] in m.nodes && ids[j] in m.nodes && x in b && Under(m, ids[i], x)
    requires SubtreesInOrder(m, ids[1..], b)
    ensures Before(b, x, ids[j])
  {
    hide Under;
    hide Before;
    assert ids[1..][i - 1] == ids[i] && ids[1..][j - 1] == ids[j];
  }

  // ----- the whole order

  lemma RootsApart(m: Mapping, rank: map<Id, nat>)
    requires ConsistentForest(m, rank)
    ensures CanSearch(m, SortIds(m, Roots(m)), {})
  {
    hide Under;
    hide SortIds;
    assert m.Valid();
    ListsAreByTime(m, "");
    var roots := SortIds(m, Roots(m));
    forall i, j | 0 <= i < |roots| && 0 <= j < |roots| && i != j && roots[i] in m.nodes && roots[j] in m.nodes
      ensures !Under(m, roots[i], roots[j])
    {
      assert roots[j] in roots && roots[i] != roots[j];
      RootNotUnder(m, rank, roots[i], roots[j]);
    }
    forall id | id in roots && id in m.nodes ensures UpClosed(m, {} + {id}) { RootIff(m, rank, id); }
  }

  lemma RootNotUnder(m: Mapping, rank: map<Id, nat>, a: Id, root: Id)
    requires ConsistentForest(m, rank) && a in m.nodes && root in m.nodes && a != root && root in SortIds(m, Roots(m))
    ensures !Under(m, a, root)
  {
    hide SortIds;
    RootIff(m, rank, root);
    if Under(m, a, root) {
      var k: nat :| Up(Parents(m), root, k) == Some(a);
      NothingAboveRoot(m, root, k);
    }
  }

  lemma {:induction false} NothingAboveRoot(m: Mapping, root: Id, k: nat)
    requires !(root in Parents(m) && Parents(m)[root] in m.nodes)
    ensures Up(Parents(m), root, k).Some? && Up(Parents(m), root, k).value in m.nodes ==> k == 0
  {
    if k > 0 && Up(Parents(m), root, k).Some? {
      NothingAboveRoot(m, root, k - 1);
      UpStays(Parents(m), root, k - 1, k);
      ParentsAreOfKeys(m, Up(Parents(m), root, k - 1).value);
    }
  }

  lemma ParentsAreOfKeys(m: Mapping, id: Id)
    ensures id in Parents(m) ==> id in m.nodes
  {
  }

  /** Two children of one parent, or two roots. */
  ghost predicate Siblings(m: Mapping, a: Id, b: Id) {
    && a in m.nodes && b in m.nodes
    && (if a in Parents(m) && Parents(m)[a] in m.nodes then b in Parents(m) && Parents(m)[b] == Parents(m)[a]
        else !(b in Parents(m) && Parents(m)[b] in m.nodes))
  }

  /** In a consistent forest a sibling with the smaller time, or the same time and the smaller id, is emitted
      first, and everything below it as well before the other one. */
  lemma SiblingsByTime(m: Mapping, rank: map<Id, nat>, a: Id, b: Id, x: Id)
    requires ConsistentForest(m, rank) && Siblings(m, a, b) && Earlier(m, a, b) && x in m.nodes && Under(m, a, x)
    ensures Before(Preorder(m), x, b)
  {
    hide Under;
    hide Before;
    hide Earlier;
    hide Preorder;
    WholeOrder(m, rank);
    if a in Parents(m) && Parents(m)[a] in m.nodes {
      ChildrenByTime(m, rank, Parents(m)[a], a, b, x);
    } else {
      RootsByTime(m, rank, a, b, x);
    }
  }

  /** The whole order keeps siblings' subtrees apart and in the order of their lists. */
  lemma WholeOrder(m: Mapping, rank: map<Id, nat>)
    requires ConsistentForest(m, rank)
    ensures ChildrenInOrder(m, Preorder(m)) && SubtreesInOrder(m, SortIds(m, Roots(m)), Preorder(m))
    ensures forall id :: id in Preorder(m) <==> id in m.nodes
  {
    hide Under;
    hide Before;
    hide SortIds;
    hide UpClosed;
    hide CanSearch;
    hide GoodWalk;
    hide ChildrenInOrder;
    hide SubtreesInOrder;
    RootsApart(m, rank);
    PreorderFromRoots(m, rank);
    DfsAllWellOrdered(m, rank, SortIds(m, Roots(m)), {});
    PreorderIsPermutation(m);
  }

  lemma ChildrenByTime(m: Mapping, rank: map<Id, nat>, q: Id, a: Id, b: Id, x: Id)
    requires ConsistentForest(m, rank) && q in m.nodes && a in m.nodes && b in m.nodes && x in m.nodes
    requires a in Parents(m) && Parents(m)[a] == q && b in Parents(m) && Parents(m)[b] == q
    requires ChildrenInOrder(m, Preorder(m)) && (forall id :: id in Preorder(m) <==> id in m.nodes)
    requires Earlier(m, a, b) && Under(m, a, x)
    ensures Before(Preorder(m), x, b)
  {
    hide Under;
    hide Before;
    hide Earlier;
    hide Preorder;
    hide OrderedChildren;
    ListsAreByTime(m, q);
    IsListedChild(m, rank, a);
    IsListedChild(m, rank, b);
    InListOrder(m, OrderedChildren(m, q), Preorder(m), a, b, x);
  }

  lemma RootsByTime(m: Mapping, rank: map<Id, nat>, a: Id, b: Id, x: Id)
    requires ConsistentForest(m, rank) && a in m.nodes && b in m.nodes && x in m.nodes
    requires !(a in Parents(m) && Parents(m)[a] in m.nodes) && !(b in Parents(m) && Parents(m)[b] in m.nodes)
    requires SubtreesInOrder(m, SortIds(m, Roots(m)), Preorder(m)) && (forall id :: id in Preorder(m) <==> id in m.nodes)
    requires Earlier(m, a, b) && Under(m, a, x)
    ensures Before(Preorder(m), x, b)
  {
    hide Under;
    hide Before;
    hide Earlier;
    hide Preorder;
    hide SortIds;
    ListsAreByTime(m, a);
    RootIff(m, rank, a);
    RootIff(m, rank, b);
    InListOrder(m, SortIds(m, Roots(m)), Preorder(m), a, b, x);
  }

  lemma IsListedChild(m: Mapping, rank: map<Id, nat>, a: Id)
    requires ConsistentForest(m, rank) && a in Parents(m) && Parents(m)[a] in m.nodes
    ensures a in OrderedChildren(m, Parents(m)[a])
  {
    ChildrenOf(m, Parents(m)[a]);
  }

  lemma InListOrder(m: Mapping, ids: seq<Id>, order: seq<Id>, a: Id, b: Id, x: Id)
    requires ByTime(m, ids) && SubtreesInOrder(m, ids, order) && a in ids && b in ids && a in m.nodes && b in m.nodes
    requires Earlier(m, a, b) && x in order && Under(m, a, x)
    ensures Before(order, x, b)
  {
    hide Under;
    hide Before;
    var i :| 0 <= i < |ids| && ids[i] == a;
    var j :| 0 <= j < |ids| && ids[j] == b;
    TextLeTotal(a, b);
    assert i < j;
  }
}
