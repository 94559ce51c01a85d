/** The exported message mapping of src/soloscale/conversation_intake.py: an untrusted dictionary of
    nodes whose parent and child links may be cyclic, shared, dangling or contradictory. */
module MessageTree {
  import opened Wrappers
  import opened PyText
  import opened Sorting

  type Id = string

  /** A message that passed the visibility, role and text filters. */
  datatype Message = Message(messageId: string, textHash: string)

  /** A value of the mapping.  `Opaque` is a value that is not itself a dictionary; `parent` is the
      raw parent string if there is one, `children` the strings of the children list. */
  datatype Node =
    | Opaque
    | Node(parent: Option<Id>, children: seq<Id>, time: real, message: Option<Message>)

  /** A dictionary: its keys in insertion order, and their values. */
  datatype Mapping = Mapping(keys: seq<Id>, nodes: map<Id, Node>) {
    ghost predicate Valid() {
      Distinct(keys) && forall id :: id in keys <==> id in nodes
    }
  }

  // ----- sorting keys

  function Time(m: Mapping, id: Id): (time: real) {
    if id in m.nodes && m.nodes[id].Node? then m.nodes[id].time else 0.0
  }

  predicate KeyLe(m: Mapping, a: Id, b: Id) {
    Time(m, a) < Time(m, b) || (Time(m, a) == Time(m, b) && TextLe(a, b))
  }

  function SortIds(m: Mapping, ids: seq<Id>): (sorted: seq<Id>) {
    Sort(ids, (a, b) => KeyLe(m, a, b))
  }

  function OrderedChildren(m: Mapping, id: Id): (children: seq<Id>) {
    if id in m.nodes && m.nodes[id].Node? then SortIds(m, Dedupe(m.nodes[id].children)) else []
  }

  predicate IsRoot(m: Mapping, id: Id)
    requires id in m.nodes
  {
    m.nodes[id].Opaque? || m.nodes[id].parent.None? || m.nodes[id].parent.value !in m.nodes
  }

  // ----- recursive depth-first search

  /** What a search leaves behind: the visited set and the nodes it emitted, in order. */
  datatype Walk = Walk(visited: set<Id>, order: seq<Id>)

  function Dfs(m: Mapping, id: Id, visited: set<Id>): (w: Walk)
    ensures visited <= w.visited
    decreases m.nodes.Keys - visited, 0, 0
  {
    if id in visited || id !in m.nodes then Walk(visited, [])
    else
      var below := DfsAll(m, OrderedChildren(m, id), visited + {id});
      Walk(below.visited, [id] + below.order)
  }

  function DfsAll(m: Mapping, ids: seq<Id>, visited: set<Id>): (w: Walk)
    ensures visited <= w.visited
    decreases m.nodes.Keys - visited, 1, |ids|
  {
    if ids == [] then Walk(visited, [])
    else
      var first := Dfs(m, ids[0], visited);
      var rest := DfsAll(m, ids[1..], first.visited);
      Walk(rest.visited, first.order + rest.order)
  }

  function Roots(m: Mapping): (roots: seq<Id>)
    requires m.Valid()
  {
    RootsAmong(m, m.keys)
  }

  function RootsAmong(m: Mapping, ids: seq<Id>): (roots: seq<Id>)
    requires forall id :: id in ids ==> id in m.nodes
  {
    if ids == [] then []
    else (if IsRoot(m, ids[0]) then [ids[0]] else []) + RootsAmong(m, ids[1..])
  }

  /** Preorder of the whole mapping: roots first, then whatever no root reaches. */
  function Preorder(m: Mapping): (order: seq<Id>)
    requires m.Valid()
  {
    DfsAll(m, SortIds(m, Roots(m)) + SortIds(m, m.keys), {}).order
  }

  function Reverse(ids: seq<Id>): (r: seq<Id>)
    ensures |r| == |ids|
  {
    if ids == [] then [] else [ids[|ids| - 1]] + Reverse(ids[..|ids| - 1])
  }

  // ----- the explicit-stack traversal

  /** What remains to be searched when the stack (top last) holds these nodes. */
  function Pending(m: Mapping, stack: seq<Id>, visited: set<Id>): (w: Walk) {
    DfsAll(m, Reverse(stack), visited)
  }

  /** One call of the source's inner `visit`: exactly a recursive search from `start`. */
  method Visit(m: Mapping, start: Id, visitedBefore: set<Id>, orderBefore: seq<Id>)
    returns (visited: set<Id>, order: seq<Id>)
    ensures visited == Dfs(m, start, visitedBefore).visited
    ensures order == orderBefore + Dfs(m, start, visitedBefore).order
  {
    visited, order := visitedBefore, orderBefore;
    ghost var goal := Dfs(m, start, visitedBefore);
    var stack := [start];
    DfsAllOne(m, start, visitedBefore);
    assert Reverse(stack) == [start];
    while stack != []
      invariant goal.visited == Pending(m, stack, visited).visited
      invariant orderBefore + goal.order == order + Pending(m, stack, visited).order
      decreases m.nodes.Keys - visited, |stack|
    {
      StackStep(m, stack, visited);
      var id := stack[|stack| - 1];
      stack := stack[..|stack| - 1];
      if id !in visited && id in m.nodes {
        visited := visited + {id};
        order := order + [id];
        stack := stack + Reverse(OrderedChildren(m, id));
      }
    }
    assert order + [] == order;
  }

  lemma StackStep(m: Mapping, stack: seq<Id>, visited: set<Id>)
    requires stack != []
    ensures var id := stack[|stack| - 1]; var below := stack[..|stack| - 1];
            if id in visited || id !in m.nodes then Pending(m, stack, visited) == Pending(m, below, visited)
            else
              var rest := Pending(m, below + Reverse(OrderedChildren(m, id)), visited + {id});
              Pending(m, stack, visited) == Walk(rest.visited, [id] + rest.order)
  {
    hide OrderedChildren;
    var id := stack[|stack| - 1];
    var waiting := Reverse(stack[..|stack| - 1]);
    assert Reverse(stack) == [id] + waiting;
    DfsAllConcat(m, [id], waiting, visited);
    DfsAllOne(m, id, visited);
    if id in visited || id !in m.nodes {
      assert [] + DfsAll(m, waiting, visited).order == DfsAll(m, waiting, visited).order;
    } else {
      var children := OrderedChildren(m, id);
      ReverseConcat(stack[..|stack| - 1], Reverse(children));
      ReverseTwice(children);
      DfsAllConcat(m, children, waiting, visited + {id});
      var first := DfsAll(m, children, visited + {id});
      var rest := DfsAll(m, waiting, first.visited);
      assert ([id] + first.order) + rest.order == [id] + (first.order + rest.order);
    }
  }

  /** `_ordered_chatgpt_nodes` emits the recursive preorder, which is a permutation of the keys. */
  method OrderedNodes(m: Mapping) returns (order: seq<Id>)
    requires m.Valid()
    ensures order == Preorder(m)
    ensures Distinct(order) && forall id :: id in order <==> id in m.nodes
  {
    hide Dfs;
    hide SortIds;
    order := [];
    var visited: set<Id> := {};
    var roots := SortIds(m, Roots(m));
    var keys := SortIds(m, m.keys);
    ghost var all := roots + keys;
    for i := 0 to |roots|
      invariant Walk(visited, order) == DfsAll(m, all[..i], {})
    {
      DfsAllSnoc(m, all, i, {});
      visited, order := Visit(m, roots[i], visited, order);
    }
    for i := 0 to |keys|
      invariant Walk(visited, order) == DfsAll(m, all[..|roots| + i], {})
    {
      DfsAllSnoc(m, all, |roots| + i, {});
      visited, order := Visit(m, keys[i], visited, order);
    }
    assert all[..|roots| + |keys|] == all;
    PreorderIsPermutation(m);
  }

  lemma DfsAllOne(m: Mapping, id: Id, visited: set<Id>)
    ensures DfsAll(m, [id], visited) == Dfs(m, id, visited)
  {
    var first := Dfs(m, id, visited);
    assert [id][1..] == [];
    assert first.order + [] == first.order;
  }

  lemma {:induction false} DfsAllConcat(m: Mapping, a: seq<Id>, b: seq<Id>, visited: set<Id>)
    ensures DfsAll(m, a + b, visited).visited == DfsAll(m, b, DfsAll(m, a, visited).visited).visited
    ensures DfsAll(m, a + b, visited).order
         == DfsAll(m, a, visited).order + DfsAll(m, b, DfsAll(m, a, visited).visited).order
    decreases |a|
  {
    if a == [] {
      assert a + b == b;
    } else {
      assert (a + b)[1..] == a[1..] + b;
      DfsAllConcat(m, a[1..], b, Dfs(m, a[0], visited).visited);
    }
  }

  lemma DfsAllSnoc(m: Mapping, ids: seq<Id>, i: nat, visited: set<Id>)
    requires i < |ids|
    ensures var before := DfsAll(m, ids[..i], visited);
            var next := Dfs(m, ids[i], before.visited);
            DfsAll(m, ids[..i + 1], visited) == Walk(next.visited, before.order + next.order)
  {
    assert ids[..i + 1] == ids[..i] + [ids[i]];
    DfsAllConcat(m, ids[..i], [ids[i]], visited);
    DfsAllOne(m, ids[i], DfsAll(m, ids[..i], visited).visited);
  }

  lemma {:induction false} ReverseConcat(a: seq<Id>, b: seq<Id>)
    ensures Reverse(a + b) == Reverse(b) + Reverse(a)
    decreases |b|
  {
    if b == [] {
      assert a + b == a;
    } else {
      var n := |b| - 1;
      assert (a + b)[..|a| + n] == a + b[..n];
      ReverseConcat(a, b[..n]);
    }
  }

  lemma {:induction false} ReverseTwice(a: seq<Id>)
    ensures Reverse(Reverse(a)) == a
  {
    if a != [] {
      var n := |a| - 1;
      ReverseConcat([a[n]], Reverse(a[..n]));
      ReverseTwice(a[..n]);
      assert [a[n]][..0] == [];
      assert Reverse([a[n]]) == [a[n]];
    }
  }

  // ----- what a search emits

  /** Everything emitted is new, emitted once, and a key. */
  ghost predicate Fresh(m: Mapping, visited: set<Id>, w: Walk) {
    && w.visited == visited + (set id | id in w.order)
    && Distinct(w.order)
    && (forall id :: id in w.order ==> id in m.nodes && id !in visited)
  }

  /** Every key among ids ends up visited. */
  ghost predicate Covers(m: Mapping, ids: seq<Id>, visited: set<Id>) {
    forall id :: id in ids && id in m.nodes ==> id in visited
  }

  /** Every child of an emitted node ends up visited. */
  ghost predicate Closed(m: Mapping, w: Walk) {
    forall i :: 0 <= i < |w.order| ==> Covers(m, OrderedChildren(m, w.order[i]), w.visited)
  }

  /** What is emitted at i was asked for, or is a child of a node emitted earlier. */
  ghost predicate Sourced(m: Mapping, ids: seq<Id>, order: seq<Id>, i: nat)
    requires i < |order|
  {
    order[i] in ids || exists j :: 0 <= j < i && order[i] in OrderedChildren(m, order[j])
  }

  ghost predicate GoodWalk(m: Mapping, ids: seq<Id>, visited: set<Id>, w: Walk) {
    && Fresh(m, visited, w) && Covers(m, ids, w.visited) && Closed(m, w)
    && (forall i :: 0 <= i < |w.order| ==> Sourced(m, ids, w.order, i))
  }

  lemma {:induction false} DfsIsGood(m: Mapping, id: Id, visited: set<Id>)
    ensures GoodWalk(m, [id], visited, Dfs(m, id, visited))
    decreases m.nodes.Keys - visited, 0, 0
  {
    if id in visited || id !in m.nodes {
    } else {
      var children := OrderedChildren(m, id);
      var below := DfsAll(m, children, visited + {id});
      DfsAllIsGood(m, children, visited + {id});
      GoodWalkFromNode(m, id, visited, below);
    }
  }

  lemma GoodWalkFromNode(m: Mapping, id: Id, visited: set<Id>, below: Walk)
    requires id in m.nodes && id !in visited
    requires GoodWalk(m, OrderedChildren(m, id), visited + {id}, below)
    ensures GoodWalk(m, [id], visited, Walk(below.visited, [id] + below.order))
  {
    var order := [id] + below.order;
    assert id in below.visited;
    forall i | 0 <= i < |order| ensures Sourced(m, [id], order, i) {
      if i > 0 {
        assert Sourced(m, OrderedChildren(m, id), below.order, i - 1);
        if below.order[i - 1] in OrderedChildren(m, id) {
          assert order[0] == id;
        } else {
          var j :| 0 <= j < i - 1 && below.order[i - 1] in OrderedChildren(m, below.order[j]);
          assert order[j + 1] == below.order[j];
        }
      }
    }
    forall i | 0 <= i < |order| ensures Covers(m, OrderedChildren(m, order[i]), below.visited) {
      if i > 0 { assert order[i] == below.order[i - 1]; }
    }
  }

  lemma {:induction false} DfsAllIsGood(m: Mapping, ids: seq<Id>, visited: set<Id>)
    ensures GoodWalk(m, ids, visited, DfsAll(m, ids, visited))
    decreases m.nodes.Keys - visited, 1, |ids|
  {
    if ids != [] {
      var first := Dfs(m, ids[0], visited);
      DfsIsGood(m, ids[0], visited);
      DfsAllIsGood(m, ids[1..], first.visited);
      GoodWalksCompose(m, ids, visited, first, DfsAll(m, ids[1..], first.visited));
    }
  }

  lemma SourcedInConcat(m: Mapping, ids: seq<Id>, more: seq<Id>, a: seq<Id>, b: seq<Id>, i: nat)
    requires i < |b| && Sourced(m, ids, b, i) && forall id :: id in ids ==> id in more
    ensures Sourced(m, more, a + b, |a| + i)
  {
    if b[i] !in ids {
      var j :| 0 <= j < i && b[i] in OrderedChildren(m, b[j]);
      assert (a + b)[|a| + j] == b[j];
    }
  }

  lemma GoodWalksCompose(m: Mapping, ids: seq<Id>, visited: set<Id>, first: Walk, rest: Walk)
    requires ids != [] && GoodWalk(m, [ids[0]], visited, first) && GoodWalk(m, ids[1..], first.visited, rest)
    ensures GoodWalk(m, ids, visited, Walk(rest.visited, first.order + rest.order))
  {
    var order := first.order + rest.order;
    var n := |first.order|;
    forall i | 0 <= i < |order| ensures Sourced(m, ids, order, i) {
      if i < n {
        assert Sourced(m, [ids[0]], first.order, i);
        if first.order[i] != ids[0] {
          var j :| 0 <= j < i && first.order[i] in OrderedChildren(m, first.order[j]);
          assert order[j] == first.order[j];
        }
      } else {
        SourcedInConcat(m, ids[1..], ids, first.order, rest.order, i - n);
      }
    }
    forall i | 0 <= i < |order| ensures Covers(m, OrderedChildren(m, order[i]), rest.visited) {
      assert order[i] == if i < n then first.order[i] else rest.order[i - n];
    }
    FreshCompose(m, visited, first, rest);
    forall id | id in ids && id in m.nodes ensures id in rest.visited {
      assert id == ids[0] || id in ids[1..];
    }
  }

  lemma FreshCompose(m: Mapping, visited: set<Id>, first: Walk, rest: Walk)
    requires Fresh(m, visited, first) && Fresh(m, first.visited, rest)
    ensures Fresh(m, visited, Walk(rest.visited, first.order + rest.order))
  {
    var order := first.order + rest.order;
    var n := |first.order|;
    forall i, j | 0 <= i < j < |order| ensures order[i] != order[j] {
      if i < n <= j {
        assert order[j] == rest.order[j - n] && order[i] == first.order[i];
        assert first.order[i] in first.order && rest.order[j - n] in rest.order;
      }
    }
  }

  /** On any mapping every key is emitted exactly once, and nothing else is. */
  lemma PreorderIsPermutation(m: Mapping)
    requires m.Valid()
    ensures Distinct(Preorder(m)) && forall id :: id in Preorder(m) <==> id in m.nodes
  {
    var ids := SortIds(m, Roots(m)) + SortIds(m, m.keys);
    DfsAllIsGood(m, ids, {});
    SortKeepsMembers(m.keys, (a, b) => KeyLe(m, a, b));
    forall id | id in m.nodes ensures id in Preorder(m) {
      assert id in SortIds(m, m.keys);
      assert id in ids;
    }
  }

  lemma ChildrenOf(m: Mapping, id: Id)
    requires id in m.nodes && m.nodes[id].Node?
    ensures forall c :: c in OrderedChildren(m, id) <==> c in m.nodes[id].children
  {
    DedupeMembers(m.nodes[id].children);
    SortKeepsMembers(Dedupe(m.nodes[id].children), (a, b) => KeyLe(m, a, b));
  }

  lemma {:induction false} RootsAre(m: Mapping, ids: seq<Id>)
    requires forall id :: id in ids ==> id in m.nodes
    ensures forall id :: id in RootsAmong(m, ids) <==> id in ids && IsRoot(m, id)
  {
    if ids != [] {
      RootsAre(m, ids[1..]);
    }
  }

  // ----- parents

  /** `_safe_identifier` on a string. */
  function SafeIdentifier(value: string): (r: Option<Id>) {
    var cleaned := Strip(value);
    if cleaned == "" || |cleaned| > 1024 then None else Some(cleaned)
  }

  /** One step up; a missing or opaque node has no parent. */
  function ParentOf(m: Mapping, id: Id): (parent: Option<Id>) {
    if id in m.nodes && m.nodes[id].Node? && m.nodes[id].parent.Some?
    then SafeIdentifier(m.nodes[id].parent.value) else None
  }

  /** The parent links that exist. */
  function Parents(m: Mapping): (parents: map<Id, Id>) {
    map id | id in m.nodes && ParentOf(m, id).Some? :: ParentOf(m, id).value
  }

  /** k steps up along parent links. */
  function Up(p: map<Id, Id>, id: Id, k: nat): (r: Option<Id>) {
    if k == 0 then Some(id)
    else
      var below := Up(p, id, k - 1);
      if below.Some? && below.value in p then Some(p[below.value]) else None
  }

  lemma {:induction false} UpUp(p: map<Id, Id>, id: Id, j: nat, k: nat)
    requires Up(p, id, j).Some?
    ensures Up(p, id, j + k) == Up(p, Up(p, id, j).value, k)
    decreases k
  {
    if k > 0 {
      UpUp(p, id, j, k - 1);
      assert Up(p, id, j + k - 1) == Up(p, Up(p, id, j).value, k - 1);
    }
  }

  lemma {:induction false} UpStays(p: map<Id, Id>, id: Id, j: nat, k: nat)
    requires j <= k && Up(p, id, k).Some?
    ensures Up(p, id, j).Some?
    decreases k
  {
    if j < k {
      UpStays(p, id, j, k - 1);
    }
  }

  /** x lies i steps up from id for some lo <= i < hi. */
  ghost predicate OnChain(p: map<Id, Id>, id: Id, lo: nat, hi: nat, x: Id) {
    exists i :: lo <= i < hi && Up(p, id, i) == Some(x)
  }

  /** Once a chain of parents revisits a node it stays on the loop. */
  lemma {:induction false} LoopRepeats(p: map<Id, Id>, id: Id, i: nat, j: nat, k: nat)
    requires i < j && i <= k && Up(p, id, i).Some? && Up(p, id, i) == Up(p, id, j)
    ensures Up(p, id, k).Some? && OnChain(p, id, i, j, Up(p, id, k).value)
    decreases k
  {
    if k < j {
      UpStays(p, id, k, j);
    } else {
      var d := k - j;
      UpUp(p, id, i, d);
      UpUp(p, id, j, d);
      assert Up(p, id, i + d) == Up(p, id, k);
      LoopRepeats(p, id, i, j, i + d);
    }
  }

  /** `_chatgpt_current_path`: None without a valid current node, otherwise exactly the keys that
      some number of parent steps from the current node reaches. */
  method CurrentPath(m: Mapping, current: string) returns (path: Option<set<Id>>)
    ensures path.None? <==> SafeIdentifier(current).None? || SafeIdentifier(current).value !in m.nodes
    ensures path.Some? ==> IsPathTo(m, SafeIdentifier(current).value, path.value)
  {
    var start := SafeIdentifier(current);
    if start.None? || start.value !in m.nodes {
      return None;
    }
    var id := start.value;
    var seen: set<Id> := {};
    ghost var k: nat := 0;
    while id !in seen
      invariant id in m.nodes && Up(Parents(m), start.value, k) == Some(id)
      invariant seen <= m.nodes.Keys
      invariant forall x :: x in seen <==> OnChain(Parents(m), start.value, 0, k, x)
      decreases m.nodes.Keys - seen
    {
      ChainGrows(Parents(m), start.value, 0, k, id);
      seen := seen + {id};
      var parent := ParentOf(m, id);
      if parent.None? || parent.value !in m.nodes {
        ChainEnds(Parents(m), m.nodes.Keys, start.value, k);
        ChainEndIsPath(m, start.value, k, seen);
        return Some(seen);
      }
      id := parent.value;
      k := k + 1;
    }
    ChainLoopIsPath(m, start.value, k, seen);
    path := Some(seen);
  }

  /** The path is the set of keys on the whole parent chain. */
  ghost predicate IsPathTo(m: Mapping, id: Id, path: set<Id>) {
    forall x :: x in path <==> x in m.nodes && AtOrAbove(Parents(m), x, id)
  }

  ghost predicate AtOrAbove(p: map<Id, Id>, x: Id, id: Id) {
    exists k :: Up(p, id, k) == Some(x)
  }

  lemma ChainGrows(p: map<Id, Id>, id: Id, lo: nat, k: nat, x: Id)
    requires lo <= k && Up(p, id, k) == Some(x)
    ensures forall y :: OnChain(p, id, lo, k + 1, y) <==> OnChain(p, id, lo, k, y) || y == x
  {
    assert OnChain(p, id, lo, k + 1, x);
    forall y ensures OnChain(p, id, lo, k + 1, y) <==> OnChain(p, id, lo, k, y) || y == x {
      if OnChain(p, id, lo, k, y) {
        var i: nat :| lo <= i < k && Up(p, id, i) == Some(y);
        assert lo <= i < k + 1;
      }
    }
  }

  lemma ChainEndIsPath(m: Mapping, id: Id, k: nat, path: set<Id>)
    requires path <= m.nodes.Keys && forall x :: x in path <==> OnChain(Parents(m), id, 0, k + 1, x)
    requires forall l :: l > k && Up(Parents(m), id, l).Some? ==> Up(Parents(m), id, l).value !in m.nodes
    ensures IsPathTo(m, id, path)
  {
    forall x | x in m.nodes && AtOrAbove(Parents(m), x, id) ensures x in path {
      assert OnChain(Parents(m), id, 0, k + 1, x);
    }
  }

  lemma ChainLoopIsPath(m: Mapping, id: Id, k: nat, path: set<Id>)
    requires path <= m.nodes.Keys && forall x :: x in path <==> OnChain(Parents(m), id, 0, k, x)
    requires Up(Parents(m), id, k).Some? && Up(Parents(m), id, k).value in path
    ensures IsPathTo(m, id, path)
  {
    var i: nat :| i < k && Up(Parents(m), id, i) == Up(Parents(m), id, k);
    forall x | x in m.nodes && AtOrAbove(Parents(m), x, id) ensures x in path {
      var l: nat :| Up(Parents(m), id, l) == Some(x);
      if l >= k {
        LoopRepeats(Parents(m), id, i, k, l);
      }
      assert OnChain(Parents(m), id, 0, k, x);
    }
  }

  /** Nothing inside the mapping lies above a node whose parent is outside it. */
  lemma ChainEnds(p: map<Id, Id>, keys: set<Id>, id: Id, k: nat)
    requires p.Keys <= keys && Up(p, id, k).Some?
    requires Up(p, id, k).value in p ==> p[Up(p, id, k).value] !in keys
    ensures forall l :: l > k && Up(p, id, l).Some? ==> Up(p, id, l).value !in keys
  {
    forall l | l > k && Up(p, id, l).Some? ensures Up(p, id, l).value !in keys {
      UpStays(p, id, k + 1, l);
      if l > k + 1 {
        assert Up(p, id, k + 2) == None;
        UpStays(p, id, k + 2, l);
      }
    }
  }

  /** The parent re-linking walk: the first projected node strictly above `id`, or none when no
      node above it is projected.  A cycle of hidden nodes ends the walk. */
  method ProjectedParent(m: Mapping, projected: set<Id>, id: Id) returns (parent: Option<Id>)
    ensures parent.Some? ==> exists k :: NearestProjected(Parents(m), projected, id, k) && parent == Up(Parents(m), id, k)
    ensures parent.None? ==> NoneProjectedAbove(Parents(m), projected, id, 1)
  {
    parent := ParentOf(m, id);
    var seen: set<Id> := {};
    ghost var k: nat := 1;
    assert Up(Parents(m), id, 0) == Some(id);
    while parent.Some? && parent.value !in projected
      invariant k >= 1 && parent == Up(Parents(m), id, k)
      invariant HiddenBetween(Parents(m), projected, id, k)
      invariant forall x :: x in seen <==> OnChain(Parents(m), id, 1, k, x)
      invariant seen <= m.nodes.Keys
      decreases m.nodes.Keys - seen
    {
      var x := parent.value;
      if x in seen {
        LoopIsHidden(Parents(m), projected, id, k);
        return None;
      }
      ChainGrows(Parents(m), id, 1, k, x);
      seen := seen + {x};
      if x !in m.nodes || m.nodes[x].Opaque? {
        assert Up(Parents(m), id, k + 1) == None;
        HiddenToTheEnd(Parents(m), projected, id, k + 1);
        return None;
      }
      parent := ParentOf(m, x);
      k := k + 1;
    }
    if parent.None? {
      HiddenToTheEnd(Parents(m), projected, id, k);
    } else {
      assert NearestProjected(Parents(m), projected, id, k);
    }
  }

  /** Every node strictly between id and its k-th ancestor exists and is not projected. */
  ghost predicate HiddenBetween(p: map<Id, Id>, projected: set<Id>, id: Id, k: nat) {
    forall i :: 1 <= i < k ==> Up(p, id, i).Some? && Up(p, id, i).value !in projected
  }

  /** k steps up from id is projected, and no node strictly between is. */
  ghost predicate NearestProjected(p: map<Id, Id>, projected: set<Id>, id: Id, k: nat) {
    k >= 1 && Up(p, id, k).Some? && Up(p, id, k).value in projected && HiddenBetween(p, projected, id, k)
  }

  ghost predicate NoneProjectedAbove(p: map<Id, Id>, projected: set<Id>, id: Id, from: nat) {
    forall k :: k >= from && Up(p, id, k).Some? ==> Up(p, id, k).value !in projected
  }

  lemma HiddenToTheEnd(p: map<Id, Id>, projected: set<Id>, id: Id, k: nat)
    requires k >= 1 && Up(p, id, k).None? && HiddenBetween(p, projected, id, k)
    ensures NoneProjectedAbove(p, projected, id, 1)
  {
    forall l | l >= 1 && Up(p, id, l).Some? ensures Up(p, id, l).value !in projected {
      if l >= k { UpStays(p, id, k, l); }
    }
  }

  lemma LoopIsHidden(p: map<Id, Id>, projected: set<Id>, id: Id, k: nat)
    requires Up(p, id, k).Some? && OnChain(p, id, 1, k, Up(p, id, k).value)
    requires HiddenBetween(p, projected, id, k)
    ensures NoneProjectedAbove(p, projected, id, 1)
  {
    var i: nat :| 1 <= i < k && Up(p, id, i) == Up(p, id, k);
    forall l: nat | l >= 1 && Up(p, id, l).Some? ensures Up(p, id, l).value !in projected {
      if l >= k {
        LoopRepeats(p, id, i, k, l);
        var j: nat :| i <= j < k && Up(p, id, j) == Up(p, id, l);
      }
    }
  }
}
