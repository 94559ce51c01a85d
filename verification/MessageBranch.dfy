/** Projecting the message mapping onto one conversation branch: the projection loop and the parent
    re-linking of `_parse_chatgpt_conversation` in src/soloscale/conversation_intake.py. */
module MessageBranch {
  import opened Wrappers
  import opened Sorting
  import opened MessageTree

  /** A projected message and the `parent_node_id` written into its metadata. */
  datatype Linked = Linked(id: Id, parent: Option<Id>)

  datatype ProjectError = ConflictingMessageIdentifiers

  /** The node is on the selected path (any node, when there is none) and carries a usable message. */
  predicate Selected(m: Mapping, path: Option<set<Id>>, id: Id) {
    && (path.Some? ==> id in path.value)
    && id in m.nodes && m.nodes[id].Node? && m.nodes[id].message.Some?
  }

  function MessageOf(m: Mapping, id: Id): (message: Message)
    requires Selected(m, None, id)
  {
    m.nodes[id].message.value
  }

  /** What the loop keeps of `order` when `seen` maps the message ids met so far to text hashes. */
  function Projected(m: Mapping, path: Option<set<Id>>, order: seq<Id>, seen: map<string, string>)
    : (r: Result<seq<Id>, ProjectError>)
  {
    if order == [] then Ok([])
    else if !Selected(m, path, order[0]) then Projected(m, path, order[1..], seen)
    else
      var message := MessageOf(m, order[0]);
      if message.messageId in seen then
        if seen[message.messageId] != message.textHash then Err(ConflictingMessageIdentifiers)
        else Projected(m, path, order[1..], seen)
      else
        Prepend([order[0]], Projected(m, path, order[1..], seen[message.messageId := message.textHash]))
  }

  method Project(m: Mapping, path: Option<set<Id>>, order: seq<Id>) returns (r: Result<seq<Id>, ProjectError>)
    ensures r == Projected(m, path, order, map[])
  {
    var seen: map<string, string> := map[];
    var kept: seq<Id> := [];
    assert order[0..] == order;
    PrependTwice([], [], Projected(m, path, order, map[]));
    for i := 0 to |order|
      invariant Projected(m, path, order, map[]) == Prepend(kept, Projected(m, path, order[i..], seen))
    {
      var id := order[i];
      assert order[i..][0] == id && order[i..][1..] == order[i + 1..];
      if Selected(m, path, id) {
        var message := MessageOf(m, id);
        if message.messageId in seen {
          if seen[message.messageId] != message.textHash {
            return Err(ConflictingMessageIdentifiers);
          }
        } else {
          seen := seen[message.messageId := message.textHash];
          PrependTwice(kept, [id], Projected(m, path, order[i + 1..], seen));
          kept := kept + [id];
        }
      }
    }
    assert order[|order|..] == [] && kept + [] == kept;
    return Ok(kept);
  }

  function Values(r: Result<seq<Id>, ProjectError>): (ids: seq<Id>) {
    if r.Ok? then r.value else []
  }

  /** x comes before y in the order. */
  ghost predicate Before(order: seq<Id>, x: Id, y: Id) {
    exists a, b :: 0 <= a < b < |order| && order[a] == x && order[b] == y
  }

  ghost predicate InOrder(order: seq<Id>, kept: seq<Id>) {
    && (forall x :: x in kept ==> x in order)
    && (forall i, j :: 0 <= i < j < |kept| ==> Before(order, kept[i], kept[j]))
  }

  lemma InOrderCons(order: seq<Id>, kept: seq<Id>)
    requires order != [] && InOrder(order[1..], kept)
    ensures InOrder(order, kept) && InOrder(order, [order[0]] + kept)
  {
    var tail, id := order[1..], order[0];
    forall x, y | Before(tail, x, y) ensures Before(order, x, y) {
      var a, b :| 0 <= a < b < |tail| && tail[a] == x && tail[b] == y;
      assert order[a + 1] == x && order[b + 1] == y;
    }
    forall y | y in tail ensures Before(order, id, y) {
      var b :| 0 <= b < |tail| && tail[b] == y;
      assert order[0] == id && order[b + 1] == y;
    }
    var all := [id] + kept;
    forall i, j | 0 <= i < j < |all| ensures Before(order, all[i], all[j]) {
      assert all[j] == kept[j - 1] && kept[j - 1] in tail;
      if i > 0 { assert all[i] == kept[i - 1]; }
    }
  }

  /** The projection keeps selected nodes only, in order. */
  lemma {:induction false} ProjectedInOrder(m: Mapping, path: Option<set<Id>>, order: seq<Id>, seen: map<string, string>)
    ensures InOrder(order, Values(Projected(m, path, order, seen)))
    ensures forall x :: x in Values(Projected(m, path, order, seen)) ==> Selected(m, path, x)
  {
    if order != [] {
      var id := order[0];
      var next := if Selected(m, path, id) then seen[MessageOf(m, id).messageId := MessageOf(m, id).textHash] else seen;
      ProjectedInOrder(m, path, order[1..], seen);
      ProjectedInOrder(m, path, order[1..], next);
      InOrderCons(order, Values(Projected(m, path, order[1..], seen)));
      InOrderCons(order, Values(Projected(m, path, order[1..], next)));
    }
  }

  /** No selected message is dropped: some kept node carries the same message id and text. */
  lemma {:induction false} ProjectedKeepsMessages(m: Mapping, path: Option<set<Id>>, order: seq<Id>, seen: map<string, string>, id: Id)
    requires Projected(m, path, order, seen).Ok? && id in order && Selected(m, path, id)
    ensures var message := MessageOf(m, id);
            || (message.messageId in seen && seen[message.messageId] == message.textHash)
            || exists x :: x in Projected(m, path, order, seen).value && Selected(m, path, x) && MessageOf(m, x) == message
  {
    var head := order[0];
    if !Selected(m, path, head) {
      ProjectedKeepsMessages(m, path, order[1..], seen, id);
    } else if id != head {
      var message := MessageOf(m, head);
      var next := if message.messageId in seen then seen else seen[message.messageId := message.textHash];
      ProjectedKeepsMessages(m, path, order[1..], next, id);
      if message.messageId !in seen {
        assert head in Projected(m, path, order, seen).value;
        forall x | x in Projected(m, path, order[1..], next).value
          ensures x in Projected(m, path, order, seen).value {}
      }
    }
  }

  /** The i-th node is selected and its message id was not met before. */
  ghost predicate IsFirst(m: Mapping, path: Option<set<Id>>, order: seq<Id>, seen: map<string, string>, i: nat)
    requires i < |order|
  {
    && Selected(m, path, order[i]) && MessageOf(m, order[i]).messageId !in seen
    && forall j :: 0 <= j < i && Selected(m, path, order[j]) ==> MessageOf(m, order[j]).messageId != MessageOf(m, order[i]).messageId
  }

  /** The i-th node is selected and was met before with another text. */
  ghost predicate IsConflict(m: Mapping, path: Option<set<Id>>, order: seq<Id>, seen: map<string, string>, i: nat)
    requires i < |order|
  {
    && Selected(m, path, order[i])
    && var message := MessageOf(m, order[i]);
       || (message.messageId in seen && seen[message.messageId] != message.textHash)
       || exists j :: 0 <= j < i && Selected(m, path, order[j]) && MessageOf(m, order[j]).messageId == message.messageId
                      && MessageOf(m, order[j]).textHash != message.textHash
  }

  ghost predicate HasConflict(m: Mapping, path: Option<set<Id>>, order: seq<Id>, seen: map<string, string>) {
    exists i :: 0 <= i < |order| && IsConflict(m, path, order, seen, i)
  }

  function SeenAfter(m: Mapping, path: Option<set<Id>>, id: Id, seen: map<string, string>): (next: map<string, string>) {
    if Selected(m, path, id) && MessageOf(m, id).messageId !in seen
    then seen[MessageOf(m, id).messageId := MessageOf(m, id).textHash] else seen
  }

  lemma FirstOfTail(m: Mapping, path: Option<set<Id>>, order: seq<Id>, seen: map<string, string>, i: nat)
    requires 0 < i < |order|
    ensures IsFirst(m, path, order, seen, i) <==> IsFirst(m, path, order[1..], SeenAfter(m, path, order[0], seen), i - 1)
  {
    var tail := order[1..];
    forall j | 0 <= j < i - 1 ensures tail[j] == order[j + 1] { }
    if IsFirst(m, path, tail, SeenAfter(m, path, order[0], seen), i - 1) {
      forall j | 0 <= j < i && Selected(m, path, order[j])
        ensures MessageOf(m, order[j]).messageId != MessageOf(m, order[i]).messageId
      {
        if j > 0 { assert tail[j - 1] == order[j]; }
      }
    }
  }

  /** A conflict behind the first node, when the first node itself is none. */
  lemma ConflictOfTail(m: Mapping, path: Option<set<Id>>, order: seq<Id>, seen: map<string, string>)
    requires order != [] && !IsConflict(m, path, order, seen, 0)
    ensures HasConflict(m, path, order, seen) <==> HasConflict(m, path, order[1..], SeenAfter(m, path, order[0], seen))
  {
    var tail, next := order[1..], SeenAfter(m, path, order[0], seen);
    if HasConflict(m, path, order, seen) {
      var i :| 0 <= i < |order| && IsConflict(m, path, order, seen, i);
      TailConflict(m, path, order, seen, i);
      assert IsConflict(m, path, tail, next, i - 1);
    }
    if HasConflict(m, path, tail, next) {
      var i :| 0 <= i < |tail| && IsConflict(m, path, tail, next, i);
      TailConflict(m, path, order, seen, i + 1);
    }
  }

  lemma TailConflict(m: Mapping, path: Option<set<Id>>, order: seq<Id>, seen: map<string, string>, i: nat)
    requires 0 < i < |order| && !IsConflict(m, path, order, seen, 0)
    ensures IsConflict(m, path, order, seen, i) <==> IsConflict(m, path, order[1..], SeenAfter(m, path, order[0], seen), i - 1)
  {
    var tail, next := order[1..], SeenAfter(m, path, order[0], seen);
    forall j | 1 <= j <= i ensures tail[j - 1] == order[j] { }
    if Selected(m, path, order[i]) {
      var message := MessageOf(m, order[i]);
      if exists j :: 0 <= j < i && Selected(m, path, order[j]) && MessageOf(m, order[j]).messageId == message.messageId
                     && MessageOf(m, order[j]).textHash != message.textHash {
        var j :| 0 <= j < i && Selected(m, path, order[j]) && MessageOf(m, order[j]).messageId == message.messageId
                 && MessageOf(m, order[j]).textHash != message.textHash;
        if j > 0 { assert tail[j - 1] == order[j]; }
      }
      if exists j :: 0 <= j < i - 1 && Selected(m, path, tail[j]) && MessageOf(m, tail[j]).messageId == message.messageId
                     && MessageOf(m, tail[j]).textHash != message.textHash {
        var j :| 0 <= j < i - 1 && Selected(m, path, tail[j]) && MessageOf(m, tail[j]).messageId == message.messageId
                 && MessageOf(m, tail[j]).textHash != message.textHash;
        assert order[j + 1] == tail[j];
      }
    }
  }

  /** The projection fails exactly when a selected message id comes with two texts; otherwise it keeps
      exactly the first selected node of each message id. */
  lemma {:induction false} ProjectedIff(m: Mapping, path: Option<set<Id>>, order: seq<Id>, seen: map<string, string>)
    ensures var r := Projected(m, path, order, seen);
            && (r.Err? <==> HasConflict(m, path, order, seen))
            && (r.Ok? ==> forall x :: x in r.value <==> IsFirstOfMessage(m, path, order, seen, x))
    decreases |order|
  {
    hide HasConflict;
    if order == [] {
      assert !HasConflict(m, path, order, seen) by { NoConflictInNothing(m, path, seen); }
    } else if IsConflict(m, path, order, seen, 0) {
      assert HasConflict(m, path, order, seen) by { ConflictIsThere(m, path, order, seen, 0); }
    } else {
      var tail, next := order[1..], SeenAfter(m, path, order[0], seen);
      ConflictOfTail(m, path, order, seen);
      ProjectedIff(m, path, tail, next);
      KeptOfTail(m, path, order, seen);
    }
  }

  lemma NoConflictInNothing(m: Mapping, path: Option<set<Id>>, seen: map<string, string>)
    ensures !HasConflict(m, path, [], seen)
  {
  }

  lemma ConflictIsThere(m: Mapping, path: Option<set<Id>>, order: seq<Id>, seen: map<string, string>, i: nat)
    requires i < |order| && IsConflict(m, path, order, seen, i)
    ensures HasConflict(m, path, order, seen)
  {
  }

  /** x is the first selected node of its message id. */
  ghost predicate IsFirstOfMessage(m: Mapping, path: Option<set<Id>>, order: seq<Id>, seen: map<string, string>, x: Id) {
    exists i :: 0 <= i < |order| && order[i] == x && IsFirst(m, path, order, seen, i)
  }

  lemma KeptOfTail(m: Mapping, path: Option<set<Id>>, order: seq<Id>, seen: map<string, string>)
    requires order != []
    ensures var tail, next := order[1..], SeenAfter(m, path, order[0], seen);
            forall x :: IsFirstOfMessage(m, path, order, seen, x)
                        <==> (x == order[0] && IsFirst(m, path, order, seen, 0)) || IsFirstOfMessage(m, path, tail, next, x)
  {
    hide IsFirst;
    var tail, next := order[1..], SeenAfter(m, path, order[0], seen);
    forall x
      ensures IsFirstOfMessage(m, path, order, seen, x)
              <==> (x == order[0] && IsFirst(m, path, order, seen, 0)) || IsFirstOfMessage(m, path, tail, next, x)
    {
      if IsFirstOfMessage(m, path, order, seen, x) {
        var i :| 0 <= i < |order| && order[i] == x && IsFirst(m, path, order, seen, i);
        if i > 0 {
          FirstOfTail(m, path, order, seen, i);
          assert tail[i - 1] == x;
        }
      }
      if IsFirstOfMessage(m, path, tail, next, x) {
        var i :| 0 <= i < |tail| && tail[i] == x && IsFirst(m, path, tail, next, i);
        FirstOfTail(m, path, order, seen, i + 1);
        assert order[i + 1] == x;
      }
    }
  }

  /** The branch of a conversation: the projected nodes, each with its nearest projected ancestor. */
  method ParseBranch(m: Mapping, current: string) returns (r: Result<seq<Linked>, ProjectError>)
    requires m.Valid()
    ensures exists path :: PathOf(m, current, path) && FollowsProjection(m, path, r)
    ensures r.Ok? ==> forall i :: 0 <= i < |r.value| ==> IsRelinked(Parents(m), Ids(r.value), r.value[i])
  {
    var path := CurrentPath(m, current);
    var order := OrderedNodes(m);
    var projected := Project(m, path, order);
    if projected.Err? {
      r := Err(projected.error);
    } else {
      var linked := Relink(m, projected.value);
      r := Ok(linked);
    }
    assert PathOf(m, current, path) && FollowsProjection(m, path, r);
  }

  method Relink(m: Mapping, ids: seq<Id>) returns (linked: seq<Linked>)
    ensures Ids(linked) == ids
    ensures forall i :: 0 <= i < |linked| ==> IsRelinked(Parents(m), ids, linked[i])
  {
    var projectedIds := ToSet(ids);
    linked := [];
    for i := 0 to |ids|
      invariant |linked| == i
      invariant forall k :: 0 <= k < i ==> linked[k].id == ids[k] && IsRelinked(Parents(m), ids, linked[k])
    {
      var parent := ProjectedParent(m, projectedIds, ids[i]);
      linked := linked + [Linked(ids[i], parent)];
    }
  }

  function Ids(linked: seq<Linked>): (ids: seq<Id>) {
    seq(|linked|, i requires 0 <= i < |linked| => linked[i].id)
  }

  ghost predicate PathOf(m: Mapping, current: string, path: Option<set<Id>>) {
    && (path.None? <==> SafeIdentifier(current).None? || SafeIdentifier(current).value !in m.nodes)
    && (path.Some? ==> IsPathTo(m, SafeIdentifier(current).value, path.value))
  }

  /** The linked nodes are the projection of the preorder onto the path; a conflict is passed on. */
  ghost predicate FollowsProjection(m: Mapping, path: Option<set<Id>>, r: Result<seq<Linked>, ProjectError>)
    requires m.Valid()
  {
    Projected(m, path, Preorder(m), map[]) == if r.Ok? then Ok(Ids(r.value)) else Err(r.error)
  }

  /** The recorded parent is the nearest projected ancestor, or absent when there is none. */
  ghost predicate IsRelinked(p: map<Id, Id>, ids: seq<Id>, l: Linked) {
    var projected := ToSet(ids);
    if l.parent.Some?
    then exists k :: NearestProjected(p, projected, l.id, k) && l.parent == Up(p, l.id, k)
    else NoneProjectedAbove(p, projected, l.id, 1)
  }

  // ----- consistent forests

  /** Parent and child links describe one forest; `rank` witnesses that it has no cycle. */
  ghost predicate ConsistentForest(m: Mapping, rank: map<Id, nat>) {
    var p := Parents(m);
    && m.Valid() && Ranked(p, m.nodes.Keys, rank)
    && (forall id :: id in m.nodes && m.nodes[id].Node? ==>
          m.nodes[id].parent == if id in p then Some(p[id]) else None)
    && (forall id :: id in p && p[id] in m.nodes ==>
          m.nodes[p[id]].Node? && id in m.nodes[p[id]].children)
    && (forall id, c :: id in m.nodes && m.nodes[id].Node? && c in m.nodes[id].children && c in m.nodes ==>
          c in p && p[c] == id)
  }

  /** The rank falls along every parent link that stays among the keys. */
  ghost predicate Ranked(p: map<Id, Id>, keys: set<Id>, rank: map<Id, nat>) {
    && p.Keys <= keys == rank.Keys
    && forall id :: id in p && p[id] in keys ==> rank[p[id]] < rank[id]
  }

  /** The order lists every key once, each after its parent. */
  ghost predicate ParentsFirst(p: map<Id, Id>, keys: set<Id>, order: seq<Id>) {
    && Distinct(order) && (forall id :: id in order <==> id in keys)
    && forall i :: 0 <= i < |order| && order[i] in p && p[order[i]] in keys ==> p[order[i]] in order[..i]
  }

  lemma RootIff(m: Mapping, rank: map<Id, nat>, id: Id)
    requires ConsistentForest(m, rank) && id in m.nodes
    ensures id in SortIds(m, Roots(m)) <==> !(id in Parents(m) && Parents(m)[id] in m.nodes)
  {
    RootsAre(m, m.keys);
    SortKeepsMembers(Roots(m), (a, b) => KeyLe(m, a, b));
  }

  /** In a consistent forest the roots reach every node. */
  lemma {:induction false} RootsReachAll(m: Mapping, rank: map<Id, nat>, w: Walk, id: Id)
    requires ConsistentForest(m, rank) && id in m.nodes
    requires GoodWalk(m, SortIds(m, Roots(m)), {}, w)
    ensures id in w.visited
    decreases rank[id]
  {
    RootIff(m, rank, id);
    if id in Parents(m) && Parents(m)[id] in m.nodes {
      var parent := Parents(m)[id];
      RootsReachAll(m, rank, w, parent);
      ChildrenOf(m, parent);
      var i :| 0 <= i < |w.order| && w.order[i] == parent;
      assert Covers(m, OrderedChildren(m, w.order[i]), w.visited);
    }
  }

  lemma {:induction false} AlreadyVisited(m: Mapping, ids: seq<Id>, visited: set<Id>)
    requires Covers(m, ids, visited)
    ensures DfsAll(m, ids, visited) == Walk(visited, [])
    decreases |ids|
  {
    if ids != [] {
      AlreadyVisited(m, ids[1..], visited);
    }
  }

  /** In a consistent forest the second pass over the keys finds nothing new, so the preorder is
      what the roots reach. */
  lemma PreorderFromRoots(m: Mapping, rank: map<Id, nat>)
    requires ConsistentForest(m, rank)
    ensures Preorder(m) == DfsAll(m, SortIds(m, Roots(m)), {}).order
    ensures GoodWalk(m, SortIds(m, Roots(m)), {}, DfsAll(m, SortIds(m, Roots(m)), {}))
  {
    var roots := SortIds(m, Roots(m));
    var w := DfsAll(m, roots, {});
    DfsAllIsGood(m, roots, {});
    forall id | id in m.nodes ensures id in w.visited { RootsReachAll(m, rank, w, id); }
    DfsAllConcat(m, roots, SortIds(m, m.keys), {});
    AlreadyVisited(m, SortIds(m, m.keys), w.visited);
    assert w.order + [] == w.order;
  }

  /** In a consistent forest every node is emitted after its parent. */
  lemma ForestPreorder(m: Mapping, rank: map<Id, nat>)
    requires ConsistentForest(m, rank)
    ensures ParentsFirst(Parents(m), m.nodes.Keys, Preorder(m))
  {
    var p := Parents(m);
    var roots := SortIds(m, Roots(m));
    var order := Preorder(m);
    PreorderIsPermutation(m);
    PreorderFromRoots(m, rank);
    forall i | 0 <= i < |order| && order[i] in p && p[order[i]] in m.nodes ensures p[order[i]] in order[..i] {
      assert Sourced(m, roots, order, i);
      RootIff(m, rank, order[i]);
      var j :| 0 <= j < i && order[i] in OrderedChildren(m, order[j]);
      assert order[j] in order;
      ChildrenOf(m, order[j]);
      assert order[..i][j] == p[order[i]];
    }
  }

  // ----- chains of parents in a ranked forest

  lemma {:induction false} RankFalls(p: map<Id, Id>, keys: set<Id>, rank: map<Id, nat>, id: Id, k: nat)
    requires Ranked(p, keys, rank) && id in keys
    requires Up(p, id, k).Some? && Up(p, id, k).value in keys
    ensures rank[Up(p, id, k).value] + k <= rank[id]
    decreases k
  {
    if k > 0 {
      RankFalls(p, keys, rank, id, k - 1);
    }
  }

  /** A proper ancestor among the keys is emitted before its descendant. */
  lemma {:induction false} AncestorFirst(p: map<Id, Id>, keys: set<Id>, order: seq<Id>, i: nat, k: nat) returns (j: nat)
    requires p.Keys <= keys && ParentsFirst(p, keys, order) && i < |order| && k >= 1
    requires Up(p, order[i], k).Some? && Up(p, order[i], k).value in keys
    ensures j < i && order[j] == Up(p, order[i], k).value
    decreases k
  {
    var at := i;
    if k > 1 {
      at := AncestorFirst(p, keys, order, i, k - 1);
    } else {
      assert Up(p, order[i], 0) == Some(order[i]);
    }
    j :| 0 <= j < at && order[..at][j] == p[order[at]];
  }

  /** Each node is a proper ancestor of every later one. */
  ghost predicate Descending(p: map<Id, Id>, ids: seq<Id>) {
    forall i, j :: 0 <= i < j < |ids| ==> IsAncestor(p, ids[i], ids[j])
  }

  ghost predicate IsAncestor(p: map<Id, Id>, x: Id, y: Id) {
    exists k :: k >= 1 && Up(p, y, k) == Some(x)
  }

  /** Nodes on one parent chain are comparable. */
  lemma ChainIsLinear(p: map<Id, Id>, x: Id, y: Id, current: Id)
    requires AtOrAbove(p, x, current) && AtOrAbove(p, y, current)
    ensures x == y || IsAncestor(p, x, y) || IsAncestor(p, y, x)
  {
    var a: nat :| Up(p, current, a) == Some(x);
    var b: nat :| Up(p, current, b) == Some(y);
    if a > b {
      UpUp(p, current, b, a - b);
    } else if a < b {
      UpUp(p, current, a, b - a);
    }
  }

  lemma AncestorBefore(p: map<Id, Id>, keys: set<Id>, order: seq<Id>, x: Id, y: Id)
    requires p.Keys <= keys && ParentsFirst(p, keys, order)
    requires x in keys && y in keys && IsAncestor(p, x, y)
    ensures Before(order, x, y)
  {
    var k: nat :| k >= 1 && Up(p, y, k) == Some(x);
    var i :| 0 <= i < |order| && order[i] == y;
    var j := AncestorFirst(p, keys, order, i, k);
  }

  lemma BeforeIsStrict(order: seq<Id>, x: Id, y: Id)
    requires Distinct(order) && Before(order, x, y)
    ensures x != y && !Before(order, y, x)
  {
  }

  lemma ChainDescends(p: map<Id, Id>, keys: set<Id>, order: seq<Id>, current: Id, ids: seq<Id>)
    requires p.Keys <= keys && ParentsFirst(p, keys, order)
    requires forall i, j :: 0 <= i < j < |ids| ==> Before(order, ids[i], ids[j])
    requires forall i :: 0 <= i < |ids| ==> ids[i] in keys && AtOrAbove(p, ids[i], current)
    ensures Descending(p, ids)
  {
    forall i, j | 0 <= i < j < |ids| ensures IsAncestor(p, ids[i], ids[j]) {
      ChainIsLinear(p, ids[i], ids[j], current);
      BeforeIsStrict(order, ids[i], ids[j]);
      if IsAncestor(p, ids[j], ids[i]) {
        AncestorBefore(p, keys, order, ids[j], ids[i]);
      }
    }
  }

  lemma AncestorRank(p: map<Id, Id>, keys: set<Id>, rank: map<Id, nat>, x: Id, y: Id)
    requires Ranked(p, keys, rank) && x in keys && y in keys && IsAncestor(p, x, y)
    ensures rank[x] < rank[y]
  {
    var k: nat :| k >= 1 && Up(p, y, k) == Some(x);
    RankFalls(p, keys, rank, y, k);
  }

  /** The node before position j, or none for the first. */
  function Previous(ids: seq<Id>, j: nat): (previous: Option<Id>)
    requires j < |ids|
  {
    if j == 0 then None else Some(ids[j - 1])
  }

  lemma NearestIsPrevious(p: map<Id, Id>, keys: set<Id>, rank: map<Id, nat>, ids: seq<Id>, j: nat, l: Linked)
    requires Ranked(p, keys, rank) && Descending(p, ids) && j < |ids|
    requires forall i :: 0 <= i < |ids| ==> ids[i] in keys
    requires l.id == ids[j] && IsRelinked(p, ids, l)
    ensures l.parent == Previous(ids, j)
  {
    var projected := ToSet(ids);
    assert j > 0 ==> IsAncestor(p, ids[j - 1], ids[j]) && ids[j - 1] in projected;
    if l.parent.Some? {
      var k: nat :| NearestProjected(p, projected, ids[j], k) && l.parent == Up(p, ids[j], k);
      var i :| 0 <= i < |ids| && ids[i] == l.parent.value;
      assert IsAncestor(p, ids[i], ids[j]);
      AncestorRank(p, keys, rank, ids[i], ids[j]);
      if i > j {
        AncestorRank(p, keys, rank, ids[j], ids[i]);
      } else if i < j - 1 {
        NearerExists(p, keys, rank, ids[i], ids[j - 1], ids[j], k);
      }
    }
  }

  /** If x is k steps above z, and y lies between them, then y is fewer than k steps above z. */
  lemma NearerExists(p: map<Id, Id>, keys: set<Id>, rank: map<Id, nat>, x: Id, y: Id, z: Id, k: nat)
    requires Ranked(p, keys, rank) && x in keys && y in keys && z in keys
    requires IsAncestor(p, x, y) && IsAncestor(p, y, z) && Up(p, z, k) == Some(x)
    ensures exists d :: 1 <= d < k && Up(p, z, d) == Some(y)
  {
    var d: nat :| d >= 1 && Up(p, z, d) == Some(y);
    if d >= k {
      UpUp(p, z, k, d - k);
      RankFalls(p, keys, rank, x, d - k);
      AncestorRank(p, keys, rank, x, y);
    }
  }

  /** On a consistent forest with a valid current node the messages come out root to leaf, and each
      one's recorded parent is the message before it; the first has none. */
  lemma RootToLeaf(m: Mapping, rank: map<Id, nat>, current: Id, path: set<Id>, linked: seq<Linked>)
    requires ConsistentForest(m, rank) && current in m.nodes && IsPathTo(m, current, path)
    requires FollowsProjection(m, Some(path), Ok(linked))
    requires forall i :: 0 <= i < |linked| ==> IsRelinked(Parents(m), Ids(linked), linked[i])
    ensures Descending(Parents(m), Ids(linked))
    ensures forall j :: 0 <= j < |linked| ==> linked[j].parent == Previous(Ids(linked), j)
  {
    ForestPreorder(m, rank);
    ProjectionOnPath(m, current, path, Ids(linked));
    BranchIsLinear(Parents(m), m.nodes.Keys, rank, Preorder(m), current, linked);
  }

  lemma BranchIsLinear(p: map<Id, Id>, keys: set<Id>, rank: map<Id, nat>, order: seq<Id>, current: Id, linked: seq<Linked>)
    requires Ranked(p, keys, rank) && ParentsFirst(p, keys, order)
    requires var ids := Ids(linked);
             && (forall i :: 0 <= i < |ids| ==> ids[i] in keys && AtOrAbove(p, ids[i], current))
             && (forall i, j :: 0 <= i < j < |ids| ==> Before(order, ids[i], ids[j]))
    requires forall i :: 0 <= i < |linked| ==> IsRelinked(p, Ids(linked), linked[i])
    ensures Descending(p, Ids(linked))
    ensures forall j :: 0 <= j < |linked| ==> linked[j].parent == Previous(Ids(linked), j)
  {
    ChainDescends(p, keys, order, current, Ids(linked));
    forall j | 0 <= j < |linked| ensures linked[j].parent == Previous(Ids(linked), j) {
      NearestIsPrevious(p, keys, rank, Ids(linked), j, linked[j]);
    }
  }

  lemma ProjectionOnPath(m: Mapping, current: Id, path: set<Id>, ids: seq<Id>)
    requires m.Valid() && IsPathTo(m, current, path)
    requires Projected(m, Some(path), Preorder(m), map[]) == Ok(ids)
    ensures forall i :: 0 <= i < |ids| ==> ids[i] in m.nodes && AtOrAbove(Parents(m), ids[i], current)
    ensures forall i, j :: 0 <= i < j < |ids| ==> Before(Preorder(m), ids[i], ids[j])
  {
    PreorderIsPermutation(m);
    ProjectedInOrder(m, Some(path), Preorder(m), map[]);
    forall i | 0 <= i < |ids| ensures ids[i] in path { assert ids[i] in ids; }
  }
}
