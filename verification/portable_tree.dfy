/**
 * Decision trees stored as parallel integer arrays (src/riskloom/modeling/model.py):
 * an explicit-stack depth-first search validates arbitrary arrays, and inference
 * then walks them without any guard of its own.
 */
module PortableTrees {
  import opened Common

  const FEATURE_COUNT := 75

  datatype PortableTree = PortableTree(
    nodeCount: int, left: seq<int>, right: seq<int>, features: seq<int>, thresholds: seq<real>, values: seq<real>)

  datatype TreeError =
    | NodeCountInvalid | ArrayLengthsInvalid | TopologyInvalid | NodeReused
    | LeafMarkerInvalid | SplitInvalid | UnreachableNodes

  predicate NodeCountInRange(p: PortableTree) {
    1 <= p.nodeCount <= 100_000
  }

  predicate LengthsAgree(p: PortableTree) {
    |p.values| == p.nodeCount == |p.left| == |p.right| == |p.features| == |p.thresholds|
  }

  predicate LeafAt(p: PortableTree, v: int)
    requires LengthsAgree(p) && 0 <= v < p.nodeCount
  {
    p.left[v] == -1 && p.right[v] == -1 && p.features[v] == -2
  }

  predicate SplitAt(p: PortableTree, v: int)
    requires LengthsAgree(p) && 0 <= v < p.nodeCount
  {
    p.left[v] != -1 && p.right[v] != -1 && p.left[v] != p.right[v] && 0 <= p.features[v] < FEATURE_COUNT
  }

  // ----- the trees that arrays can encode

  datatype Tree = Leaf(node: int) | Split(node: int, left: Tree, right: Tree)

  /** The arrays, read from node `v` on, spell exactly `t`. */
  ghost predicate Encodes(p: PortableTree, v: int, t: Tree)
    requires LengthsAgree(p)
    decreases t
  {
    && 0 <= v < p.nodeCount && t.node == v
    && match t
       case Leaf(_) => LeafAt(p, v)
       case Split(_, l, r) => SplitAt(p, v) && Encodes(p, p.left[v], l) && Encodes(p, p.right[v], r)
  }

  ghost function Preorder(t: Tree): seq<int> {
    match t
    case Leaf(v) => [v]
    case Split(v, l, r) => [v] + Preorder(l) + Preorder(r)
  }

  /** A tree rooted at node 0 that visits no node twice. */
  ghost predicate RootedTree(p: PortableTree, t: Tree)
    requires LengthsAgree(p)
  {
    Encodes(p, 0, t) && Distinct(Preorder(t))
  }

  ghost predicate UsesEveryNode(p: PortableTree, t: Tree) {
    forall v :: 0 <= v < p.nodeCount ==> v in Preorder(t)
  }

  ghost predicate ProperTree(p: PortableTree) {
    LengthsAgree(p) && exists t :: RootedTree(p, t) && UsesEveryNode(p, t)
  }

  /** The arrays leave no choice of tree. */
  lemma {:induction false} EncodesUnique(p: PortableTree, v: int, t: Tree, u: Tree)
    requires LengthsAgree(p) && Encodes(p, v, t) && Encodes(p, v, u)
    ensures t == u
    decreases t
  {
    if t.Split? {
      EncodesUnique(p, p.left[v], t.left, u.left);
      EncodesUnique(p, p.right[v], t.right, u.right);
    }
  }

  // ----- preorder traversal with a work list

  ghost function Nodes(p: PortableTree): set<int> {
    set v | 0 <= v < p.nodeCount && IsNode(p, v)
  }

  predicate IsNode(p: PortableTree, v: int) {
    0 <= v < p.nodeCount
  }

  lemma {:induction false} PreorderInRange(p: PortableTree, v: int, t: Tree)
    requires LengthsAgree(p) && Encodes(p, v, t)
    ensures forall x :: x in Preorder(t) ==> x in Nodes(p)
    decreases t
  {
    if t.Split? {
      PreorderInRange(p, p.left[v], t.left);
      PreorderInRange(p, p.right[v], t.right);
    }
  }

  lemma {:induction false} RangeSize(n: nat, s: set<int>)
    requires forall v :: v in s ==> 0 <= v < n
    ensures |s| <= n
    ensures |s| == n <==> forall v :: 0 <= v < n ==> v in s
  {
    if n > 0 {
      var rest := s - {n - 1};
      RangeSize(n - 1, rest);
      if n - 1 in s {
        assert s == rest + {n - 1};
        assert (forall v :: 0 <= v < n ==> v in s) <==> forall v :: 0 <= v < n - 1 ==> v in rest;
      } else {
        assert s == rest;
      }
    } else {
      assert forall v :: v in s <==> v in {};
      assert s == {};
    }
  }

  /** Enter the nodes of the work list, first one first, refusing any node entered before. */
  ghost function Walk(p: PortableTree, work: seq<int>, entered: set<int>): Option<seq<int>>
    requires LengthsAgree(p)
    decreases Nodes(p) - entered, |work|
  {
    if work == [] then Some([])
    else
      var v := work[0];
      if !(0 <= v < p.nodeCount) || v in entered then None
      else
        assert Nodes(p) - (entered + {v}) < Nodes(p) - entered by {
          assert v in Nodes(p) - entered;
        }
        if LeafAt(p, v) then Enter(v, Walk(p, work[1..], entered + {v}))
        else if SplitAt(p, v) then Enter(v, Walk(p, [p.left[v], p.right[v]] + work[1..], entered + {v}))
        else None
  }

  ghost function Enter(v: int, rest: Option<seq<int>>): Option<seq<int>> {
    match rest
    case None => None
    case Some(order) => Some([v] + order)
  }

  ghost predicate EncodesAll(p: PortableTree, work: seq<int>, ts: seq<Tree>)
    requires LengthsAgree(p)
  {
    |work| == |ts| && forall i :: 0 <= i < |ts| ==> Encodes(p, work[i], ts[i])
  }

  ghost function PreorderAll(ts: seq<Tree>): seq<int> {
    if ts == [] then [] else Preorder(ts[0]) + PreorderAll(ts[1..])
  }

  ghost predicate Fresh(order: seq<int>, entered: set<int>) {
    Distinct(order) && forall v :: v in order ==> v !in entered
  }

  lemma FreshCons(v: int, order: seq<int>, entered: set<int>)
    ensures Fresh([v] + order, entered) <==> v !in entered && Fresh(order, entered + {v})
  {
    var whole := [v] + order;
    assert forall i :: 0 <= i < |order| ==> whole[i + 1] == order[i];
    assert whole[0] == v;
    if v !in entered && Fresh(order, entered + {v}) {
      forall i, j | 0 <= i < j < |whole|
        ensures whole[i] != whole[j]
      {
        assert whole[j] == order[j - 1];
        assert i > 0 ==> whole[i] == order[i - 1];
      }
    }
    if Fresh(whole, entered) {
      forall x | x in order
        ensures x !in entered + {v}
      {
        var i :| 0 <= i < |order| && order[i] == x;
        assert whole[i + 1] == x && whole[0] != whole[i + 1];
      }
    }
  }

  /** A walk that succeeds has entered a forest in preorder, each node once. */
  lemma {:induction false} WalkSound(p: PortableTree, work: seq<int>, entered: set<int>) returns (ts: seq<Tree>)
    requires LengthsAgree(p) && Walk(p, work, entered).Some?
    ensures EncodesAll(p, work, ts) && Walk(p, work, entered) == Some(PreorderAll(ts))
    ensures Fresh(PreorderAll(ts), entered)
    decreases Nodes(p) - entered, |work|
  {
    if work == [] {
      ts := [];
    } else {
      var v := work[0];
      assert v in Nodes(p) - entered;
      if LeafAt(p, v) {
        var rest := WalkSound(p, work[1..], entered + {v});
        ts := [Leaf(v)] + rest;
        FreshCons(v, PreorderAll(rest), entered);
      } else {
        var rest := WalkSound(p, [p.left[v], p.right[v]] + work[1..], entered + {v});
        ts := [Split(v, rest[0], rest[1])] + rest[2..];
        FreshCons(v, PreorderAll(rest), entered);
        SplitPreorder(v, rest);
      }
    }
  }

  lemma SplitPreorder(v: int, rest: seq<Tree>)
    requires |rest| >= 2
    ensures PreorderAll([Split(v, rest[0], rest[1])] + rest[2..]) == [v] + PreorderAll(rest)
  {
    var l, r, tail := rest[0], rest[1], rest[2..];
    var forest := [Split(v, l, r)] + tail;
    assert rest[1..][1..] == tail && forest[1..] == tail;
    assert Preorder(forest[0]) == [v] + Preorder(l) + Preorder(r);
    hide Preorder;
    Reassociate(v, Preorder(l), Preorder(r), PreorderAll(tail));
    assert PreorderAll(rest[1..]) == Preorder(r) + PreorderAll(tail);
  }

  lemma Reassociate<T>(v: T, a: seq<T>, b: seq<T>, c: seq<T>)
    ensures [v] + a + b + c == [v] + (a + (b + c))
  {
  }

  /** A forest whose nodes are new and different is walked to the end. */
  lemma {:induction false} WalkComplete(p: PortableTree, work: seq<int>, entered: set<int>, ts: seq<Tree>)
    requires LengthsAgree(p) && EncodesAll(p, work, ts) && Fresh(PreorderAll(ts), entered)
    ensures Walk(p, work, entered) == Some(PreorderAll(ts))
    decreases Nodes(p) - entered, |work|
  {
    if work != [] {
      var v := work[0];
      match ts[0]
      case Leaf(_) =>
        assert PreorderAll(ts) == [v] + PreorderAll(ts[1..]);
        FreshCons(v, PreorderAll(ts[1..]), entered);
        assert v in Nodes(p) - entered;
        WalkComplete(p, work[1..], entered + {v}, ts[1..]);
      case Split(_, l, r) =>
        var rest := [l, r] + ts[1..];
        SplitPreorder(v, rest);
        assert [Split(v, rest[0], rest[1])] + rest[2..] == ts;
        FreshCons(v, PreorderAll(rest), entered);
        assert v in Nodes(p) - entered;
        WalkComplete(p, [p.left[v], p.right[v]] + work[1..], entered + {v}, rest);
    }
  }

  lemma WalkFromRoot(p: PortableTree)
    requires LengthsAgree(p)
    ensures Walk(p, [0], {}).Some? <==> exists t :: RootedTree(p, t)
    ensures forall t :: RootedTree(p, t) ==> Walk(p, [0], {}) == Some(Preorder(t))
  {
    if Walk(p, [0], {}).Some? {
      var ts := WalkSound(p, [0], {});
      assert PreorderAll(ts) == Preorder(ts[0]) + PreorderAll(ts[1..]) == Preorder(ts[0]);
      assert RootedTree(p, ts[0]);
    }
    forall t | RootedTree(p, t)
      ensures Walk(p, [0], {}) == Some(Preorder(t))
    {
      assert PreorderAll([t]) == Preorder(t) + PreorderAll([]) == Preorder(t);
      WalkComplete(p, [0], {}, [t]);
    }
  }

  // ----- where a traversal stands

  /** One step from the root: into the left child, or into the right one with the left subtree behind. */
  datatype Frame = InLeft(node: int) | InRight(node: int, left: Tree)

  function Child(children: seq<int>, v: int): int {
    if 0 <= v < |children| then children[v] else -1
  }

  /** The node a path leads to. */
  ghost function At(p: PortableTree, path: seq<Frame>): int {
    if path == [] then 0
    else
      match path[|path| - 1]
      case InLeft(v) => Child(p.left, v)
      case InRight(v, _) => Child(p.right, v)
  }

  /** The nodes on the path. */
  ghost function Above(path: seq<Frame>): set<int> {
    if path == [] then {} else Above(path[..|path| - 1]) + {path[|path| - 1].node}
  }

  /** The nodes entered before the end of the path: those on it and those of the left subtrees behind. */
  ghost function Before(path: seq<Frame>): set<int> {
    if path == [] then {}
    else
      var last := path[|path| - 1];
      Before(path[..|path| - 1]) + {last.node} + if last.InRight? then SetOf(Preorder(last.left)) else {}
  }

  /** A subtree none of whose nodes was entered before. */
  ghost predicate NewSubtree(p: PortableTree, v: int, t: Tree, before: set<int>)
    requires LengthsAgree(p)
  {
    Encodes(p, v, t) && Fresh(Preorder(t), before)
  }

  /** One more frame: its node is new and splits, and so is every node of a left subtree behind. */
  ghost predicate Follows(p: PortableTree, path: seq<Frame>, f: Frame)
    requires LengthsAgree(p)
  {
    && f.node == At(p, path) && 0 <= f.node < p.nodeCount && f.node !in Before(path) && SplitAt(p, f.node)
    && (f.InRight? ==> NewSubtree(p, p.left[f.node], f.left, Before(path) + {f.node}))
  }

  /** In preorder everything before the end of the path can be entered. */
  ghost predicate Travelled(p: PortableTree, path: seq<Frame>)
    requires LengthsAgree(p)
  {
    path == [] || (Travelled(p, path[..|path| - 1]) && Follows(p, path[..|path| - 1], path[|path| - 1]))
  }

  /** Why a node cannot be entered, below those nodes and after those. */
  function Blocked(p: PortableTree, v: int, above: set<int>, before: set<int>): Option<TreeError>
    requires LengthsAgree(p)
  {
    if v < 0 || v >= p.nodeCount || v in above then Some(TopologyInvalid)
    else if v in before then Some(NodeReused)
    else if LeafAt(p, v) || SplitAt(p, v) then None
    else if p.left[v] == -1 && p.right[v] == -1 then Some(LeafMarkerInvalid)
    else Some(SplitInvalid)
  }

  ghost function BlockedAt(p: PortableTree, path: seq<Frame>): Option<TreeError>
    requires LengthsAgree(p)
  {
    Blocked(p, At(p, path), Above(path), Before(path))
  }

  /** Some node is the first in preorder that cannot be entered, for this reason. */
  ghost predicate Refused(p: PortableTree, e: TreeError)
    requires LengthsAgree(p)
  {
    exists path :: Travelled(p, path) && BlockedAt(p, path) == Some(e)
  }

  lemma {:induction false} AboveIsBefore(path: seq<Frame>)
    ensures Above(path) <= Before(path)
  {
    if path != [] {
      AboveIsBefore(path[..|path| - 1]);
    }
  }

  lemma Longer(p: PortableTree, path: seq<Frame>, f: Frame)
    requires LengthsAgree(p)
    ensures Travelled(p, path + [f]) <==> Travelled(p, path) && Follows(p, path, f)
    ensures At(p, path + [f]) == Child(if f.InLeft? then p.left else p.right, f.node)
    ensures Above(path + [f]) == Above(path) + {f.node}
    ensures Before(path + [f]) == Before(path) + {f.node} + if f.InRight? then SetOf(Preorder(f.left)) else {}
  {
    assert (path + [f])[..|path|] == path;
  }

  lemma {:induction false} TravelledPrefix(p: PortableTree, path: seq<Frame>, k: nat)
    requires LengthsAgree(p) && Travelled(p, path) && k <= |path|
    ensures Travelled(p, path[..k])
    ensures k < |path| ==> Follows(p, path[..k], path[k])
  {
    var n := |path| - 1;
    if k < n {
      TravelledPrefix(p, path[..n], k);
      assert path[..n][..k] == path[..k];
    } else if k == |path| {
      assert path[..k] == path;
    }
  }

  lemma FreshTogether(a: seq<int>, b: seq<int>, entered: set<int>)
    ensures Fresh(a + b, entered) <==> Fresh(a, entered) && Fresh(b, entered + SetOf(a))
  {
    var all := a + b;
    assert forall i :: 0 <= i < |a| ==> all[i] == a[i];
    assert forall i :: 0 <= i < |b| ==> all[|a| + i] == b[i];
    if Fresh(all, entered) {
      assert forall x :: x in a || x in b ==> x in all;
      forall j | 0 <= j < |b|
        ensures b[j] !in a
      {
        assert forall i :: 0 <= i < |a| ==> all[i] != all[|a| + j];
      }
    }
    if Fresh(a, entered) && Fresh(b, entered + SetOf(a)) {
      forall i, j | 0 <= i < j < |all|
        ensures all[i] != all[j]
      {
        assert i < |a| ==> all[i] in a;
        assert j >= |a| ==> all[j] == b[j - |a|];
        assert i >= |a| ==> all[i] == b[i - |a|];
      }
    }
  }

  lemma SplitFresh(v: int, l: Tree, r: Tree, entered: set<int>)
    ensures Fresh(Preorder(Split(v, l, r)), entered) <==>
            v !in entered && Fresh(Preorder(l), entered + {v}) && Fresh(Preorder(r), entered + {v} + SetOf(Preorder(l)))
    ensures SetOf(Preorder(Split(v, l, r))) == {v} + SetOf(Preorder(l)) + SetOf(Preorder(r))
  {
    hide Fresh;
    assert Preorder(Split(v, l, r)) == [v] + (Preorder(l) + Preorder(r));
    FreshCons(v, Preorder(l) + Preorder(r), entered);
    FreshTogether(Preorder(l), Preorder(r), entered + {v});
  }

  /** A path into a subtree whose nodes are all new is nowhere blocked. */
  lemma {:induction false} NotBlockedInside(p: PortableTree, path: seq<Frame>, k: nat, t: Tree)
    requires LengthsAgree(p) && Travelled(p, path) && k <= |path|
    requires NewSubtree(p, At(p, path[..k]), t, Before(path[..k]))
    ensures BlockedAt(p, path).None?
    decreases |path| - k
  {
    if k == |path| {
      assert path[..k] == path;
      AboveIsBefore(path);
      assert Preorder(t)[0] == t.node && t.node in Preorder(t);
    } else {
      hide Fresh, Travelled, BlockedAt, Preorder;
      TravelledPrefix(p, path, k);
      var f := path[k];
      assert path[..k + 1] == path[..k] + [f];
      Longer(p, path[..k], f);
      assert t.Split?;
      SplitFresh(t.node, t.left, t.right, Before(path[..k]));
      if f.InRight? {
        EncodesUnique(p, p.left[f.node], t.left, f.left);
        NotBlockedInside(p, path, k + 1, t.right);
      } else {
        NotBlockedInside(p, path, k + 1, t.left);
      }
    }
  }

  /** Arrays that spell a tree from the root are not refused. */
  lemma TreeIsNotRefused(p: PortableTree, t: Tree, e: TreeError)
    requires LengthsAgree(p) && RootedTree(p, t)
    ensures !Refused(p, e)
  {
    forall path | Travelled(p, path)
      ensures BlockedAt(p, path) != Some(e)
    {
      assert path[..0] == [];
      NotBlockedInside(p, path, 0, t);
    }
  }

  /** Behind a left subtree no path into it is blocked. */
  lemma NotBesideLeft(p: PortableTree, a: seq<Frame>, b: seq<Frame>, n: nat)
    requires LengthsAgree(p) && Travelled(p, a) && Travelled(p, b) && BlockedAt(p, b).Some?
    requires n < |a| && n < |b| && a[..n] == b[..n]
    ensures a[n].InRight? ==> b[n].InRight?
  {
    hide Travelled, BlockedAt, Fresh, Encodes;
    TravelledPrefix(p, a, n);
    TravelledPrefix(p, b, n);
    if a[n].InRight? && b[n].InLeft? {
      Longer(p, b[..n], b[n]);
      assert b[..n + 1] == b[..n] + [b[n]];
      assert Before(b[..n + 1]) == Before(b[..n]) + {b[n].node};
      NotBlockedInside(p, b, n + 1, a[n].left);
    }
  }

  /** Two paths that end at a blocked node go the same way as far as both go. */
  lemma {:induction false} BlockedPathsAgree(p: PortableTree, a: seq<Frame>, b: seq<Frame>, k: nat)
    requires LengthsAgree(p) && Travelled(p, a) && Travelled(p, b) && BlockedAt(p, a).Some? && BlockedAt(p, b).Some?
    requires k <= |a| && k <= |b|
    ensures a[..k] == b[..k]
  {
    if k > 0 {
      hide Travelled, BlockedAt, Fresh, Encodes;
      var n := k - 1;
      BlockedPathsAgree(p, a, b, n);
      TravelledPrefix(p, a, n);
      TravelledPrefix(p, b, n);
      NotBesideLeft(p, a, b, n);
      NotBesideLeft(p, b, a, n);
      if a[n].InRight? {
        EncodesUnique(p, p.left[a[n].node], a[n].left, b[n].left);
      }
      assert a[..k] == a[..n] + [a[n]] && b[..k] == b[..n] + [b[n]];
    }
  }

  lemma BlockedEndsPath(p: PortableTree, a: seq<Frame>, b: seq<Frame>)
    requires LengthsAgree(p) && Travelled(p, b) && BlockedAt(p, a).Some? && |a| <= |b| && b[..|a|] == a
    ensures a == b
  {
    if |a| < |b| {
      TravelledPrefix(p, b, |a|);
      AboveIsBefore(a);
    }
    assert b[..|b|] == b;
  }

  /** The arrays settle the reason. */
  lemma RefusedOnce(p: PortableTree, e: TreeError, f: TreeError)
    requires LengthsAgree(p) && Refused(p, e) && Refused(p, f)
    ensures e == f
  {
    var a :| Travelled(p, a) && BlockedAt(p, a) == Some(e);
    var b :| Travelled(p, b) && BlockedAt(p, b) == Some(f);
    hide Travelled, BlockedAt;
    if |a| <= |b| {
      BlockedPathsAgree(p, a, b, |a|);
      assert a[..|a|] == a;
      BlockedEndsPath(p, a, b);
    } else {
      BlockedPathsAgree(p, a, b, |b|);
      assert b[..|b|] == b;
      BlockedEndsPath(p, b, a);
    }
  }

  // ----- the validator

  /** The stack while the traversal is at the end of a path: exit frames, and the right children still to come. */
  ghost function Frames(p: PortableTree, path: seq<Frame>): seq<(int, bool)> {
    if path == [] then []
    else
      var last := path[|path| - 1];
      Frames(p, path[..|path| - 1]) + [(last.node, true)] + if last.InLeft? then [(Child(p.right, last.node), false)] else []
  }

  /** What the traversal does next: enter the end of a path, leave a subtree there, or nothing any more. */
  datatype Place = Entering(path: seq<Frame>) | Leaving(path: seq<Frame>, done: Tree) | Finished(tree: Tree)

  ghost predicate Stands(p: PortableTree, stack: seq<(int, bool)>, active: set<int>, visited: set<int>, place: Place)
    requires LengthsAgree(p)
  {
    && active !! visited
    && match place
       case Entering(path) =>
         && Travelled(p, path) && stack == Frames(p, path) + [(At(p, path), false)]
         && active == Above(path) && active + visited == Before(path)
       case Leaving(path, t) =>
         && Travelled(p, path) && NewSubtree(p, At(p, path), t, Before(path)) && stack == Frames(p, path) + [(t.node, true)]
         && active == Above(path) + {t.node} && active + visited == Before(path) + SetOf(Preorder(t))
       case Finished(t) =>
         stack == [] && RootedTree(p, t) && active == {} && visited == SetOf(Preorder(t))
  }

  lemma FramesGrow(p: PortableTree, path: seq<Frame>, f: Frame)
    ensures Frames(p, path + [f]) ==
            Frames(p, path) + [(f.node, true)] + if f.InLeft? then [(Child(p.right, f.node), false)] else []
  {
    assert (path + [f])[..|path|] == path;
  }

  /** The stack once `node` has been entered: its exit frame, then its children, left one on top. */
  function Opened(p: PortableTree, stack: seq<(int, bool)>, node: int): seq<(int, bool)>
    requires LengthsAgree(p) && 0 <= node < p.nodeCount
  {
    var exit := stack + [(node, true)];
    if LeafAt(p, node) then exit else exit + [(p.right[node], false)] + [(p.left[node], false)]
  }

  /** Where the traversal stands after entering a node that is not blocked. */
  ghost function Entered(p: PortableTree, path: seq<Frame>, node: int): Place
    requires LengthsAgree(p) && 0 <= node < p.nodeCount
  {
    if LeafAt(p, node) then Leaving(path, Leaf(node)) else Entering(path + [InLeft(node)])
  }

  lemma EnterStep(p: PortableTree, stack: seq<(int, bool)>, node: int, active: set<int>, visited: set<int>, path: seq<Frame>)
    requires LengthsAgree(p) && Stands(p, stack + [(node, false)], active, visited, Entering(path))
    ensures BlockedAt(p, path) == Blocked(p, node, active, active + visited)
    ensures BlockedAt(p, path).None? ==>
              && 0 <= node < p.nodeCount && node !in active + visited
              && Stands(p, Opened(p, stack, node), active + {node}, visited, Entered(p, path, node))
  {
    hide Travelled, Frames, Above, Before;
    assert stack + [(node, false)] == Frames(p, path) + [(At(p, path), false)];
    assert (stack + [(node, false)])[|stack|] == (node, false);
    assert stack == Frames(p, path) by {
      assert (stack + [(node, false)])[..|stack|] == stack;
    }
    if BlockedAt(p, path).None? {
      if LeafAt(p, node) {
        assert Preorder(Leaf(node)) == [node];
      } else {
        Longer(p, path, InLeft(node));
        FramesGrow(p, path, InLeft(node));
      }
    }
  }

  /** Where the traversal stands after leaving a subtree: at the right sibling, or leaving the parent, or at the end. */
  ghost function Left(path: seq<Frame>, t: Tree): Place {
    if path == [] then Finished(t)
    else
      var above := path[..|path| - 1];
      match path[|path| - 1]
      case InLeft(v) => Entering(above + [InRight(v, t)])
      case InRight(v, l) => Leaving(above, Split(v, l, t))
  }

  lemma ExitStep(p: PortableTree, stack: seq<(int, bool)>, node: int, active: set<int>, visited: set<int>, path: seq<Frame>, t: Tree)
    requires LengthsAgree(p) && Stands(p, stack + [(node, true)], active, visited, Leaving(path, t))
    ensures node in active && Stands(p, stack, active - {node}, visited + {node}, Left(path, t))
  {
    hide Fresh;
    assert (stack + [(node, true)])[|stack|] == (node, true) && (stack + [(node, true)])[..|stack|] == stack;
    assert stack == Frames(p, path) && node == t.node;
    AboveIsBefore(path);
    RootIsNew(t, Before(path));
    var left := active - {node};
    assert left == Above(path) && left + (visited + {node}) == Before(path) + SetOf(Preorder(t));
    if path == [] {
      assert RootedTree(p, t) by {
        FreshIsDistinct(Preorder(t), {});
      }
    } else {
      var above, last := path[..|path| - 1], path[|path| - 1];
      assert path == above + [last];
      Longer(p, above, last);
      FramesGrow(p, above, last);
      if last.InLeft? {
        assert Before(path) == Before(above) + {last.node};
        LeftBehind(p, above, last.node, t);
      } else {
        hide Travelled, Frames;
        SplitFresh(last.node, last.left, t, Before(above));
      }
    }
  }

  lemma LeftBehind(p: PortableTree, above: seq<Frame>, v: int, t: Tree)
    requires LengthsAgree(p) && Travelled(p, above + [InLeft(v)]) && NewSubtree(p, p.left[v], t, Before(above) + {v})
    ensures Travelled(p, above + [InRight(v, t)])
    ensures At(p, above + [InRight(v, t)]) == p.right[v]
    ensures Above(above + [InRight(v, t)]) == Above(above + [InLeft(v)])
    ensures Before(above + [InRight(v, t)]) == Before(above + [InLeft(v)]) + SetOf(Preorder(t))
    ensures Frames(p, above + [InLeft(v)]) == Frames(p, above + [InRight(v, t)]) + [(p.right[v], false)]
  {
    Longer(p, above, InLeft(v));
    Longer(p, above, InRight(v, t));
    FramesGrow(p, above, InLeft(v));
    FramesGrow(p, above, InRight(v, t));
  }

  lemma RootIsNew(t: Tree, before: set<int>)
    requires Fresh(Preorder(t), before)
    ensures t.node in Preorder(t) && t.node !in before
  {
    assert Preorder(t)[0] == t.node;
  }

  lemma FreshIsDistinct(order: seq<int>, entered: set<int>)
    requires Fresh(order, entered)
    ensures Distinct(order)
  {
  }

  /** Entering one node: range and reuse checks first, then its shape; the result is the stack above its exit frame. */
  method EnterNode(p: PortableTree, stack: seq<(int, bool)>, node: int, active: set<int>, visited: set<int>)
    returns (r: Result<seq<(int, bool)>, TreeError>)
    requires LengthsAgree(p)
    ensures match Blocked(p, node, active, active + visited)
            case None => r == Ok(Opened(p, stack, node))
            case Some(e) => r == Err(e)
  {
    if node < 0 || node >= p.nodeCount || node in active {
      return Err(TopologyInvalid);
    }
    if node in visited {
      return Err(NodeReused);
    }
    var left, right, feature := p.left[node], p.right[node], p.features[node];
    var next := stack + [(node, true)];
    if left == -1 && right == -1 {
      if feature != -2 {
        return Err(LeafMarkerInvalid);
      }
      return Ok(next);
    }
    if left == -1 || right == -1 || left == right || !(0 <= feature < FEATURE_COUNT) {
      return Err(SplitInvalid);
    }
    next := next + [(right, false)];
    next := next + [(left, false)];
    return Ok(next);
  }

  /** The explicit-stack traversal from node 0: it visits the nodes of a tree, or stops at the first that cannot be entered. */
  method Traverse(p: PortableTree) returns (r: Result<set<int>, TreeError>, ghost tree: Option<Tree>)
    requires LengthsAgree(p)
    ensures r.Ok? ==> tree.Some? && RootedTree(p, tree.value) && r.value == SetOf(Preorder(tree.value))
    ensures r.Err? ==> Refused(p, r.error)
    ensures r.Ok? <==> Walk(p, [0], {}).Some?
  {
    hide Walk, Blocked, BlockedAt, Opened, Entered, Left, RootedTree;
    WalkFromRoot(p);
    var visited: set<int>, active: set<int> := {}, {};
    var stack := [(0, false)];
    ghost var place := Entering([]);
    while stack != []
      invariant Stands(p, stack, active, visited, place)
      decreases Nodes(p) - (active + visited), |stack|
    {
      var (node, exiting) := stack[|stack| - 1];
      assert stack[..|stack| - 1] + [(node, exiting)] == stack;
      assert place.Leaving? <==> exiting;
      stack := stack[..|stack| - 1];
      if exiting {
        ExitStep(p, stack, node, active, visited, place.path, place.done);
        assert active - {node} + (visited + {node}) == active + visited;
        active, visited, place := active - {node}, visited + {node}, Left(place.path, place.done);
      } else {
        EnterStep(p, stack, node, active, visited, place.path);
        var next := EnterNode(p, stack, node, active, visited);
        if next.Err? {
          assert Refused(p, next.error);
          NoTreeThen(p, next.error);
          return Err(next.error), None;
        }
        assert node in Nodes(p) - (active + visited);
        active, place := active + {node}, Entered(p, place.path, node);
        stack := next.value;
      }
    }
    return Ok(visited), Some(place.tree);
  }

  lemma NoTreeThen(p: PortableTree, e: TreeError)
    requires LengthsAgree(p) && Refused(p, e)
    ensures forall t :: !RootedTree(p, t)
  {
    forall t
      ensures !RootedTree(p, t)
    {
      if RootedTree(p, t) {
        TreeIsNotRefused(p, t, e);
      }
    }
  }

  /** Counting the visited nodes tells whether the tree uses them all. */
  lemma WholeTree(p: PortableTree, t: Tree, visited: set<int>)
    requires LengthsAgree(p) && RootedTree(p, t) && visited == SetOf(Preorder(t))
    ensures |visited| == p.nodeCount <==> UsesEveryNode(p, t)
    ensures forall u :: RootedTree(p, u) ==> u == t
  {
    PreorderInRange(p, 0, t);
    RangeSize(p.nodeCount, visited) by {
      assert forall v :: v in visited ==> v in Nodes(p);
    }
    forall u | RootedTree(p, u)
      ensures u == t
    {
      EncodesUnique(p, 0, t, u);
    }
  }

  /** Accepts exactly the proper trees; otherwise says what the first check or the first node in preorder that fails says. */
  method ValidateTree(p: PortableTree) returns (r: Result<(), TreeError>)
    ensures r.Ok? <==> NodeCountInRange(p) && ProperTree(p)
    ensures r == Err(NodeCountInvalid) <==> p.nodeCount < 1 || p.nodeCount > 100_000
    ensures r == Err(ArrayLengthsInvalid) <==>
              && 1 <= p.nodeCount <= 100_000
              && !(|p.left| == |p.right| == |p.features| == |p.thresholds| == |p.values| == p.nodeCount)
    ensures NodeCountInRange(p) && LengthsAgree(p) ==>
              forall e :: r == Err(e) && e != UnreachableNodes <==> Refused(p, e)
    ensures r == Err(UnreachableNodes) <==>
      NodeCountInRange(p) && LengthsAgree(p) && exists t :: RootedTree(p, t) && !UsesEveryNode(p, t)
  {
    if !NodeCountInRange(p) {
      return Err(NodeCountInvalid);
    }
    if !LengthsAgree(p) {
      return Err(ArrayLengthsInvalid);
    }
    hide RootedTree, UsesEveryNode, Refused, Preorder;
    var visited, tree := Traverse(p);
    if visited.Err? {
      OneReason(p, visited.error);
      return Err(visited.error);
    }
    WholeTree(p, tree.value, visited.value);
    NoReason(p, tree.value);
    if |visited.value| != p.nodeCount {
      return Err(UnreachableNodes);
    }
    return Ok(());
  }

  lemma OneReason(p: PortableTree, e: TreeError)
    requires LengthsAgree(p) && Refused(p, e)
    ensures e !in {NodeCountInvalid, ArrayLengthsInvalid, UnreachableNodes}
    ensures forall f :: Refused(p, f) <==> f == e
    ensures forall t :: !RootedTree(p, t)
  {
    NoTreeThen(p, e);
    forall f | Refused(p, f)
      ensures f == e
    {
      RefusedOnce(p, e, f);
    }
  }

  lemma NoReason(p: PortableTree, t: Tree)
    requires LengthsAgree(p) && RootedTree(p, t)
    ensures forall e :: !Refused(p, e)
  {
    forall e
      ensures !Refused(p, e)
    {
      TreeIsNotRefused(p, t, e);
    }
  }

  // ----- inference

  /** Recursive evaluation of the decoded tree. */
  ghost function Evaluate(p: PortableTree, t: Tree, row: seq<real>): real
    requires LengthsAgree(p) && Encodes(p, t.node, t) && |row| == FEATURE_COUNT
    decreases t
  {
    match t
    case Leaf(v) => p.values[v]
    case Split(v, l, r) =>
      assert Encodes(p, p.left[v], l) && Encodes(p, p.right[v], r);
      if row[p.features[v]] <= p.thresholds[v] then Evaluate(p, l, row) else Evaluate(p, r, row)
  }

  /** The tree a validated array set encodes. */
  ghost function Decoded(p: PortableTree): (t: Tree)
    requires ProperTree(p)
    ensures RootedTree(p, t) && UsesEveryNode(p, t)
  {
    var t :| RootedTree(p, t) && UsesEveryNode(p, t);
    t
  }

  /** The unguarded walk: on validated arrays it stays in bounds, ends, and finds the tree's value. */
  method WalkToLeaf(p: PortableTree, row: seq<real>) returns (value: real, ghost path: seq<int>)
    requires ProperTree(p) && |row| == FEATURE_COUNT
    ensures value == Evaluate(p, Decoded(p), row)
    ensures RowPath(p, row, path) && path[0] == 0 && value == p.values[path[|path| - 1]]
  {
    var node := 0;
    ghost var rest := Decoded(p);
    while p.left[node] != -1
      invariant Encodes(p, node, rest)
      invariant Evaluate(p, Decoded(p), row) == Evaluate(p, rest, row)
      decreases rest
    {
      var feature := p.features[node];
      rest := if row[feature] <= p.thresholds[node] then rest.left else rest.right;
      node := if row[feature] <= p.thresholds[node] then p.left[node] else p.right[node];
    }
    value := p.values[node];
    path := EvaluatesAlongPath(p, Decoded(p), row);
  }

  /** Every leaf value is reached by the row alone: the walk never leaves the tree's own nodes. */
  lemma {:induction false} EvaluatesToALeaf(p: PortableTree, t: Tree, row: seq<real>) returns (leaf: int)
    requires LengthsAgree(p) && Encodes(p, t.node, t) && |row| == FEATURE_COUNT
    ensures leaf in Preorder(t) && 0 <= leaf < p.nodeCount && LeafAt(p, leaf)
    ensures Evaluate(p, t, row) == p.values[leaf]
    decreases t
  {
    match t
    case Leaf(v) => leaf := v;
    case Split(v, l, r) =>
      if row[p.features[v]] <= p.thresholds[v] {
        leaf := EvaluatesToALeaf(p, l, row);
      } else {
        leaf := EvaluatesToALeaf(p, r, row);
      }
  }

  /** The nodes a row passes: left where the feature is at most the threshold, right where it is above, down to a leaf. */
  ghost predicate RowPath(p: PortableTree, row: seq<real>, ns: seq<int>)
    requires LengthsAgree(p)
  {
    && ns != [] && (forall i :: 0 <= i < |ns| ==> 0 <= ns[i] < |p.values|)
    && p.left[ns[|ns| - 1]] == -1
    && forall i :: 0 <= i < |ns| - 1 ==> RowStep(p, row, ns[i], ns[i + 1])
  }

  ghost predicate RowStep(p: PortableTree, row: seq<real>, node: int, next: int)
    requires LengthsAgree(p) && 0 <= node < |p.values|
  {
    var feature := p.features[node];
    && p.left[node] != -1 && 0 <= feature < |row|
    && (row[feature] <= p.thresholds[node] ==> next == p.left[node])
    && (row[feature] > p.thresholds[node] ==> next == p.right[node])
  }

  /** Evaluation is the value at the end of the row's path. */
  lemma {:induction false} EvaluatesAlongPath(p: PortableTree, t: Tree, row: seq<real>) returns (ns: seq<int>)
    requires LengthsAgree(p) && Encodes(p, t.node, t) && |row| == FEATURE_COUNT
    ensures RowPath(p, row, ns) && ns[0] == t.node && Evaluate(p, t, row) == p.values[ns[|ns| - 1]]
    decreases t
  {
    match t
    case Leaf(v) => ns := [v];
    case Split(v, l, r) =>
      var rest := EvaluatesAlongPath(p, if row[p.features[v]] <= p.thresholds[v] then l else r, row);
      ns := [v] + rest;
      assert RowStep(p, row, v, rest[0]);
      assert forall i :: 1 <= i < |ns| - 1 ==> RowStep(p, row, rest[i - 1], rest[i]);
  }

  /** A row has one path from a node. */
  lemma {:induction false} OnePath(p: PortableTree, row: seq<real>, a: seq<int>, b: seq<int>)
    requires LengthsAgree(p) && RowPath(p, row, a) && RowPath(p, row, b) && a[0] == b[0]
    ensures a == b
  {
    EndsAtLeaf(p, row, a);
    EndsAtLeaf(p, row, b);
    if |a| > 1 {
      assert RowStep(p, row, a[0], a[1]) && RowStep(p, row, b[0], b[1]);
      PathTail(p, row, a);
      PathTail(p, row, b);
      OnePath(p, row, a[1..], b[1..]);
      assert a == [a[0]] + a[1..] && b == [b[0]] + b[1..];
    }
  }

  lemma EndsAtLeaf(p: PortableTree, row: seq<real>, ns: seq<int>)
    requires LengthsAgree(p) && RowPath(p, row, ns)
    ensures |ns| == 1 <==> p.left[ns[0]] == -1
  {
    if |ns| > 1 {
      assert RowStep(p, row, ns[0], ns[1]);
    }
  }

  lemma PathTail(p: PortableTree, row: seq<real>, ns: seq<int>)
    requires LengthsAgree(p) && RowPath(p, row, ns) && |ns| > 1
    ensures RowPath(p, row, ns[1..])
  {
    forall i | 0 <= i < |ns| - 2
      ensures RowStep(p, row, ns[1..][i], ns[1..][i + 1])
    {
      assert RowStep(p, row, ns[i + 1], ns[i + 2]);
    }
  }

  /** One split at feature 0, threshold 0.5: low rows score 0.1, high ones 0.9. */
  const STUMP := PortableTree(3, [1, -1, -1], [2, -1, -1], [0, -2, -2], [0.5, -2.0, -2.0], [0.0, 0.1, 0.9])

  lemma StumpIsProper()
    ensures ProperTree(STUMP)
  {
    var t := Split(0, Leaf(1), Leaf(2));
    assert Preorder(Leaf(1)) == [1] && Preorder(Leaf(2)) == [2];
    assert Preorder(t) == [0, 1, 2];
    assert 0 in Preorder(t) && 1 in Preorder(t) && 2 in Preorder(t) by {
      assert Preorder(t)[0] == 0 && Preorder(t)[1] == 1 && Preorder(t)[2] == 2;
    }
    assert Encodes(STUMP, 0, t);
    assert RootedTree(STUMP, t) && UsesEveryNode(STUMP, t);
  }

  /** A row at the threshold goes left. */
  lemma StumpScores(row: seq<real>)
    requires |row| == 75
    ensures ProperTree(STUMP)
    ensures Evaluate(STUMP, Decoded(STUMP), row) == if row[0] <= 0.5 then 0.1 else 0.9
  {
    StumpIsProper();
    var ns := EvaluatesAlongPath(STUMP, Decoded(STUMP), row);
    if row[0] <= 0.5 {
      OnePath(STUMP, row, ns, [0, 1]);
    } else {
      OnePath(STUMP, row, ns, [0, 2]);
    }
  }

  /** Splits name the features 0 to 74; a leaf is marked by minus two. */
  lemma FeatureNumbers(p: PortableTree, v: int)
    requires LengthsAgree(p) && 0 <= v < p.nodeCount
    ensures SplitAt(p, v) ==> 0 <= p.features[v] <= 74
    ensures p.left[v] == p.right[v] == -1 ==> (Blocked(p, v, {}, {}).None? <==> p.features[v] == -2)
    ensures -1 !in [p.left[v], p.right[v]] && p.left[v] != p.right[v] ==> (Blocked(p, v, {}, {}).None? <==> 0 <= p.features[v] <= 74)
  {
  }

  /** The boosted score of a row: every tree's value, weighted by the learning rate. */
  ghost function Boosted(trees: seq<PortableTree>, rate: real, row: seq<real>): real
    requires |row| == FEATURE_COUNT && forall p :: p in trees ==> ProperTree(p)
  {
    if trees == [] then 0.0
    else Boosted(trees[..|trees| - 1], rate, row) + rate * Evaluate(trees[|trees| - 1], Decoded(trees[|trees| - 1]), row)
  }

  method TreeValues(p: PortableTree, rows: seq<seq<real>>) returns (values: array<real>)
    requires ProperTree(p)
    requires forall row :: row in rows ==> |row| == FEATURE_COUNT
    ensures fresh(values) && values.Length == |rows|
    ensures forall i :: 0 <= i < |rows| ==> values[i] == Evaluate(p, Decoded(p), rows[i])
  {
    values := new real[|rows|](_ => 0.0);
    for i := 0 to |rows|
      invariant forall j :: 0 <= j < i ==> values[j] == Evaluate(p, Decoded(p), rows[j])
    {
      var value, _ := WalkToLeaf(p, rows[i]);
      values[i] := value;
    }
  }

  method AddScaled(scores: array<real>, rate: real, values: array<real>)
    requires scores != values && scores.Length == values.Length
    modifies scores
    ensures forall i :: 0 <= i < scores.Length ==> scores[i] == old(scores[i]) + rate * values[i]
  {
    for i := 0 to scores.Length
      invariant forall j :: 0 <= j < scores.Length ==> scores[j] == old(scores[j]) + if j < i then rate * values[j] else 0.0
    {
      scores[i] := scores[i] + rate * values[i];
    }
  }

  method PortableRawScores(trees: seq<PortableTree>, rate: real, rows: seq<seq<real>>) returns (scores: array<real>)
    requires forall p :: p in trees ==> ProperTree(p)
    requires forall row :: row in rows ==> |row| == FEATURE_COUNT
    ensures fresh(scores) && scores.Length == |rows|
    ensures forall i :: 0 <= i < |rows| ==> scores[i] == Boosted(trees, rate, rows[i])
  {
    hide ProperTree;
    hide Evaluate;
    scores := new real[|rows|](_ => 0.0);
    for k := 0 to |trees|
      invariant forall i :: 0 <= i < |rows| ==> scores[i] == Boosted(trees[..k], rate, rows[i])
    {
      assert trees[k] in trees;
      var values := TreeValues(trees[k], rows);
      AddScaled(scores, rate, values);
      assert trees[..k + 1][..k] == trees[..k];
    }
    assert trees[..|trees|] == trees;
  }

  /** The row's path from the root, and what the tree adds at its end. */
  ghost predicate Adds(p: PortableTree, rate: real, row: seq<real>, path: seq<int>, before: real, after: real) {
    && LengthsAgree(p) && RowPath(p, row, path) && path[0] == 0
    && after == before + rate * p.values[path[|path| - 1]]
  }

  /** A score starts at zero and takes from each tree in turn the learning rate times the value at the end of the row's path. */
  lemma {:induction false} ScoreAlongPaths(trees: seq<PortableTree>, rate: real, row: seq<real>)
    returns (paths: seq<seq<int>>, sums: seq<real>)
    requires |row| == FEATURE_COUNT && forall p :: p in trees ==> ProperTree(p)
    ensures |paths| == |trees| && |sums| == |trees| + 1
    ensures sums[0] == 0.0 && Boosted(trees, rate, row) == sums[|trees|]
    ensures forall k :: 0 <= k < |trees| ==> Adds(trees[k], rate, row, paths[k], sums[k], sums[k + 1])
  {
    if trees == [] {
      paths, sums := [], [0.0];
    } else {
      var n := |trees| - 1;
      paths, sums := ScoreAlongPaths(trees[..n], rate, row);
      assert trees[n] in trees;
      var path := EvaluatesAlongPath(trees[n], Decoded(trees[n]), row);
      var after := sums[n] + rate * trees[n].values[path[|path| - 1]];
      assert Adds(trees[n], rate, row, path, sums[n], after);
      hide ProperTree, Evaluate, Adds;
      assert forall k :: 0 <= k < n ==> trees[..n][k] == trees[k];
      paths, sums := paths + [path], sums + [after];
    }
  }
}
