/**
 * Within a component the hub order of src/riskloom/serving/coordination.py is
 * breadth first: hubs come in the order of the first hub that links to them,
 * and those of one hub by their ids.  Nothing else is left open.
 */
module ClusterBreadth {
  import opened Common
  import opened ClusterOrder

  /** The first position whose hub links to `x`. */
  ghost predicate FirstLink(linked: Links, s: seq<Id>, x: Id, j: nat) {
    && j < |s| && s[j] in linked && x in linked[s[j]]
    && forall l :: 0 <= l < j ==> !(s[l] in linked && x in linked[s[l]])
  }

  /** All but the first are first linked from a position below `c` and before their own, in this order. */
  ghost predicate BreadthFirst(linked: Links, s: seq<Id>, c: nat) {
    && Distinct(s)
    && (forall i :: 0 < i < |s| ==> HasLink(linked, s, i, c))
    && (forall i, k, a: nat, b: nat :: 0 < i < k < |s| && FirstLink(linked, s, s[i], a) && FirstLink(linked, s, s[k], b) ==>
          a < b || (a == b && s[i] < s[k]))
  }

  ghost predicate HasLink(linked: Links, s: seq<Id>, i: nat, c: nat)
    requires i < |s|
  {
    exists j: nat :: j < c && j < i && FirstLink(linked, s, s[i], j)
  }

  lemma FirstLinkOnce(linked: Links, s: seq<Id>, x: Id, a: nat, b: nat)
    requires FirstLink(linked, s, x, a) && FirstLink(linked, s, x, b)
    ensures a == b
  {
  }

  lemma FirstLinkKept(linked: Links, s: seq<Id>, more: seq<Id>, x: Id, j: nat)
    requires j < |s|
    ensures FirstLink(linked, s + more, x, j) <==> FirstLink(linked, s, x, j)
  {
    assert forall l :: 0 <= l < |s| ==> (s + more)[l] == s[l];
  }

  /** What was expanded so far saw all its neighbours. */
  ghost predicate AllSeen(linked: Links, done: seq<Id>, seen: set<Id>) {
    forall x :: x in done ==> x in linked && linked[x] <= seen
  }

  /** Expanding the next hub appends what it is the first to link to, by id. */
  lemma ExpandKeeps(linked: Links, s: seq<Id>, c: nat, seen: set<Id>, found: seq<Id>)
    requires c < |s| && s[c] in linked && BreadthFirst(linked, s, c)
    requires AllSeen(linked, s[..c], seen) && forall x :: x in s ==> x in seen
    requires Ascending(found) && forall x :: x in found <==> x in linked[s[c]] && x !in seen
    ensures BreadthFirst(linked, s + found, c + 1)
  {
    var t := s + found;
    assert forall i :: 0 <= i < |s| ==> t[i] == s[i];
    assert forall i :: 0 <= i < |found| ==> t[|s| + i] == found[i] && found[i] in found;
    forall i | |s| <= i < |t|
      ensures FirstLink(linked, t, t[i], c)
    {
      var x := found[i - |s|];
      assert x in found;
      forall l | 0 <= l < c
        ensures x !in linked[s[l]]
      {
        assert s[..c][l] == s[l] && s[l] in s[..c];
      }
    }
    var next := c + 1;
    forall i | 0 < i < |t|
      ensures HasLink(linked, t, i, next)
    {
      if i < |s| {
        assert HasLink(linked, s, i, c);
        var j: nat :| j < c && j < i && FirstLink(linked, s, s[i], j);
        FirstLinkKept(linked, s, found, s[i], j);
      } else {
        assert FirstLink(linked, t, t[i], c);
      }
    }
    forall i, k, a: nat, b: nat | 0 < i < k < |t| && FirstLink(linked, t, t[i], a) && FirstLink(linked, t, t[k], b)
      ensures a < b || (a == b && t[i] < t[k])
    {
      OrderKept(linked, s, found, c, i, k, a, b);
    }
    NewDistinct(s, found, seen);
  }

  lemma NewDistinct(s: seq<Id>, found: seq<Id>, seen: set<Id>)
    requires Distinct(s) && Ascending(found) && (forall x :: x in s ==> x in seen) && forall x :: x in found ==> x !in seen
    ensures Distinct(s + found)
  {
    var t := s + found;
    forall i, j | 0 <= i < j < |t|
      ensures t[i] != t[j]
    {
      if i < |s| <= j {
        assert s[i] in s && found[j - |s|] in found;
      }
    }
  }

  lemma OrderKept(linked: Links, s: seq<Id>, found: seq<Id>, c: nat, i: nat, k: nat, a: nat, b: nat)
    requires c < |s| && BreadthFirst(linked, s, c) && Ascending(found)
    requires forall l :: |s| <= l < |s + found| ==> FirstLink(linked, s + found, (s + found)[l], c)
    requires 0 < i < k < |s + found|
    requires FirstLink(linked, s + found, (s + found)[i], a) && FirstLink(linked, s + found, (s + found)[k], b)
    ensures a < b || (a == b && (s + found)[i] < (s + found)[k])
  {
    var t := s + found;
    if i < |s| {
      assert HasLink(linked, s, i, c);
      var j: nat :| j < c && j < i && FirstLink(linked, s, s[i], j);
      FirstLinkKept(linked, s, found, s[i], j);
      FirstLinkOnce(linked, t, t[i], a, j);
    } else {
      FirstLinkOnce(linked, t, t[i], a, c);
    }
    if k < |s| {
      assert HasLink(linked, s, k, c);
      var j: nat :| j < c && j < k && FirstLink(linked, s, s[k], j);
      FirstLinkKept(linked, s, found, s[k], j);
      FirstLinkOnce(linked, t, t[k], b, j);
    } else {
      FirstLinkOnce(linked, t, t[k], b, c);
    }
  }

  /** However far a search has come, what it has ordered and queued is breadth first, and so is its end. */
  lemma {:induction false} SearchIsBreadthFirst(linked: Links, done: seq<Id>, queue: seq<Id>, seen: set<Id>)
    requires QueueOk(linked, queue, seen) && BreadthFirst(linked, done + queue, |done|)
    requires AllSeen(linked, done, seen) && forall x :: x in done + queue ==> x in seen
    ensures var r := Search(linked, queue, seen);
            BreadthFirst(linked, done + r.order, |done + r.order|)
    decreases Work(linked, queue, seen)
  {
    hide BreadthFirst, Symmetric, Work, Sorted, Ascending, Unseen;
    if queue == [] {
      assert done + queue == done && done + Search(linked, queue, seen).order == done;
    } else {
      var current := queue[0];
      var found := Discovered(linked, current, seen);
      WorkShrinks(linked, queue, seen);
      DiscoveredIs(linked, current, seen);
      assert current in queue && current in seen && current in linked;
      var s := done + queue;
      assert s[|done|] == current && s[..|done|] == done;
      ExpandKeeps(linked, s, |done|, seen, found);
      var more := seen + SetOf(found);
      NextSeen(linked, done, queue, seen, found);
      hide Discovered, AllSeen;
      var next, rest := done + [current], queue[1..] + found;
      Regrouped(done, queue, found);
      SearchIsBreadthFirst(linked, next, rest, more);
      var r := Search(linked, rest, more);
      assert next + r.order == done + ([current] + r.order);
    }
  }

  lemma Regrouped(done: seq<Id>, queue: seq<Id>, found: seq<Id>)
    requires queue != []
    ensures (done + queue) + found == (done + [queue[0]]) + (queue[1..] + found)
    ensures |done + [queue[0]]| == |done| + 1
  {
  }

  lemma NextSeen(linked: Links, done: seq<Id>, queue: seq<Id>, seen: set<Id>, found: seq<Id>)
    requires queue != [] && queue[0] in linked && AllSeen(linked, done, seen) && forall x :: x in done + queue ==> x in seen
    requires forall x :: x in found <==> x in linked[queue[0]] && x !in seen
    ensures AllSeen(linked, done + [queue[0]], seen + SetOf(found))
    ensures forall x :: x in (done + [queue[0]]) + (queue[1..] + found) ==> x in seen + SetOf(found)
  {
    assert queue[0] in done + queue;
    assert forall x :: x in queue[1..] ==> x in done + queue;
    var more := seen + SetOf(found);
    assert forall x :: x in linked[queue[0]] ==> x in more;
    forall x | x in done + [queue[0]]
      ensures x in linked && linked[x] <= more
    {
      assert x in done || x == queue[0];
    }
  }

  lemma StartIsBreadthFirst(linked: Links, h: Id, seen: set<Id>)
    requires Symmetric(linked) && Closed(linked, seen) && h in linked
    ensures BreadthFirst(linked, Search(linked, [h], seen + {h}).order, |Search(linked, [h], seen + {h}).order|)
  {
    var none: seq<Id> := [];
    assert none + [h] == [h];
    SearchIsBreadthFirst(linked, none, [h], seen + {h});
    var r := Search(linked, [h], seen + {h});
    assert none + r.order == r.order;
  }

  lemma {:induction false} VisitIsBreadthFirst(linked: Links, hubs: seq<Id>, seen: set<Id>)
    requires Symmetric(linked) && Closed(linked, seen) && forall h :: h in hubs ==> h in linked
    ensures forall block :: block in Visit(linked, hubs, seen) ==> BreadthFirst(linked, block, |block|)
    decreases |hubs|
  {
    hide BreadthFirst;
    if hubs != [] {
      var h := hubs[0];
      assert h in hubs;
      if h in seen {
        VisitIsBreadthFirst(linked, hubs[1..], seen);
      } else {
        StartIsBreadthFirst(linked, h, seen);
        ConnectedSelf(linked, h);
        SearchIs(linked, [h], seen + {h}, h);
        VisitIsBreadthFirst(linked, hubs[1..], Search(linked, [h], seen + {h}).seen);
      }
    }
  }

  /** The order is the components one after another, by ascending least id, each breadth first from its least. */
  lemma OrderIsBreadthFirst(linked: Links) returns (blocks: seq<seq<Id>>)
    requires Symmetric(linked)
    ensures OrderOf(linked) == Flatten(blocks) && ComponentBlocks(linked, blocks, Sorted(linked.Keys), {})
    ensures forall k :: 0 <= k < |blocks| ==> BreadthFirst(linked, blocks[k], |blocks[k]|)
  {
    hide BreadthFirst, ComponentBlocks, Symmetric, Sorted, OrderOf, Visit;
    blocks := OrderBlocks(linked);
    VisitIsBreadthFirst(linked, Sorted(linked.Keys), {});
  }

  // ----- and that is the only order like this

  /** Two breadth-first orders of the same hubs from the same start agree. */
  lemma {:induction false} BreadthFirstOnce(linked: Links, a: seq<Id>, b: seq<Id>, n: nat)
    requires BreadthFirst(linked, a, |a|) && BreadthFirst(linked, b, |b|) && n <= |a| == |b|
    requires (forall x :: x in a <==> x in b) && (a != [] ==> a[0] == b[0])
    ensures a[..n] == b[..n]
  {
    hide BreadthFirst;
    if n > 0 {
      var i := n - 1;
      BreadthFirstOnce(linked, a, b, i);
      if i > 0 {
        NextAgrees(linked, a, b, i);
      }
      assert a[..n] == a[..i] + [a[i]] && b[..n] == b[..i] + [b[i]];
    }
  }

  lemma NextAgrees(linked: Links, a: seq<Id>, b: seq<Id>, i: nat)
    requires BreadthFirst(linked, a, |a|) && BreadthFirst(linked, b, |b|) && 0 < i < |a| == |b|
    requires (forall x :: x in a <==> x in b) && a[..i] == b[..i]
    ensures a[i] == b[i]
  {
    var x, y := a[i], b[i];
    var k := Later(a, b, i);
    var l := Later(b, a, i);
    assert HasLink(linked, a, i, |a|) && HasLink(linked, b, i, |b|);
    var p: nat :| p < i && FirstLink(linked, a, a[i], p);
    var q: nat :| q < i && FirstLink(linked, b, b[i], q);
    SameFirstLink(linked, a, b, i, x, p);
    SameFirstLink(linked, b, a, i, y, q);
    assert x != y ==> p < q || (p == q && x < y);
    assert x != y ==> q < p || (q == p && y < x);
  }

  /** Where `b` has what `a` has next. */
  lemma Later(a: seq<Id>, b: seq<Id>, i: nat) returns (k: nat)
    requires Distinct(a) && i < |a| == |b| && a[..i] == b[..i] && a[i] in b
    ensures i <= k < |b| && b[k] == a[i]
  {
    assert forall m :: 0 <= m < i ==> b[m] == b[..i][m] == a[..i][m] == a[m];
    k :| 0 <= k < |b| && b[k] == a[i];
  }

  lemma SameFirstLink(linked: Links, a: seq<Id>, b: seq<Id>, i: nat, x: Id, p: nat)
    requires p < i <= |a| && i <= |b| && a[..i] == b[..i] && FirstLink(linked, a, x, p)
    ensures FirstLink(linked, b, x, p)
  {
    assert forall l :: 0 <= l < i ==> a[l] == a[..i][l] == b[..i][l] == b[l];
  }
}
