/**
 * Ordering hubs so that each connected component is contiguous
 * (src/riskloom/serving/coordination.py).  Node identifiers are numbers; only
 * their order matters.
 */
module ClusterOrder {
  import opened Common
  import opened Sorting

  type Id = int

  datatype LayoutNode = LayoutNode(nodeId: Id, isHub: bool, radius: int)

  /** Neighbours by hub. */
  type Links = map<Id, set<Id>>

  // ----- sets in ascending order

  ghost predicate Ascending(s: seq<Id>) {
    forall i, j :: 0 <= i < j < |s| ==> s[i] < s[j]
  }

  lemma AscendingTail(s: seq<Id>)
    requires Ascending(s) && s != []
    ensures Ascending(s[1..]) && (forall y :: y in s[1..] ==> s[0] < y)
    ensures SetOf(s[1..]) == SetOf(s) - {s[0]} && s[0] in SetOf(s)
  {
    assert s == [s[0]] + s[1..];
  }

  lemma {:induction false} AscendingUnique(a: seq<Id>, b: seq<Id>)
    requires Ascending(a) && Ascending(b) && SetOf(a) == SetOf(b)
    ensures a == b
  {
    hide Ascending;
    if a != [] {
      AscendingTail(a);
    }
    if b != [] {
      AscendingTail(b);
    }
    assert a == [] <==> SetOf(a) == {};
    assert b == [] <==> SetOf(b) == {};
    if a != [] {
      assert a == [a[0]] + a[1..] && b == [b[0]] + b[1..];
      assert a[0] == b[0];
      AscendingUnique(a[1..], b[1..]);
    }
  }

  predicate Less(a: Id, b: Id) {
    a < b
  }

  function Insert(s: seq<Id>, x: Id): (out: seq<Id>)
    requires Ascending(s) && x !in s
    ensures Ascending(out) && SetOf(out) == SetOf(s) + {x} && |out| == |s| + 1
  {
    InsertBy(Less, s, x)
  }

  ghost function AnyOf<T>(s: set<T>): (x: T)
    requires s != {}
    ensures x in s
  {
    var x :| x in s; x
  }

  ghost function Sorted(s: set<Id>): (out: seq<Id>)
    ensures Ascending(out) && SetOf(out) == s && |out| == |s|
  {
    if s == {} then []
    else
      var x := AnyOf(s);
      var rest := Sorted(s - {x});
      assert x !in SetOf(rest);
      assert s - {x} + {x} == s;
      Insert(rest, x)
  }

  /** Python's sorted() of a set. */
  method SortSet(s: set<Id>) returns (out: seq<Id>)
    ensures out == Sorted(s) && Ascending(out)
  {
    out := [];
    var rest := s;
    while rest != {}
      invariant rest <= s && Ascending(out) && SetOf(out) == s - rest
      decreases rest
    {
      var x := PickFrom(rest);
      assert x !in SetOf(out);
      out := Insert(out, x);
      rest := rest - {x};
    }
    AscendingUnique(out, Sorted(s));
  }

  // ----- who is linked to whom

  /** Two different hubs share an event. */
  ghost predicate Share(edges: seq<(Id, Id)>, hubs: set<Id>, a: Id, b: Id) {
    a != b && a in hubs && b in hubs && exists e :: (e, a) in edges && (e, b) in edges
  }

  ghost predicate LinksOf(linked: Links, edges: seq<(Id, Id)>, hubs: set<Id>) {
    linked.Keys == hubs && forall a, b :: a in hubs ==> (b in linked[a] <==> Share(edges, hubs, a, b))
  }

  /** Every neighbour is a hub, and being a neighbour is mutual. */
  ghost predicate Symmetric(linked: Links) {
    forall a, b :: a in linked && b in linked[a] ==> b in linked && a in linked[b]
  }

  lemma LinksAreSymmetric(linked: Links, edges: seq<(Id, Id)>, hubs: set<Id>)
    requires LinksOf(linked, edges, hubs)
    ensures Symmetric(linked) && linked.Keys == hubs
  {
    forall a, b | a in linked && b in linked[a]
      ensures b in linked && a in linked[b]
    {
      assert Share(edges, hubs, a, b);
      var e :| (e, a) in edges && (e, b) in edges;
      assert Share(edges, hubs, b, a);
    }
  }

  lemma LinksUnique(a: Links, b: Links, edges: seq<(Id, Id)>, others: seq<(Id, Id)>, hubs: set<Id>)
    requires LinksOf(a, edges, hubs) && LinksOf(b, others, hubs)
    requires forall e :: e in edges <==> e in others
    ensures a == b
  {
    forall x | x in hubs
      ensures a[x] == b[x]
    {
      forall y
        ensures y in a[x] <==> y in b[x]
      {
        assert Share(edges, hubs, x, y) <==> Share(others, hubs, x, y);
      }
    }
  }

  /** The links that the hubs and the edges determine. */
  ghost function LinksFor(edges: seq<(Id, Id)>, hubs: set<Id>): (linked: Links)
    ensures LinksOf(linked, edges, hubs) && Symmetric(linked)
  {
    var linked := map h | h in hubs :: Sharing(edges, hubs, h);
    LinksAreSymmetric(linked, edges, hubs);
    linked
  }

  ghost function Sharing(edges: seq<(Id, Id)>, hubs: set<Id>, h: Id): set<Id> {
    set b | b in hubs && Share(edges, hubs, h, b)
  }

  // ----- breadth-first search

  function Unseen(neighbours: seq<Id>, seen: set<Id>): (out: seq<Id>)
    ensures |out| <= |neighbours|
  {
    if neighbours == [] then []
    else
      var before := Unseen(neighbours[..|neighbours| - 1], seen);
      if neighbours[|neighbours| - 1] in seen then before else before + [neighbours[|neighbours| - 1]]
  }

  lemma {:induction false} UnseenIs(neighbours: seq<Id>, seen: set<Id>)
    requires Ascending(neighbours)
    ensures Ascending(Unseen(neighbours, seen))
    ensures forall x :: x in Unseen(neighbours, seen) <==> x in neighbours && x !in seen
  {
    if neighbours != [] {
      var n := |neighbours| - 1;
      UnseenIs(neighbours[..n], seen);
      assert neighbours == neighbours[..n] + [neighbours[n]];
      var before := Unseen(neighbours[..n], seen);
      forall i | 0 <= i < |before|
        ensures before[i] < neighbours[n]
      {
        assert before[i] in before && before[i] in neighbours[..n];
      }
    }
  }

  ghost function Discovered(linked: Links, current: Id, seen: set<Id>): seq<Id>
    requires current in linked
  {
    Unseen(Sorted(linked[current]), seen)
  }

  lemma DiscoveredIs(linked: Links, current: Id, seen: set<Id>)
    requires current in linked
    ensures Ascending(Discovered(linked, current, seen))
    ensures forall x :: x in Discovered(linked, current, seen) <==> x in linked[current] && x !in seen
  {
    var neighbours := Sorted(linked[current]);
    UnseenIs(neighbours, seen);
    hide Unseen;
    hide Ascending;
    assert forall x :: x in neighbours <==> x in SetOf(neighbours);
  }

  lemma {:induction false} AscendingSize(s: seq<Id>)
    requires Ascending(s)
    ensures |SetOf(s)| == |s|
  {
    if s != [] {
      AscendingSize(s[1..]);
      assert s == [s[0]] + s[1..];
      assert SetOf(s) == {s[0]} + SetOf(s[1..]);
      assert s[0] !in SetOf(s[1..]);
    } else {
      assert SetOf(s) == {};
    }
  }

  /** What is still to do. */
  ghost function Work(linked: Links, queue: seq<Id>, seen: set<Id>): nat {
    |linked.Keys - seen| + |queue|
  }

  ghost predicate QueueOk(linked: Links, queue: seq<Id>, seen: set<Id>) {
    && Symmetric(linked)
    && seen <= linked.Keys
    && forall x :: x in queue ==> x in seen
  }

  lemma QueueGrows(linked: Links, queue: seq<Id>, seen: set<Id>)
    requires queue != [] && QueueOk(linked, queue, seen)
    ensures var found := Discovered(linked, queue[0], seen);
            QueueOk(linked, queue[1..] + found, seen + SetOf(found)) && SetOf(found) <= linked.Keys - seen
  {
    hide Symmetric, Ascending, Unseen, Sorted;
    var current := queue[0];
    assert current in queue;
    NeighboursKnown(linked, current);
    DiscoveredIs(linked, current, seen);
    hide Discovered;
    var found := Discovered(linked, current, seen);
    assert forall x :: x in SetOf(found) ==> x in linked[current] && x in linked.Keys - seen;
    assert forall x :: x in queue[1..] + found ==> x in queue || x in found;
  }

  lemma NeighboursKnown(linked: Links, a: Id)
    requires Symmetric(linked) && a in linked
    ensures forall b :: b in linked[a] ==> b in linked
  {
  }

  lemma WorkShrinks(linked: Links, queue: seq<Id>, seen: set<Id>)
    requires queue != [] && QueueOk(linked, queue, seen)
    ensures var found := Discovered(linked, queue[0], seen);
            && QueueOk(linked, queue[1..] + found, seen + SetOf(found))
            && Work(linked, queue[1..] + found, seen + SetOf(found)) < Work(linked, queue, seen)
  {
    var found := Discovered(linked, queue[0], seen);
    QueueGrows(linked, queue, seen);
    DiscoveredIs(linked, queue[0], seen);
    AscendingSize(found);
    hide QueueOk;
    hide Discovered;
    assert linked.Keys - (seen + SetOf(found)) == (linked.Keys - seen) - SetOf(found);
  }

  datatype Searched = Searched(order: seq<Id>, seen: set<Id>)

  /** The order in which the queue empties, and everything seen by then. */
  ghost function Search(linked: Links, queue: seq<Id>, seen: set<Id>): Searched
    requires QueueOk(linked, queue, seen)
    decreases Work(linked, queue, seen)
  {
    if queue == [] then Searched([], seen)
    else
      WorkShrinks(linked, queue, seen);
      var found := Discovered(linked, queue[0], seen);
      var rest := Search(linked, queue[1..] + found, seen + SetOf(found));
      Searched([queue[0]] + rest.order, rest.seen)
  }

  // ----- paths

  ghost predicate Path(linked: Links, path: seq<Id>) {
    path != [] && forall i :: 0 <= i < |path| - 1 ==> path[i] in linked && path[i + 1] in linked[path[i]]
  }

  /** Linked by a chain of shared events. */
  ghost predicate Connected(linked: Links, a: Id, b: Id) {
    exists path :: Path(linked, path) && path[0] == a && path[|path| - 1] == b
  }

  lemma ConnectedSelf(linked: Links, a: Id)
    ensures Connected(linked, a, a)
  {
    assert Path(linked, [a]);
  }

  lemma ConnectedStep(linked: Links, a: Id, b: Id, c: Id)
    requires Connected(linked, a, b) && b in linked && c in linked[b]
    ensures Connected(linked, a, c)
  {
    var path :| Path(linked, path) && path[0] == a && path[|path| - 1] == b;
    var longer := path + [c];
    assert Path(linked, longer) && longer[0] == a && longer[|longer| - 1] == c;
  }

  lemma ConnectedBack(linked: Links, a: Id, b: Id)
    requires Symmetric(linked) && Connected(linked, a, b)
    ensures Connected(linked, b, a)
  {
    var path :| Path(linked, path) && path[0] == a && path[|path| - 1] == b;
    var n := |path|;
    var back := seq(n, i requires 0 <= i < n => path[n - 1 - i]);
    forall i | 0 <= i < n - 1
      ensures back[i] in linked && back[i + 1] in linked[back[i]]
    {
      var j := n - 2 - i;
      var from, to := path[j], path[j + 1];
      assert from in linked && to in linked[from];
      assert back[i] == to && back[i + 1] == from;
    }
    assert Path(linked, back) && back[0] == b && back[n - 1] == a;
  }

  lemma ConnectedChains(linked: Links, a: Id, b: Id, c: Id)
    requires Connected(linked, a, b) && Connected(linked, b, c)
    ensures Connected(linked, a, c)
  {
    var p :| Path(linked, p) && p[0] == a && p[|p| - 1] == b;
    var q :| Path(linked, q) && q[0] == b && q[|q| - 1] == c;
    var r := p + q[1..];
    forall i | 0 <= i < |r| - 1
      ensures r[i] in linked && r[i + 1] in linked[r[i]]
    {
      if i >= |p| - 1 {
        assert r[i] == q[i - |p| + 1] && r[i + 1] == q[i - |p| + 2];
      }
    }
    assert Path(linked, r) && r[0] == a && r[|r| - 1] == c;
  }

  /** Nothing links out of the set. */
  ghost predicate Closed(linked: Links, s: set<Id>) {
    s <= linked.Keys && forall x :: x in s ==> linked[x] <= s
  }

  lemma {:induction false} ClosedKeepsPaths(linked: Links, s: set<Id>, path: seq<Id>)
    requires Closed(linked, s) && Path(linked, path) && path[0] in s
    ensures path[|path| - 1] in s
  {
    if |path| > 1 {
      var from, to := path[0], path[0 + 1];
      assert from in linked && to in linked[from];
      assert linked[from] <= s;
      assert Path(linked, path[1..]) by {
        forall i | 0 <= i < |path[1..]| - 1
          ensures path[1..][i] in linked && path[1..][i + 1] in linked[path[1..][i]]
        {
          assert path[i + 1] in linked && path[i + 1 + 1] in linked[path[i + 1]];
        }
      }
      ClosedKeepsPaths(linked, s, path[1..]);
    }
  }

  lemma ClosedKeeps(linked: Links, s: set<Id>, a: Id, b: Id)
    requires Closed(linked, s) && a in s && Connected(linked, a, b)
    ensures b in s
  {
    var path :| Path(linked, path) && path[0] == a && path[|path| - 1] == b;
    ClosedKeepsPaths(linked, s, path);
  }

  /** Everything seen but not queued has had its neighbours seen too. */
  ghost predicate Expanded(linked: Links, queue: seq<Id>, seen: set<Id>) {
    forall x :: x in seen && x !in queue && x in linked ==> linked[x] <= seen
  }

  /** A search from `h` ends closed, and has visited each queued or newly seen hub once. */
  lemma {:induction false} SearchIs(linked: Links, queue: seq<Id>, seen: set<Id>, h: Id)
    requires QueueOk(linked, queue, seen) && Expanded(linked, queue, seen) && Distinct(queue)
    requires forall x :: x in queue ==> Connected(linked, h, x)
    ensures var r := Search(linked, queue, seen);
            && Closed(linked, r.seen) && seen <= r.seen
            && Distinct(r.order)
            && (forall x :: x in r.order <==> x in queue || (x in r.seen && x !in seen))
            && (forall x :: x in r.order ==> Connected(linked, h, x))
            && (queue != [] ==> r.order != [] && r.order[0] == queue[0])
    decreases Work(linked, queue, seen)
  {
    hide Connected, Work, Symmetric, Sorted, Ascending, Unseen;
    if queue != [] {
      var current := queue[0];
      var found := Discovered(linked, current, seen);
      var next, more := queue[1..] + found, seen + SetOf(found);
      WorkShrinks(linked, queue, seen);
      DiscoveredIs(linked, current, seen);
      assert queue == [current] + queue[1..];
      NextQueue(linked, queue, seen, h);
      SearchIs(linked, next, more, h);
      var r := Search(linked, next, more);
      assert current !in next && current in more;
      assert forall x :: x in r.order ==> x != current;
    }
  }

  lemma NextQueue(linked: Links, queue: seq<Id>, seen: set<Id>, h: Id)
    requires queue != [] && QueueOk(linked, queue, seen) && Expanded(linked, queue, seen) && Distinct(queue)
    requires forall x :: x in queue ==> Connected(linked, h, x)
    ensures var found := Discovered(linked, queue[0], seen);
            var next := queue[1..] + found;
            && Expanded(linked, next, seen + SetOf(found)) && Distinct(next)
            && queue[0] !in next
            && (forall x :: x in next ==> Connected(linked, h, x))
  {
    var current := queue[0];
    var found := Discovered(linked, current, seen);
    DiscoveredIs(linked, current, seen);
    hide Discovered;
    hide Connected;
    assert queue == [current] + queue[1..];
    assert current in queue;
    forall x | x in found
      ensures Connected(linked, h, x)
    {
      ConnectedStep(linked, h, current, x);
    }
    var next := queue[1..] + found;
    forall i, j | 0 <= i < j < |next|
      ensures next[i] != next[j]
    {
      if i < |queue| - 1 {
        assert next[i] == queue[i + 1] && queue[i + 1] in queue;
        if j < |queue| - 1 {
          assert next[j] == queue[j + 1];
        } else {
          assert next[j] in found;
        }
      }
    }
  }

  // ----- all components in turn

  /** Start a search at every hub, in ascending order, that no earlier search saw. */
  ghost function Visit(linked: Links, hubs: seq<Id>, seen: set<Id>): seq<seq<Id>>
    requires Symmetric(linked) && Closed(linked, seen) && forall h :: h in hubs ==> h in linked
    decreases |hubs|
  {
    if hubs == [] then []
    else if hubs[0] in seen then Visit(linked, hubs[1..], seen)
    else
      var h := hubs[0];
      ConnectedSelf(linked, h);
      SearchIs(linked, [h], seen + {h}, h);
      var r := Search(linked, [h], seen + {h});
      [r.order] + Visit(linked, hubs[1..], r.seen)
  }

  function Flatten(blocks: seq<seq<Id>>): seq<Id> {
    if blocks == [] then [] else blocks[0] + Flatten(blocks[1..])
  }

  /** One block is one whole component, led by its least member. */
  ghost predicate IsComponent(linked: Links, block: seq<Id>) {
    && block != [] && Distinct(block)
    && (forall x :: x in block ==> x in linked && block[0] <= x)
    && (forall x, y :: x in block && y in linked ==> (y in block <==> Connected(linked, x, y)))
  }

  lemma StartIsComponent(linked: Links, h: Id, seen: set<Id>)
    requires Symmetric(linked) && Closed(linked, seen) && h in linked && h !in seen
    requires forall x :: x in linked && x < h ==> x in seen
    ensures var r := Search(linked, [h], seen + {h});
            && IsComponent(linked, r.order) && r.order[0] == h
            && Closed(linked, r.seen) && seen <= r.seen
            && forall x :: x in r.order <==> x in r.seen && x !in seen
  {
    ConnectedSelf(linked, h);
    SearchIs(linked, [h], seen + {h}, h);
    var r := Search(linked, [h], seen + {h});
    forall x | x in r.order
      ensures x !in seen && x in linked && h <= x && Connected(linked, x, h)
    {
      ConnectedBack(linked, h, x);
      if x in seen {
        ClosedKeeps(linked, seen, x, h);
      }
    }
    forall x, y | x in r.order && y in linked
      ensures y in r.order <==> Connected(linked, x, y)
    {
      if y in r.order {
        ConnectedChains(linked, x, h, y);
      }
      if Connected(linked, x, y) {
        ClosedKeeps(linked, r.seen, x, y);
        if y in seen {
          ConnectedBack(linked, x, y);
          ClosedKeeps(linked, seen, y, x);
        }
      }
    }
  }

  /** The blocks are the components of what was not seen before, by ascending least member. */
  ghost predicate ComponentBlocks(linked: Links, blocks: seq<seq<Id>>, hubs: seq<Id>, seen: set<Id>) {
    && (forall k :: 0 <= k < |blocks| ==> IsComponent(linked, blocks[k]))
    && (forall k, x :: 0 <= k < |blocks| && x in blocks[k] ==> x !in seen)
    && (forall x :: x in linked && x !in seen ==> exists k :: 0 <= k < |blocks| && x in blocks[k])
    && (forall k :: 0 <= k < |blocks| ==> blocks[k] != [] && blocks[k][0] in hubs)
    && (forall j, k :: 0 <= j < k < |blocks| ==> Precedes(blocks[j], blocks[k]))
  }

  /** Disjoint blocks, the one with the lesser least member first. */
  ghost predicate Precedes(a: seq<Id>, b: seq<Id>) {
    a != [] && b != [] && a[0] < b[0] && forall x :: x in a ==> x !in b
  }

  lemma {:induction false} VisitIs(linked: Links, hubs: seq<Id>, seen: set<Id>)
    requires Symmetric(linked) && Closed(linked, seen) && Ascending(hubs)
    requires forall h :: h in hubs ==> h in linked
    requires forall x :: x in linked && x !in seen ==> x in hubs
    ensures ComponentBlocks(linked, Visit(linked, hubs, seen), hubs, seen)
    decreases |hubs|
  {
    if hubs != [] {
      var h, rest := hubs[0], hubs[1..];
      assert hubs == [h] + rest;
      assert forall x :: x in rest ==> h < x;
      if h in seen {
        VisitIs(linked, rest, seen);
      } else {
        StartIsComponent(linked, h, seen);
        var r := Search(linked, [h], seen + {h});
        assert h in r.order;
        hide IsComponent;
        hide Precedes;
        VisitIs(linked, rest, r.seen);
        VisitStep(linked, h, rest, seen, r, Visit(linked, rest, r.seen));
      }
    }
  }

  lemma VisitStep(linked: Links, h: Id, rest: seq<Id>, seen: set<Id>, r: Searched, more: seq<seq<Id>>)
    requires forall x :: x in rest ==> h < x
    requires IsComponent(linked, r.order) && r.order[0] == h && seen <= r.seen
    requires forall x :: x in r.order <==> x in r.seen && x !in seen
    requires ComponentBlocks(linked, more, rest, r.seen)
    ensures ComponentBlocks(linked, [r.order] + more, [h] + rest, seen)
  {
    var blocks := [r.order] + more;
    assert forall k :: 0 < k < |blocks| ==> blocks[k] == more[k - 1];
    forall x | x in linked && x !in seen
      ensures exists k :: 0 <= k < |blocks| && x in blocks[k]
    {
      if x in r.seen {
        assert x in blocks[0];
      } else {
        var k :| 0 <= k < |more| && x in more[k];
        assert x in blocks[k + 1];
      }
    }
    forall j, k | 0 <= j < k < |blocks|
      ensures Precedes(blocks[j], blocks[k])
    {
      assert blocks[k] == more[k - 1];
      if j > 0 {
        assert Precedes(more[j - 1], more[k - 1]);
      }
    }
  }

  // ----- the order

  /** The hub order as a function of the hub set and the links alone. */
  ghost function OrderOf(linked: Links): seq<Id>
    requires Symmetric(linked)
  {
    Flatten(Visit(linked, Sorted(linked.Keys), {}))
  }

  lemma OrderBlocks(linked: Links) returns (blocks: seq<seq<Id>>)
    requires Symmetric(linked)
    ensures OrderOf(linked) == Flatten(blocks)
    ensures ComponentBlocks(linked, blocks, Sorted(linked.Keys), {})
    ensures Closed(linked, {}) && (forall h :: h in Sorted(linked.Keys) ==> h in linked)
    ensures blocks == Visit(linked, Sorted(linked.Keys), {})
  {
    hide Sorted, Ascending, ComponentBlocks, Visit, Flatten, Symmetric, Closed;
    StartOfOrder(linked);
    VisitIs(linked, Sorted(linked.Keys), {});
    blocks := Visit(linked, Sorted(linked.Keys), {});
  }

  lemma StartOfOrder(linked: Links)
    ensures Closed(linked, {}) && Ascending(Sorted(linked.Keys))
    ensures forall x :: x in Sorted(linked.Keys) <==> x in linked
  {
    hide Sorted, Ascending;
    assert forall x :: x in Sorted(linked.Keys) <==> x in SetOf(Sorted(linked.Keys));
  }

  lemma {:induction false} FlattenIs(blocks: seq<seq<Id>>)
    requires forall k :: 0 <= k < |blocks| ==> Distinct(blocks[k])
    requires forall j, k :: 0 <= j < k < |blocks| ==> Precedes(blocks[j], blocks[k])
    ensures Distinct(Flatten(blocks))
    ensures forall x :: x in Flatten(blocks) <==> exists k :: 0 <= k < |blocks| && x in blocks[k]
  {
    if blocks != [] {
      var rest := blocks[1..];
      forall j, k | 0 <= j < k < |rest|
        ensures Precedes(rest[j], rest[k])
      {
        assert Precedes(blocks[j + 1], blocks[k + 1]);
      }
      FlattenIs(rest);
      var head, tail := blocks[0], Flatten(rest);
      assert forall k :: 0 <= k < |rest| ==> rest[k] == blocks[k + 1];
      forall x
        ensures x in Flatten(blocks) <==> exists k :: 0 <= k < |blocks| && x in blocks[k]
      {
        if k :| 0 <= k < |blocks| && x in blocks[k] {
          assert k > 0 ==> x in rest[k - 1];
        }
        if x in tail {
          var k :| 0 <= k < |rest| && x in rest[k];
          assert x in blocks[k + 1];
        }
      }
      forall x | x in head
        ensures x !in tail
      {
        assert forall k :: 0 <= k < |rest| ==> rest[k] == blocks[k + 1] && Precedes(head, rest[k]);
      }
      DistinctConcat(head, tail);
    }
  }

  lemma DistinctConcat(a: seq<Id>, b: seq<Id>)
    requires Distinct(a) && Distinct(b) && forall x :: x in a ==> x !in b
    ensures Distinct(a + b)
  {
    forall i, j | 0 <= i < j < |a + b|
      ensures (a + b)[i] != (a + b)[j]
    {
      if i < |a| <= j {
        assert a[i] in a && b[j - |a|] in b;
      }
    }
  }

  /** Every hub once, and nothing else. */
  lemma OrderIsPermutation(linked: Links)
    requires Symmetric(linked)
    ensures Distinct(OrderOf(linked))
    ensures forall x :: x in OrderOf(linked) <==> x in linked
  {
    hide ComponentBlocks;
    hide OrderOf;
    hide Sorted;
    hide Symmetric;
    hide Flatten;
    hide Precedes;
    hide Distinct;
    var blocks := OrderBlocks(linked);
    BlocksCover(linked, blocks);
    FlattenIs(blocks);
  }

  lemma BlocksCover(linked: Links, blocks: seq<seq<Id>>)
    requires ComponentBlocks(linked, blocks, Sorted(linked.Keys), {})
    ensures forall k :: 0 <= k < |blocks| ==> Distinct(blocks[k])
    ensures forall j, k :: 0 <= j < k < |blocks| ==> Precedes(blocks[j], blocks[k])
    ensures forall x :: x in linked <==> exists k :: 0 <= k < |blocks| && x in blocks[k]
  {
    hide Connected;
    hide Sorted;
    forall k | 0 <= k < |blocks|
      ensures Distinct(blocks[k]) && forall x :: x in blocks[k] ==> x in linked
    {
      assert IsComponent(linked, blocks[k]);
    }
    hide Distinct;
    hide IsComponent;
    hide Precedes;
  }

  // ----- the imperative form

  /** Link every two hubs of an event's group. */
  method BuildLinks(edges: seq<(Id, Id)>, hubs: set<Id>) returns (linked: Links)
    ensures LinksOf(linked, edges, hubs)
  {
    var groups: map<Id, seq<Id>> := map[];
    for i := 0 to |edges|
      invariant forall e, h :: (e in groups && h in groups[e]) <==> (e, h) in edges[..i] && h in hubs
    {
      var (source, target) := edges[i];
      assert edges[..i + 1] == edges[..i] + [(source, target)];
      if target in hubs {
        groups := groups[source := (if source in groups then groups[source] else []) + [target]];
      }
    }
    assert edges[..|edges|] == edges;
    linked := map h | h in hubs :: {};
    var left := groups.Keys;
    while left != {}
      invariant left <= groups.Keys && linked.Keys == hubs
      invariant forall a, b :: a in hubs ==> (b in linked[a] <==> Grouped(groups, groups.Keys - left, a, b))
      decreases left
    {
      var e := PickFrom(left);
      GroupedMore(groups, groups.Keys - left, e);
      linked := LinkGroup(linked, groups[e]);
      assert groups.Keys - (left - {e}) == groups.Keys - left + {e};
      left := left - {e};
    }
    forall a, b | a in hubs
      ensures b in linked[a] <==> Share(edges, hubs, a, b)
    {
      if Share(edges, hubs, a, b) {
        var e :| (e, a) in edges && (e, b) in edges;
        assert e in groups && a in groups[e] && b in groups[e];
      }
    }
  }

  /** Two hubs meet in one of the given groups. */
  ghost predicate Grouped(groups: map<Id, seq<Id>>, events: set<Id>, a: Id, b: Id) {
    a != b && exists e :: e in events && e in groups && a in groups[e] && b in groups[e]
  }

  lemma GroupedMore(groups: map<Id, seq<Id>>, events: set<Id>, e: Id)
    requires e in groups
    ensures forall a, b :: Grouped(groups, events + {e}, a, b) <==>
      Grouped(groups, events, a, b) || (a in groups[e] && b in Partners(a, groups[e]))
  {
    forall a, b
      ensures Grouped(groups, events + {e}, a, b) <==>
        Grouped(groups, events, a, b) || (a in groups[e] && b in Partners(a, groups[e]))
    {
      if a in groups[e] && b in groups[e] && a != b {
        assert e in events + {e};
      }
      if Grouped(groups, events, a, b) {
        var f :| f in events && f in groups && a in groups[f] && b in groups[f];
        assert f in events + {e};
      }
    }
  }

  ghost function Partners(a: Id, group: seq<Id>): (out: set<Id>)
    ensures forall b :: b in out <==> b in group && b != a
  {
    set b | b in group && b != a
  }

  method AddPartners(before: set<Id>, a: Id, group: seq<Id>) returns (row: set<Id>)
    ensures row == before + Partners(a, group)
  {
    row := before;
    for j := 0 to |group|
      invariant row == before + Partners(a, group[..j])
    {
      assert group[..j + 1] == group[..j] + [group[j]];
      if a != group[j] {
        row := row + {group[j]};
      }
    }
    assert group[..|group|] == group;
  }

  method LinkGroup(before: Links, group: seq<Id>) returns (linked: Links)
    requires forall h :: h in group ==> h in before
    ensures linked.Keys == before.Keys
    ensures forall a :: a in before ==> linked[a] == before[a] + if a in group then Partners(a, group) else {}
  {
    linked := before;
    for i := 0 to |group|
      invariant linked.Keys == before.Keys
      invariant forall a :: a in before ==> linked[a] == before[a] + if a in group[..i] then Partners(a, group) else {}
    {
      assert group[..i + 1] == group[..i] + [group[i]];
      var h := group[i];
      assert h in group && h in linked;
      var row := AddPartners(linked[h], h, group);
      linked := linked[h := row];
    }
    assert group[..|group|] == group;
  }

  /** One breadth-first search, queue and seen set updated in place. */
  method SearchFrom(linked: Links, start: Id, before: set<Id>) returns (order: seq<Id>, seen: set<Id>)
    requires Symmetric(linked) && before <= linked.Keys && start in linked
    ensures Searched(order, seen) == Search(linked, [start], before + {start})
  {
    hide Search, Work, Symmetric, Sorted, Ascending, Unseen;
    seen := before + {start};
    order := [];
    var queue := [start];
    ghost var goal := Search(linked, [start], seen);
    NothingBefore(goal);
    while queue != []
      invariant QueueOk(linked, queue, seen)
      invariant goal == After(order, Search(linked, queue, seen))
      decreases Work(linked, queue, seen)
    {
      WorkShrinks(linked, queue, seen);
      SearchStep(linked, queue, seen, order);
      var current := queue[0];
      assert current in queue;
      var neighbours := SortSet(linked[current]);
      queue, seen := Enqueue(neighbours, queue[1..], seen);
      order := order + [current];
    }
    SearchEnds(linked, seen, order);
  }

  ghost function After(order: seq<Id>, rest: Searched): Searched {
    Searched(order + rest.order, rest.seen)
  }

  lemma NothingBefore(r: Searched)
    ensures After([], r) == r
  {
    assert [] + r.order == r.order;
  }

  lemma SearchEnds(linked: Links, seen: set<Id>, order: seq<Id>)
    requires QueueOk(linked, [], seen)
    ensures After(order, Search(linked, [], seen)) == Searched(order, seen)
  {
    assert order + [] == order;
  }

  lemma SearchStep(linked: Links, queue: seq<Id>, seen: set<Id>, order: seq<Id>)
    requires queue != [] && QueueOk(linked, queue, seen)
    requires QueueOk(linked, queue[1..] + Discovered(linked, queue[0], seen), seen + SetOf(Discovered(linked, queue[0], seen)))
    ensures After(order, Search(linked, queue, seen))
         == After(order + [queue[0]], Search(linked, queue[1..] + Discovered(linked, queue[0], seen), seen + SetOf(Discovered(linked, queue[0], seen))))
  {
    assert queue[0] in linked by { assert queue[0] in queue; }
    hide Discovered, QueueOk, Work;
    var found := Discovered(linked, queue[0], seen);
    var rest := Search(linked, queue[1..] + found, seen + SetOf(found));
    assert order + ([queue[0]] + rest.order) == order + [queue[0]] + rest.order;
  }

  /** Append the unseen neighbours and mark them. */
  method Enqueue(neighbours: seq<Id>, queueBefore: seq<Id>, seenBefore: set<Id>) returns (queue: seq<Id>, seen: set<Id>)
    requires Ascending(neighbours)
    ensures queue == queueBefore + Unseen(neighbours, seenBefore)
    ensures seen == seenBefore + SetOf(Unseen(neighbours, seenBefore))
  {
    queue, seen := queueBefore, seenBefore;
    for i := 0 to |neighbours|
      invariant queue == queueBefore + Unseen(neighbours[..i], seenBefore)
      invariant seen == seenBefore + SetOf(Unseen(neighbours[..i], seenBefore))
    {
      assert neighbours[..i + 1][..i] == neighbours[..i];
      NotYetFound(neighbours, i, seenBefore);
      if neighbours[i] !in seen {
        seen := seen + {neighbours[i]};
        queue := queue + [neighbours[i]];
      }
    }
    assert neighbours[..|neighbours|] == neighbours;
  }

  lemma NotYetFound(neighbours: seq<Id>, i: nat, seen: set<Id>)
    requires Ascending(neighbours) && i < |neighbours|
    ensures neighbours[i] !in Unseen(neighbours[..i], seen)
  {
    UnseenIs(neighbours[..i], seen);
  }

  /** Hub ids in order; nothing but the hub set and the shared events decides it. */
  method ClusterIds(hubs: set<Id>, edges: seq<(Id, Id)>) returns (ordered: seq<Id>)
    ensures ordered == OrderOf(LinksFor(edges, hubs))
  {
    hide Symmetric;
    hide LinksOf;
    hide Visit;
    hide Search;
    hide Closed;
    hide Flatten;
    hide OrderOf;
    hide Sorted;
    hide Ascending;
    hide LinksFor;
    var links := BuildLinks(edges, hubs);
    ghost var linked := links;
    LinksAreSymmetric(linked, edges, hubs);
    LinksUnique(linked, LinksFor(edges, hubs), edges, edges, hubs);
    var sorted := SortSet(hubs);
    NothingSeen(linked);
    var seen: set<Id> := {};
    ordered := [];
    for i := 0 to |sorted|
      invariant Closed(linked, seen) && seen <= linked.Keys && forall h :: h in sorted ==> h in linked
      invariant OrderOf(linked) == ordered + Flatten(Visit(linked, sorted[i..], seen))
    {
      var h := sorted[i];
      ghost var rest := sorted[i..];
      assert rest[0] == h && rest[1..] == sorted[i + 1..] && forall x :: x in rest ==> x in sorted;
      ordered, seen := VisitHub(links, h, rest, ordered, seen);
    }
    assert sorted[|sorted|..] == [];
    VisitNothing(linked, seen);
    assert ordered + [] == ordered;
  }

  /** One turn of the outer loop. */
  method VisitHub(linked: Links, h: Id, ghost rest: seq<Id>, before: seq<Id>, seenBefore: set<Id>) returns (ordered: seq<Id>, seen: set<Id>)
    requires Symmetric(linked) && Closed(linked, seenBefore) && seenBefore <= linked.Keys
    requires rest != [] && rest[0] == h && forall x :: x in rest ==> x in linked
    ensures Closed(linked, seen) && seen <= linked.Keys
    ensures before + Flatten(Visit(linked, rest, seenBefore)) == ordered + Flatten(Visit(linked, rest[1..], seen))
  {
    hide Symmetric;
    hide Visit;
    hide Search;
    hide Closed;
    hide Flatten;
    hide QueueOk;
    assert h in rest;
    VisitUnfolds(linked, rest, seenBefore);
    ordered, seen := before, seenBefore;
    if h !in seen {
      var order;
      order, seen := SearchFrom(linked, h, seenBefore);
      ghost var later := Flatten(Visit(linked, rest[1..], seen));
      assert before + (order + later) == before + order + later;
      ordered := before + order;
    }
  }

  lemma NothingSeen(linked: Links)
    requires Symmetric(linked)
    ensures forall h :: h in Sorted(linked.Keys) ==> h in linked
    ensures Closed(linked, {}) && OrderOf(linked) == [] + Flatten(Visit(linked, Sorted(linked.Keys)[0..], {}))
  {
    assert forall h :: h in Sorted(linked.Keys) ==> h in SetOf(Sorted(linked.Keys));
  }

  lemma VisitNothing(linked: Links, seen: set<Id>)
    requires Symmetric(linked) && Closed(linked, seen)
    ensures Flatten(Visit(linked, [], seen)) == []
  {
  }

  lemma VisitUnfolds(linked: Links, hubs: seq<Id>, seen: set<Id>)
    requires Symmetric(linked) && Closed(linked, seen) && forall h :: h in hubs ==> h in linked
    requires hubs != []
    ensures hubs[0] in seen ==> Visit(linked, hubs, seen) == Visit(linked, hubs[1..], seen)
    ensures hubs[0] !in seen ==>
              && QueueOk(linked, [hubs[0]], seen + {hubs[0]})
              && var r := Search(linked, [hubs[0]], seen + {hubs[0]});
                 && Closed(linked, r.seen) && r.seen <= linked.Keys
                 && Flatten(Visit(linked, hubs, seen)) == r.order + Flatten(Visit(linked, hubs[1..], r.seen))
  {
    if hubs[0] !in seen {
      ConnectedSelf(linked, hubs[0]);
      SearchIs(linked, [hubs[0]], seen + {hubs[0]}, hubs[0]);
      var r := Search(linked, [hubs[0]], seen + {hubs[0]});
      var blocks := Visit(linked, hubs, seen);
      assert blocks == [r.order] + Visit(linked, hubs[1..], r.seen);
      assert blocks[1..] == Visit(linked, hubs[1..], r.seen);
    }
  }

  function HubIds(nodes: seq<LayoutNode>): set<Id> {
    set n | n in nodes && n.isHub :: n.nodeId
  }

  /** The last hub with the id, which is what a dictionary keyed by id keeps. */
  function LastHub(nodes: seq<LayoutNode>, id: Id): (found: Option<LayoutNode>)
    ensures found.Some? <==> id in HubIds(nodes)
    ensures found.Some? ==> found.value in nodes && found.value.isHub && found.value.nodeId == id
  {
    if nodes == [] then None
    else
      var n := nodes[|nodes| - 1];
      assert nodes == nodes[..|nodes| - 1] + [n];
      if n.isHub && n.nodeId == id then Some(n) else LastHub(nodes[..|nodes| - 1], id)
  }

  lemma OrderHoldsHubs(edges: seq<(Id, Id)>, hubs: set<Id>)
    ensures forall x :: x in OrderOf(LinksFor(edges, hubs)) <==> x in hubs
  {
    hide OrderOf, Symmetric;
    var linked := LinksFor(edges, hubs);
    assert linked.Keys == hubs;
    OrderIsPermutation(linked);
  }

  /** The hubs themselves, each found again by its id. */
  method Order(nodes: seq<LayoutNode>, edges: seq<(Id, Id)>) returns (ordered: seq<LayoutNode>)
    ensures |ordered| == |OrderOf(LinksFor(edges, HubIds(nodes)))|
    ensures forall k :: 0 <= k < |ordered| ==> Some(ordered[k]) == LastHub(nodes, OrderOf(LinksFor(edges, HubIds(nodes)))[k])
  {
    hide LinksFor, OrderOf;
    var hubs := HubIds(nodes);
    var ids := ClusterIds(hubs, edges);
    OrderHoldsHubs(edges, hubs);
    hide HubIds;
    var byId: map<Id, LayoutNode> := map[];
    for i := 0 to |nodes|
      invariant forall id :: id in byId <==> LastHub(nodes[..i], id).Some?
      invariant forall id :: id in byId ==> LastHub(nodes[..i], id) == Some(byId[id])
    {
      assert nodes[..i + 1][..i] == nodes[..i];
      if nodes[i].isHub {
        byId := byId[nodes[i].nodeId := nodes[i]];
      }
    }
    assert nodes[..|nodes|] == nodes;
    forall id | id in ids
      ensures id in byId
    {
      assert LastHub(nodes, id).Some?;
    }
    ordered := seq(|ids|, k requires 0 <= k < |ids| => byId[ids[k]]);
  }

  // ----- the theorem

  /** The block a position of the flattened sequence falls in. */
  ghost function BlockOf(blocks: seq<seq<Id>>, i: nat): (k: nat)
    requires i < |Flatten(blocks)|
    ensures k < |blocks| && Flatten(blocks)[i] in blocks[k]
  {
    if i < |blocks[0]| then 0 else BlockOf(blocks[1..], i - |blocks[0]|) + 1
  }

  lemma {:induction false} BlocksAscend(blocks: seq<seq<Id>>, i: nat, j: nat)
    requires i <= j < |Flatten(blocks)|
    ensures BlockOf(blocks, i) <= BlockOf(blocks, j)
  {
    if i >= |blocks[0]| {
      BlocksAscend(blocks[1..], i - |blocks[0]|, j - |blocks[0]|);
    }
  }

  lemma MemberOfComponent(linked: Links, block: seq<Id>, x: Id, y: Id)
    requires IsComponent(linked, block) && x in block && y in linked
    ensures x in linked && (y in block <==> Connected(linked, x, y))
    ensures block[0] in linked && Connected(linked, x, block[0]) && (y in block ==> block[0] <= y)
  {
    assert block[0] in block;
  }

  lemma TwoBlocks(linked: Links, blocks: seq<seq<Id>>, hubs: seq<Id>, a: nat, b: nat)
    requires ComponentBlocks(linked, blocks, hubs, {}) && a < |blocks| && b < |blocks|
    ensures IsComponent(linked, blocks[a]) && IsComponent(linked, blocks[b])
    ensures a < b ==> Precedes(blocks[a], blocks[b])
  {
  }

  /** Two positions hold hubs of one component exactly when they fall in one block. */
  lemma SameBlock(linked: Links, blocks: seq<seq<Id>>, hubs: seq<Id>, i: nat, j: nat)
    requires ComponentBlocks(linked, blocks, hubs, {}) && i <= j < |Flatten(blocks)|
    ensures Connected(linked, Flatten(blocks)[i], Flatten(blocks)[j]) <==> BlockOf(blocks, i) == BlockOf(blocks, j)
  {
    var a, b := BlockOf(blocks, i), BlockOf(blocks, j);
    var x, y := Flatten(blocks)[i], Flatten(blocks)[j];
    BlocksAscend(blocks, i, j);
    TwoBlocks(linked, blocks, hubs, a, b);
    hide ComponentBlocks;
    assert x in blocks[a] && y in blocks[b];
    MemberOfComponent(linked, blocks[b], y, y);
    MemberOfComponent(linked, blocks[a], x, y);
  }

  /** Two hubs of one component have only hubs of that component between them. */
  lemma ComponentsAreContiguous(linked: Links, i: nat, j: nat, k: nat)
    requires Symmetric(linked) && i <= j <= k < |OrderOf(linked)|
    requires Connected(linked, OrderOf(linked)[i], OrderOf(linked)[k])
    ensures Connected(linked, OrderOf(linked)[i], OrderOf(linked)[j])
  {
    hide Connected;
    hide ComponentBlocks;
    hide IsComponent;
    hide OrderOf;
    hide Sorted;
    hide Symmetric;
    var blocks := OrderBlocks(linked);
    BlocksAscend(blocks, i, j);
    BlocksAscend(blocks, j, k);
    SameBlock(linked, blocks, Sorted(linked.Keys), i, k);
    SameBlock(linked, blocks, Sorted(linked.Keys), i, j);
  }

  /** Components come in the order of their least members. */
  lemma ComponentsByLeast(linked: Links, i: nat, j: nat) returns (least: Id)
    requires Symmetric(linked) && i < j < |OrderOf(linked)|
    requires !Connected(linked, OrderOf(linked)[i], OrderOf(linked)[j])
    ensures Connected(linked, OrderOf(linked)[i], least)
    ensures forall x :: x in linked && Connected(linked, OrderOf(linked)[j], x) ==> least < x
  {
    hide ComponentBlocks;
    hide Connected;
    hide IsComponent;
    hide OrderOf;
    hide Sorted;
    hide Symmetric;
    var blocks := OrderBlocks(linked);
    var a, b := BlockOf(blocks, i), BlockOf(blocks, j);
    BlocksAscend(blocks, i, j);
    SameBlock(linked, blocks, Sorted(linked.Keys), i, j);
    TwoBlocks(linked, blocks, Sorted(linked.Keys), a, b);
    var x, y := Flatten(blocks)[i], Flatten(blocks)[j];
    InLinked(linked, blocks[a], x);
    MemberOfComponent(linked, blocks[a], x, x);
    least := blocks[a][0];
    forall z | z in linked && Connected(linked, y, z)
      ensures least < z
    {
      MemberOfComponent(linked, blocks[b], y, z);
    }
  }

  lemma InLinked(linked: Links, block: seq<Id>, x: Id)
    requires IsComponent(linked, block) && x in block
    ensures x in linked
  {
  }

  /** The same nodes and edges, in whatever order and however often they are listed, give the same order. */
  lemma OrderIgnoresInputOrder(nodes: seq<LayoutNode>, others: seq<LayoutNode>, edges: seq<(Id, Id)>, otherEdges: seq<(Id, Id)>)
    requires forall n :: n in nodes <==> n in others
    requires forall e :: e in edges <==> e in otherEdges
    ensures OrderOf(LinksFor(edges, HubIds(nodes))) == OrderOf(LinksFor(otherEdges, HubIds(others)))
  {
    assert HubIds(nodes) == HubIds(others);
    LinksUnique(LinksFor(edges, HubIds(nodes)), LinksFor(otherEdges, HubIds(others)), edges, otherEdges, HubIds(nodes));
  }
}
