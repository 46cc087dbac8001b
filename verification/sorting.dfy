/**
 * The stable sort that several components rely on, by a relation that is
 * transitive and orders the elements at hand; it may be strict when they are
 * all different.
 */
module Sorting {

  ghost predicate Transitive<T(!new)>(before: (T, T) -> bool) {
    forall x, y, z :: before(x, y) && before(y, z) ==> before(x, z)
  }

  ghost predicate SortedBy<T>(before: (T, T) -> bool, s: seq<T>) {
    forall i, j :: 0 <= i < j < |s| ==> before(s[i], s[j])
  }

  /** The relation orders `x` against every element. */
  ghost predicate Orders<T>(before: (T, T) -> bool, s: seq<T>, x: T) {
    forall y :: y in s ==> before(x, y) || before(y, x)
  }

  ghost predicate OrdersAll<T>(before: (T, T) -> bool, s: seq<T>) {
    forall i, j :: 0 <= i < j < |s| ==> before(s[i], s[j]) || before(s[j], s[i])
  }

  lemma SortedCons<T>(before: (T, T) -> bool, x: T, rest: seq<T>)
    requires SortedBy(before, rest) && forall y :: y in rest ==> before(x, y)
    ensures SortedBy(before, [x] + rest)
  {
    assert forall i :: 0 <= i < |rest| ==> rest[i] in rest;
  }

  lemma SortedTail<T>(before: (T, T) -> bool, s: seq<T>)
    requires SortedBy(before, s) && s != []
    ensures SortedBy(before, s[1..]) && (forall y :: y in s[1..] ==> before(s[0], y)) && s == [s[0]] + s[1..]
  {
  }

  /** Insert after the elements that come before it. */
  function InsertBy<T(!new)>(before: (T, T) -> bool, s: seq<T>, x: T): (out: seq<T>)
    requires Transitive(before) && SortedBy(before, s) && Orders(before, s, x)
    ensures SortedBy(before, out) && |out| == |s| + 1
    ensures multiset(out) == multiset(s) + multiset{x}
    ensures forall y :: y in out <==> y in s || y == x
  {
    if s == [] then [x]
    else
      SortedTail(before, s);
      if before(s[0], x) then
        var rest := InsertBy(before, s[1..], x);
        SortedCons(before, s[0], rest);
        [s[0]] + rest
      else
        SortedCons(before, x, s);
        [x] + s
  }

  function SortBy<T(!new)>(before: (T, T) -> bool, s: seq<T>): (out: seq<T>)
    requires Transitive(before) && OrdersAll(before, s)
    ensures SortedBy(before, out) && |out| == |s|
    ensures multiset(out) == multiset(s)
    ensures forall y :: y in out <==> y in s
  {
    if s == [] then []
    else
      var n := |s| - 1;
      assert s == s[..n] + [s[n]];
      var rest := SortBy(before, s[..n]);
      assert Orders(before, rest, s[n]);
      InsertBy(before, rest, s[n])
  }

  lemma SortSnoc<T(!new)>(before: (T, T) -> bool, s: seq<T>, x: T)
    requires Transitive(before) && OrdersAll(before, s + [x])
    ensures OrdersAll(before, s) && Orders(before, SortBy(before, s), x)
    ensures SortBy(before, s + [x]) == InsertBy(before, SortBy(before, s), x)
  {
    var all := s + [x];
    assert forall i :: 0 <= i < |s| ==> all[i] == s[i];
    assert OrdersAll(before, s);
    forall y | y in SortBy(before, s)
      ensures before(x, y) || before(y, x)
    {
      var i :| 0 <= i < |s| && s[i] == y;
      assert all[i] == y && all[|s|] == x;
    }
    assert all[..|s|] == s;
  }
}
