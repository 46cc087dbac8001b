/**
 * One rolling index: a deque of observations plus per-token counters that are
 * kept up to date incrementally (src/riskloom/features/state.py).
 *
 * The counters are specified by `Agrees`: they are what counting the retained
 * entries would give.  `AgreesUnique` shows that this leaves no freedom, so a
 * state with the same retained observations is the same state.
 */
module RollingIndexes {
  import opened Common

  type Token = string

  datatype Relation = Instruments | Devices | Networks | Sessions | Merchants

  /** What one event contributes to one index. Times are milliseconds. */
  datatype Entry = Entry(occurredAt: int, primary: Token, failed: bool, relations: map<Relation, Option<Token>>)

  datatype Observation = Observation(entry: Entry, previousLast: Option<int>)

  datatype Aggregate = Aggregate(attempts: nat, failures: nat, relationCounts: map<Relation, map<Token, nat>>, last: int)

  datatype Snapshot = Snapshot(attempts: nat, failures: nat, distinct: map<Relation, nat>, last: Option<int>)

  const EMPTY_SNAPSHOT := Snapshot(0, 0, map[], None)

  datatype IndexError =
    | TransactionInconsistent
    | CounterInconsistent
    | RelationCounterInconsistent
    | TerminalCounterInconsistent
    | PreviousTimestampMissing

  // ----- counting by scanning entries

  /** What is being counted for a token. */
  datatype Query = Attempt | Failure | Related(relation: Relation, token: Token)

  predicate Hits(q: Query, e: Entry) {
    match q
    case Attempt => true
    case Failure => e.failed
    case Related(r, token) => r in e.relations && e.relations[r] == Some(token)
  }

  function One(q: Query, t: Token, e: Entry): nat {
    if e.primary == t && Hits(q, e) then 1 else 0
  }

  function Tally(q: Query, t: Token, entries: seq<Entry>): nat {
    if entries == [] then 0 else One(q, t, entries[0]) + Tally(q, t, entries[1..])
  }

  lemma {:induction false} TallyConcat(q: Query, t: Token, a: seq<Entry>, b: seq<Entry>)
    ensures Tally(q, t, a + b) == Tally(q, t, a) + Tally(q, t, b)
  {
    if a == [] {
      assert a + b == b;
    } else {
      assert (a + b)[1..] == a[1..] + b;
      TallyConcat(q, t, a[1..], b);
    }
  }

  lemma {:induction false} TallyAtMostAttempts(q: Query, t: Token, entries: seq<Entry>)
    ensures Tally(q, t, entries) <= Tally(Attempt, t, entries)
  {
    if entries != [] {
      TallyAtMostAttempts(q, t, entries[1..]);
    }
  }

  lemma {:induction false} TallyPositive(q: Query, t: Token, entries: seq<Entry>)
    ensures Tally(q, t, entries) > 0 <==> exists i :: 0 <= i < |entries| && entries[i].primary == t && Hits(q, entries[i])
  {
    if entries != [] {
      var rest := entries[1..];
      TallyPositive(q, t, rest);
      if Tally(q, t, rest) > 0 {
        var i :| 0 <= i < |rest| && rest[i].primary == t && Hits(q, rest[i]);
        assert entries[i + 1] == rest[i];
      }
      if i :| 0 <= i < |entries| && entries[i].primary == t && Hits(q, entries[i]) {
        if i > 0 {
          assert rest[i - 1] == entries[i];
        }
      }
    }
  }

  /** The time of the last entry for a token. */
  function LastOf(t: Token, entries: seq<Entry>): Option<int> {
    if entries == [] then None
    else if entries[|entries| - 1].primary == t then Some(entries[|entries| - 1].occurredAt)
    else LastOf(t, entries[..|entries| - 1])
  }

  lemma {:induction false} LastOfConcat(t: Token, a: seq<Entry>, b: seq<Entry>)
    ensures LastOf(t, a + b) == if LastOf(t, b).Some? then LastOf(t, b) else LastOf(t, a)
  {
    if b == [] {
      assert a + b == a;
    } else {
      assert (a + b)[..|a + b| - 1] == a + b[..|b| - 1];
      LastOfConcat(t, a, b[..|b| - 1]);
    }
  }

  lemma {:induction false} LastOfSome(t: Token, entries: seq<Entry>)
    ensures LastOf(t, entries).Some? <==> Tally(Attempt, t, entries) > 0
    ensures LastOf(t, entries).Some? ==>
      exists i :: 0 <= i < |entries| && entries[i].primary == t && entries[i].occurredAt == LastOf(t, entries).value
  {
    if entries != [] {
      var n := |entries| - 1;
      assert entries == entries[..n] + [entries[n]];
      TallyConcat(Attempt, t, entries[..n], [entries[n]]);
      assert Tally(Attempt, t, [entries[n]]) == One(Attempt, t, entries[n]);
      LastOfSome(t, entries[..n]);
      if entries[n].primary != t && LastOf(t, entries).Some? {
        var i :| 0 <= i < n && entries[..n][i].primary == t && entries[..n][i].occurredAt == LastOf(t, entries).value;
        assert entries[i] == entries[..n][i];
      }
    }
  }

  // ----- what the incremental state must equal

  ghost predicate CountsAgree(counts: map<Token, nat>, r: Relation, t: Token, entries: seq<Entry>) {
    && (forall x :: x in counts <==> Tally(Related(r, x), t, entries) > 0)
    && (forall x :: x in counts ==> counts[x] == Tally(Related(r, x), t, entries))
  }

  ghost predicate AggregateAgrees(a: Aggregate, t: Token, entries: seq<Entry>, names: seq<Relation>) {
    && a.attempts == Tally(Attempt, t, entries)
    && a.failures == Tally(Failure, t, entries)
    && Some(a.last) == LastOf(t, entries)
    && RelationsAgree(a.relationCounts, t, entries, names)
  }

  ghost predicate RelationsAgree(counts: map<Relation, map<Token, nat>>, t: Token, entries: seq<Entry>, names: seq<Relation>) {
    && counts.Keys == (set r | r in names)
    && forall r :: r in names ==> CountsAgree(counts[r], r, t, entries)
  }

  ghost predicate Agrees(aggregates: map<Token, Aggregate>, entries: seq<Entry>, names: seq<Relation>) {
    forall t: Token ::
      && (t in aggregates <==> Tally(Attempt, t, entries) > 0)
      && (t in aggregates ==> AggregateAgrees(aggregates[t], t, entries, names))
  }

  lemma AggregateUnique(a: Aggregate, b: Aggregate, t: Token, entries: seq<Entry>, names: seq<Relation>)
    requires AggregateAgrees(a, t, entries, names) && AggregateAgrees(b, t, entries, names)
    ensures a == b
  {
    forall r | r in names
      ensures a.relationCounts[r] == b.relationCounts[r]
    {
      var m, n := a.relationCounts[r], b.relationCounts[r];
      assert CountsAgree(m, r, t, entries) && CountsAgree(n, r, t, entries);
      assert forall x :: x in m <==> x in n;
    }
    assert a.relationCounts == b.relationCounts;
  }

  /** The counters carry no information beyond the retained entries. */
  lemma AgreesUnique(a: map<Token, Aggregate>, b: map<Token, Aggregate>, entries: seq<Entry>, names: seq<Relation>)
    requires Agrees(a, entries, names) && Agrees(b, entries, names)
    ensures a == b
  {
    assert a.Keys == b.Keys by {
      forall t
        ensures t in a <==> t in b
      {
      }
    }
    forall t | t in a
      ensures a[t] == b[t]
    {
      AggregateUnique(a[t], b[t], t, entries, names);
    }
  }

  /** What a scan of the entries reports for a token. */
  ghost function DistinctTokens(r: Relation, t: Token, entries: seq<Entry>): set<Token> {
    set i | 0 <= i < |entries| && entries[i].primary == t && r in entries[i].relations && entries[i].relations[r].Some?
      :: entries[i].relations[r].value
  }

  ghost function ScanSnapshot(t: Option<Token>, entries: seq<Entry>, names: seq<Relation>): Snapshot {
    if t.None? || LastOf(t.value, entries).None? then EMPTY_SNAPSHOT
    else Snapshot(
           Tally(Attempt, t.value, entries),
           Tally(Failure, t.value, entries),
           map r | r in names :: |DistinctTokens(r, t.value, entries)|,
           LastOf(t.value, entries))
  }

  lemma CountsKeys(counts: map<Token, nat>, r: Relation, t: Token, entries: seq<Entry>)
    requires CountsAgree(counts, r, t, entries)
    ensures counts.Keys == DistinctTokens(r, t, entries)
  {
    forall x
      ensures x in counts <==> x in DistinctTokens(r, t, entries)
    {
      TallyPositive(Related(r, x), t, entries);
    }
  }

  /** The number of live counters is the number of different tokens. */
  lemma SnapshotAgrees(a: Aggregate, t: Token, entries: seq<Entry>, names: seq<Relation>)
    requires AggregateAgrees(a, t, entries, names)
    ensures Snapshot(a.attempts, a.failures, map r | r in names :: |a.relationCounts[r]|, Some(a.last))
         == ScanSnapshot(Some(t), entries, names)
  {
    forall r | r in names
      ensures |a.relationCounts[r]| == |DistinctTokens(r, t, entries)|
    {
      CountsKeys(a.relationCounts[r], r, t, entries);
      assert |a.relationCounts[r]| == |a.relationCounts[r].Keys|;
    }
  }

  // ----- the deque

  ghost function Entries(observations: seq<Observation>): (entries: seq<Entry>)
    ensures |entries| == |observations|
    ensures forall i :: 0 <= i < |entries| ==> entries[i] == observations[i].entry
  {
    seq(|observations|, i requires 0 <= i < |observations| => observations[i].entry)
  }

  lemma EntriesConcat(a: seq<Observation>, b: seq<Observation>)
    ensures Entries(a + b) == Entries(a) + Entries(b)
  {
  }

  ghost predicate Sorted(entries: seq<Entry>) {
    forall i, j :: 0 <= i < j < |entries| ==> entries[i].occurredAt <= entries[j].occurredAt
  }

  ghost predicate Shaped(entries: seq<Entry>, names: seq<Relation>) {
    forall e :: e in entries ==> e.relations.Keys == (set r | r in names)
  }

  /** Each observation remembers the last time of its token, as far as that token is still retained. */
  ghost predicate Linked(observations: seq<Observation>) {
    forall i :: 0 <= i < |observations| ==> LinkedAt(observations[..i], observations[i])
  }

  ghost predicate LinkedAt(before: seq<Observation>, o: Observation) {
    var last := LastOf(o.entry.primary, Entries(before));
    last.Some? ==> o.previousLast == last
  }

  ghost predicate WellFormed(observations: seq<Observation>, names: seq<Relation>) {
    && Sorted(Entries(observations))
    && Shaped(Entries(observations), names)
    && Linked(observations)
  }

  lemma LinkedSuffix(a: seq<Observation>, b: seq<Observation>)
    requires Linked(a + b)
    ensures Linked(a) && Linked(b)
  {
    forall i | 0 <= i < |a|
      ensures LinkedAt(a[..i], a[i])
    {
      assert (a + b)[..i] == a[..i] && (a + b)[i] == a[i];
    }
    forall i | 0 <= i < |b|
      ensures LinkedAt(b[..i], b[i])
    {
      assert (a + b)[..|a| + i] == a + b[..i] && (a + b)[|a| + i] == b[i];
      EntriesConcat(a, b[..i]);
      LastOfConcat(b[i].entry.primary, Entries(a), Entries(b[..i]));
    }
  }

  lemma LinkedAppend(a: seq<Observation>, o: Observation)
    requires Linked(a) && LinkedAt(a, o)
    ensures Linked(a + [o])
  {
    forall i | 0 <= i < |a + [o]|
      ensures LinkedAt((a + [o])[..i], (a + [o])[i])
    {
      if i < |a| {
        assert (a + [o])[..i] == a[..i];
      } else {
        assert (a + [o])[..i] == a;
      }
    }
  }

  lemma WellFormedSplit(a: seq<Observation>, b: seq<Observation>, names: seq<Relation>)
    requires WellFormed(a + b, names)
    ensures WellFormed(a, names) && WellFormed(b, names)
  {
    LinkedSuffix(a, b);
    SortedShapedSplit(Entries(a), Entries(b), names) by {
      EntriesConcat(a, b);
    }
  }

  lemma SortedShapedSplit(a: seq<Entry>, b: seq<Entry>, names: seq<Relation>)
    requires Sorted(a + b) && Shaped(a + b, names)
    ensures Sorted(a) && Sorted(b) && Shaped(a, names) && Shaped(b, names)
  {
    assert forall i :: 0 <= i < |a| ==> (a + b)[i] == a[i];
    assert forall i :: 0 <= i < |b| ==> (a + b)[|a| + i] == b[i];
  }

  // ----- one entry more, one entry less

  lemma TallyInserted(q: Query, t: Token, a: seq<Entry>, e: Entry, b: seq<Entry>)
    ensures Tally(q, t, a + [e] + b) == One(q, t, e) + Tally(q, t, a + b)
  {
    TallyConcat(q, t, a + [e], b);
    TallyConcat(q, t, a, [e]);
    TallyConcat(q, t, a, b);
    assert Tally(q, t, [e]) == One(q, t, e);
  }

  lemma LastOfInserted(t: Token, a: seq<Entry>, e: Entry, b: seq<Entry>)
    ensures LastOf(t, a + [e] + b)
         == if LastOf(t, b).Some? then LastOf(t, b)
            else if e.primary == t then Some(e.occurredAt)
            else LastOf(t, a)
    ensures LastOf(t, a + b) == if LastOf(t, b).Some? then LastOf(t, b) else LastOf(t, a)
  {
    LastOfConcat(t, a + [e], b);
    LastOfConcat(t, a, [e]);
    LastOfConcat(t, a, b);
    assert [e][..0] == [];
  }

  /** Tokens other than the entry's own are untouched. */
  lemma OthersAgree(x: Aggregate, t: Token, a: seq<Entry>, e: Entry, b: seq<Entry>, names: seq<Relation>)
    requires e.primary != t
    ensures AggregateAgrees(x, t, a + [e] + b, names) <==> AggregateAgrees(x, t, a + b, names)
  {
    forall q
      ensures Tally(q, t, a + [e] + b) == Tally(q, t, a + b)
    {
      TallyInserted(q, t, a, e, b);
    }
    LastOfInserted(t, a, e, b);
    forall r, m
      ensures CountsAgree(m, r, t, a + [e] + b) <==> CountsAgree(m, r, t, a + b)
    {
    }
  }

  /** `large` is `small` with one more reference to the token, if there is one. */
  predicate CountedOnce(small: map<Token, nat>, token: Option<Token>, large: map<Token, nat>) {
    match token
    case None => large == small
    case Some(x) =>
      && x in large
      && large[x] == (if x in small then small[x] else 0) + 1
      && (x in small ==> small[x] > 0)
      && large.Keys == small.Keys + {x}
      && forall y :: y in small && y != x ==> large[y] == small[y]
  }

  /** A counter moves by exactly the token the entry carries in that relation. */
  lemma CountsInserted(r: Relation, a: seq<Entry>, e: Entry, b: seq<Entry>, small: map<Token, nat>, large: map<Token, nat>)
    requires r in e.relations && CountedOnce(small, e.relations[r], large)
    ensures CountsAgree(small, r, e.primary, a + b) <==> CountsAgree(large, r, e.primary, a + [e] + b)
  {
    forall x
      ensures Tally(Related(r, x), e.primary, a + [e] + b)
           == Tally(Related(r, x), e.primary, a + b) + if e.relations[r] == Some(x) then 1 else 0
    {
      TallyInserted(Related(r, x), e.primary, a, e, b);
    }
    match e.relations[r]
    case None =>
    case Some(x) =>
      assert forall y :: y in small || y == x <==> y in large;
  }

  /** An unseen token has empty counters. */
  lemma UnseenAgrees(t: Token, entries: seq<Entry>)
    requires Tally(Attempt, t, entries) == 0
    ensures Tally(Failure, t, entries) == 0
    ensures forall r, m :: CountsAgree(m, r, t, entries) <==> m == map[]
    ensures LastOf(t, entries).None?
  {
    LastOfSome(t, entries);
    forall q
      ensures Tally(q, t, entries) == 0
    {
      TallyAtMostAttempts(q, t, entries);
    }
    forall r, m | CountsAgree(m, r, t, entries)
      ensures m == map[]
    {
      assert forall x :: x !in m;
    }
  }

  lemma AgreesAfterAdd(before: map<Token, Aggregate>, x: Aggregate, a: seq<Entry>, e: Entry, b: seq<Entry>, names: seq<Relation>)
    requires Agrees(before, a + b, names)
    requires AggregateAgrees(x, e.primary, a + [e] + b, names)
    ensures Agrees(before[e.primary := x], a + [e] + b, names)
  {
    forall t: Token
      ensures t in before[e.primary := x] <==> Tally(Attempt, t, a + [e] + b) > 0
      ensures t in before && t != e.primary ==> AggregateAgrees(before[t], t, a + [e] + b, names)
    {
      TallyInserted(Attempt, t, a, e, b);
      if t in before && t != e.primary {
        OthersAgree(before[t], t, a, e, b, names);
      }
    }
  }

  /** `None` when the last reference goes away. */
  lemma AgreesAfterRemove(before: map<Token, Aggregate>, x: Option<Aggregate>, a: seq<Entry>, e: Entry, b: seq<Entry>, names: seq<Relation>)
    requires Agrees(before, a + [e] + b, names)
    requires x.Some? <==> Tally(Attempt, e.primary, a + b) > 0
    requires x.Some? ==> AggregateAgrees(x.value, e.primary, a + b, names)
    ensures Agrees(if x.Some? then before[e.primary := x.value] else before - {e.primary}, a + b, names)
  {
    forall t: Token
      ensures t != e.primary ==> (t in before <==> Tally(Attempt, t, a + b) > 0)
      ensures t in before && t != e.primary ==> AggregateAgrees(before[t], t, a + b, names)
    {
      TallyInserted(Attempt, t, a, e, b);
      if t in before && t != e.primary {
        OthersAgree(before[t], t, a, e, b, names);
      }
    }
  }

  lemma SortedLast(t: Token, a: seq<Entry>, e: Entry, b: seq<Entry>)
    requires Sorted(a + [e] + b)
    ensures LastOf(t, a).Some? ==> LastOf(t, a).value <= e.occurredAt
    ensures LastOf(t, b).Some? ==> e.occurredAt <= LastOf(t, b).value
  {
    var whole := a + [e] + b;
    LastOfSome(t, a);
    LastOfSome(t, b);
    if LastOf(t, a).Some? {
      var i :| 0 <= i < |a| && a[i].primary == t && a[i].occurredAt == LastOf(t, a).value;
      assert whole[i] == a[i] && whole[|a|] == e;
    }
    if LastOf(t, b).Some? {
      var i :| 0 <= i < |b| && b[i].primary == t && b[i].occurredAt == LastOf(t, b).value;
      assert whole[|a|] == e && whole[|a| + 1 + i] == b[i];
    }
  }

  lemma HeadSplit(observations: seq<Observation>, names: seq<Relation>)
    requires observations != [] && WellFormed(observations, names)
    ensures WellFormed(observations[1..], names)
    ensures observations[0].entry.relations.Keys == set r | r in names
  {
    hide Sorted, Linked;
    WellFormedSplit([observations[0]], observations[1..], names) by {
      assert [observations[0]] + observations[1..] == observations;
    }
    assert Entries(observations)[0] in Entries(observations);
  }

  lemma EntriesHead(observations: seq<Observation>)
    requires observations != []
    ensures Entries(observations) == [] + [observations[0].entry] + Entries(observations[1..])
    ensures Entries(observations[1..]) == [] + Entries(observations[1..])
  {
    var all, rest := Entries(observations), Entries(observations[1..]);
    var head := [observations[0].entry];
    assert all[0] == observations[0].entry;
    assert all[1..] == rest;
    assert all == [all[0]] + all[1..];
    assert [] + head == head;
  }

  lemma HeadIsEarliest(observations: seq<Observation>)
    requires Sorted(Entries(observations))
    ensures forall o :: o in observations ==> observations[0].entry.occurredAt <= o.entry.occurredAt
  {
    forall o | o in observations
      ensures observations[0].entry.occurredAt <= o.entry.occurredAt
    {
      var i :| 0 <= i < |observations| && observations[i] == o;
      assert Entries(observations)[i] == o.entry && Entries(observations)[0] == observations[0].entry;
    }
  }

  ghost predicate AllUpTo(observations: seq<Observation>, cutoff: int) {
    forall o :: o in observations ==> o.entry.occurredAt <= cutoff
  }

  lemma NoneUpTo(cutoff: int)
    ensures AllUpTo([], cutoff)
  {
  }

  lemma OneMoreUpTo(observations: seq<Observation>, o: Observation, cutoff: int)
    requires AllUpTo(observations, cutoff) && o.entry.occurredAt <= cutoff
    ensures AllUpTo(observations + [o], cutoff)
  {
  }

  lemma HeadMoves<T>(all: seq<T>, front: seq<T>, back: seq<T>)
    requires all == front + back && back != []
    ensures all == front + [back[0]] + back[1..]
  {
  }

  lemma SplitAtCutoff(front: seq<Observation>, back: seq<Observation>, names: seq<Relation>, cutoff: int)
    requires AllUpTo(front, cutoff) && WellFormed(back, names)
    requires back != [] ==> cutoff < back[0].entry.occurredAt
    ensures forall o :: o in front ==> o.entry.occurredAt <= cutoff
    ensures forall o :: o in back ==> cutoff < o.entry.occurredAt
  {
    if back != [] {
      HeadIsEarliest(back);
    }
  }

  /** The last-seen time in the counters is the link a new observation needs. */
  lemma PreviousIsLinked(aggregates: map<Token, Aggregate>, observations: seq<Observation>, o: Observation, names: seq<Relation>)
    requires Agrees(aggregates, Entries(observations), names)
    requires o.previousLast == if o.entry.primary in aggregates then Some(aggregates[o.entry.primary].last) else None
    ensures LinkedAt(observations, o)
  {
    LastOfSome(o.entry.primary, Entries(observations));
  }

  lemma WellFormedAppend(observations: seq<Observation>, o: Observation, names: seq<Relation>)
    requires WellFormed(observations, names) && LinkedAt(observations, o)
    requires forall e :: e in Entries(observations) ==> e.occurredAt <= o.entry.occurredAt
    requires o.entry.relations.Keys == set r | r in names
    ensures WellFormed(observations + [o], names)
    ensures Entries(observations + [o]) == Entries(observations) + [o.entry]
    ensures Sorted(Entries(observations) + [o.entry] + [])
  {
    LinkedAppend(observations, o);
    EntriesConcat(observations, [o]);
    assert Entries([o]) == [o.entry];
    var all := Entries(observations) + [o.entry];
    assert all + [] == all;
    assert forall i :: 0 <= i < |observations| ==> all[i] in Entries(observations);
  }

  lemma SortedMiddleDropped(a: seq<Entry>, b: seq<Entry>, c: seq<Entry>, names: seq<Relation>)
    requires Sorted(a + b + c) && Shaped(a + b + c, names)
    ensures Sorted(a + c) && Shaped(a + c, names)
  {
    var whole, kept := a + b + c, a + c;
    forall i, j | 0 <= i < j < |kept|
      ensures kept[i].occurredAt <= kept[j].occurredAt
    {
      var x := if i < |a| then i else i + |b|;
      var y := if j < |a| then j else j + |b|;
      assert whole[x] == kept[i] && whole[y] == kept[j];
    }
  }

  function MakeEntry(occurredAt: int, primary: Token, failed: bool, relations: map<Relation, Option<Token>>, names: seq<Relation>): Entry {
    Entry(occurredAt, primary, failed, map r | r in names :: if r in relations then relations[r] else None)
  }

  function Counted(small: map<Token, nat>, token: Option<Token>): (large: map<Token, nat>)
    requires forall x :: x in small ==> small[x] > 0
    ensures CountedOnce(small, token, large)
  {
    match token
    case None => small
    case Some(x) => small[x := (if x in small then small[x] else 0) + 1]
  }

  lemma PositiveCounts(counts: map<Token, nat>, r: Relation, t: Token, entries: seq<Entry>)
    requires CountsAgree(counts, r, t, entries)
    ensures forall x :: x in counts ==> counts[x] > 0
  {
  }

  /** The relations before `i` count the entries `done`, the others still `todo`. */
  ghost predicate Progress(counts: map<Relation, map<Token, nat>>, names: seq<Relation>, i: nat, t: Token, done: seq<Entry>, todo: seq<Entry>) {
    && i <= |names|
    && counts.Keys == (set r | r in names)
    && (forall k :: 0 <= k < i ==> CountsAgree(counts[names[k]], names[k], t, done))
    && (forall k :: i <= k < |names| ==> CountsAgree(counts[names[k]], names[k], t, todo))
  }

  lemma ProgressStarts(counts: map<Relation, map<Token, nat>>, names: seq<Relation>, t: Token, done: seq<Entry>, todo: seq<Entry>)
    ensures RelationsAgree(counts, t, todo, names) ==> Progress(counts, names, 0, t, done, todo)
    ensures Progress(counts, names, |names|, t, done, todo) ==> RelationsAgree(counts, t, done, names)
  {
    hide CountsAgree;
  }

  lemma ProgressStep(counts: map<Relation, map<Token, nat>>, names: seq<Relation>, i: nat, t: Token, done: seq<Entry>, todo: seq<Entry>,
                     x: map<Token, nat>)
    requires Distinct(names) && i < |names| && Progress(counts, names, i, t, done, todo)
    requires CountsAgree(x, names[i], t, done)
    ensures Progress(counts[names[i] := x], names, i + 1, t, done, todo)
  {
    hide CountsAgree;
  }

  /** Count the tokens of one entry, relation by relation. */
  method CountRelations(before: map<Relation, map<Token, nat>>, e: Entry, names: seq<Relation>, ghost a: seq<Entry>, ghost b: seq<Entry>)
    returns (counts: map<Relation, map<Token, nat>>)
    requires Distinct(names) && e.relations.Keys == set r | r in names
    requires RelationsAgree(before, e.primary, a + b, names)
    ensures RelationsAgree(counts, e.primary, a + [e] + b, names)
  {
    hide CountsAgree, CountedOnce, RelationsAgree, Distinct;
    counts := before;
    ghost var done, todo := a + [e] + b, a + b;
    ProgressStarts(counts, names, e.primary, done, todo);
    for i := 0 to |names|
      invariant Progress(counts, names, i, e.primary, done, todo)
    {
      var r := names[i];
      var small := counts[r];
      PositiveCounts(small, r, e.primary, todo);
      var large := Counted(small, e.relations[r]);
      CountsInserted(r, a, e, b, small, large);
      ProgressStep(counts, names, i, e.primary, done, todo, large);
      counts := counts[r := large];
    }
    ProgressStarts(counts, names, e.primary, done, todo);
  }

  function Uncounted(large: map<Token, nat>, x: Token): (small: map<Token, nat>)
    requires x in large && large[x] > 0
    ensures CountedOnce(small, Some(x), large)
  {
    if large[x] == 1 then large - {x} else large[x := large[x] - 1]
  }

  /** The counter of a token that an entry carries is positive while the entry is retained. */
  lemma CarriedIsCounted(large: map<Token, nat>, r: Relation, a: seq<Entry>, e: Entry, b: seq<Entry>)
    requires r in e.relations && CountsAgree(large, r, e.primary, a + [e] + b)
    ensures e.relations[r].Some? ==> e.relations[r].value in large && large[e.relations[r].value] > 0
    ensures e.relations[r].None? ==> CountedOnce(large, None, large)
  {
    if e.relations[r].Some? {
      TallyInserted(Related(r, e.relations[r].value), e.primary, a, e, b);
    }
  }

  /** The inverse: a counter that reaches zero is removed. */
  method UncountRelations(before: map<Relation, map<Token, nat>>, e: Entry, names: seq<Relation>, ghost a: seq<Entry>, ghost b: seq<Entry>)
    returns (consistent: bool, counts: map<Relation, map<Token, nat>>)
    requires Distinct(names) && e.relations.Keys == set r | r in names
    requires RelationsAgree(before, e.primary, a + [e] + b, names)
    ensures consistent && RelationsAgree(counts, e.primary, a + b, names)
  {
    hide CountsAgree, CountedOnce, RelationsAgree, Distinct;
    consistent, counts := true, before;
    ghost var done, todo := a + b, a + [e] + b;
    ProgressStarts(counts, names, e.primary, done, todo);
    for i := 0 to |names|
      invariant Progress(counts, names, i, e.primary, done, todo)
    {
      var name := names[i];
      var large := counts[name];
      CarriedIsCounted(large, name, a, e, b);
      var small := large;
      match e.relations[name] {
        case None =>
        case Some(x) =>
          if x !in large || large[x] <= 0 {
            return false, counts;
          }
          small := Uncounted(large, x);
      }
      CountsInserted(name, a, e, b, small, large);
      ProgressStep(counts, names, i, e.primary, done, todo, small);
      counts := counts[name := small];
    }
    ProgressStarts(counts, names, e.primary, done, todo);
  }

  class RollingIndex {
    const windowSeconds: nat
    const names: seq<Relation>
    var observations: seq<Observation>
    var aggregates: map<Token, Aggregate>
    var peakObservations: nat
    var peakEntities: nat

    ghost predicate Valid()
      reads this
    {
      && Distinct(names)
      && WellFormed(observations, names)
      && Agrees(aggregates, Entries(observations), names)
    }

    constructor (windowSeconds: nat, names: seq<Relation>)
      requires Distinct(names)
      ensures Valid() && this.windowSeconds == windowSeconds && this.names == names
      ensures observations == [] && aggregates == map[] && peakObservations == 0 && peakEntities == 0
    {
      this.windowSeconds, this.names := windowSeconds, names;
      observations, aggregates := [], map[];
      peakObservations, peakEntities := 0, 0;
    }

    /** Count one more entry; `keepLatest` is the restoring form, which never moves a last-seen time back. */
    method AddAggregateReference(e: Entry, keepLatest: bool, ghost a: seq<Entry>, ghost b: seq<Entry>)
      requires Distinct(names) && Agrees(aggregates, a + b, names)
      requires e.relations.Keys == set r | r in names
      requires Sorted(a + [e] + b)
      requires !keepLatest ==> b == []
      modifies this`aggregates
      ensures Agrees(aggregates, a + [e] + b, names)
    {
      var t := e.primary;
      var aggregate := if t in aggregates then aggregates[t]
                       else Aggregate(0, 0, map r | r in names :: map[], e.occurredAt);
      if t !in aggregates {
        UnseenAgrees(t, a + b);
      }
      var counts := CountRelations(aggregate.relationCounts, e, names, a, b);
      var updated := Aggregate(
        aggregate.attempts + 1,
        aggregate.failures + (if e.failed then 1 else 0),
        counts,
        if keepLatest then Max(aggregate.last, e.occurredAt) else e.occurredAt);
      TallyInserted(Attempt, t, a, e, b);
      TallyInserted(Failure, t, a, e, b);
      LastOfInserted(t, a, e, b);
      SortedLast(t, a, e, b);
      AgreesAfterAdd(aggregates, updated, a, e, b, names);
      aggregates := aggregates[t := updated];
    }

    /**
     * Count one entry less.  The consistency errors of the source are kept as
     * results; the contract says that on agreeing counters none of them is returned.
     */
    method RemoveAggregateReference(o: Observation, restorePreviousLast: bool, ghost a: seq<Entry>, ghost b: seq<Entry>)
      returns (r: Result<(), IndexError>)
      requires Distinct(names) && Agrees(aggregates, a + [o.entry] + b, names)
      requires o.entry.relations.Keys == set r | r in names
      requires if restorePreviousLast then b == [] && (LastOf(o.entry.primary, a).Some? ==> o.previousLast == LastOf(o.entry.primary, a))
               else a == []
      modifies this`aggregates
      ensures r.Ok? && Agrees(aggregates, a + b, names)
    {
      ghost var e := o.entry;
      var t := o.entry.primary;
      TallyInserted(Attempt, t, a, e, b);
      TallyInserted(Failure, t, a, e, b);
      var aggregate := aggregates[t];
      if aggregate.attempts <= 0 || (o.entry.failed && aggregate.failures <= 0) {
        return Err(CounterInconsistent);
      }
      var consistent, counts := UncountRelations(aggregate.relationCounts, o.entry, names, a, b);
      if !consistent {
        return Err(RelationCounterInconsistent);
      }
      var attempts := aggregate.attempts - 1;
      var failures := aggregate.failures - (if o.entry.failed then 1 else 0);
      LastOfInserted(t, a, e, b);
      LastOfSome(t, a + b);
      if attempts == 0 {
        UnseenAgrees(t, a + b);
        if failures != 0 || exists r | r in counts :: counts[r] != map[] {
          return Err(TerminalCounterInconsistent);
        }
        AgreesAfterRemove(aggregates, None, a, e, b, names);
        aggregates := aggregates - {t};
      } else if restorePreviousLast {
        if o.previousLast.None? {
          return Err(PreviousTimestampMissing);
        }
        var updated := Aggregate(attempts, failures, counts, o.previousLast.value);
        AgreesAfterRemove(aggregates, Some(updated), a, e, b, names);
        aggregates := aggregates[t := updated];
      } else {
        var updated := Aggregate(attempts, failures, counts, aggregate.last);
        AgreesAfterRemove(aggregates, Some(updated), a, e, b, names);
        aggregates := aggregates[t := updated];
      }
      return Ok(());
    }

    /** Drop the oldest observation. */
    method EvictFirst() returns (o: Observation)
      requires Valid() && observations != []
      modifies this`observations, this`aggregates
      ensures Valid()
      ensures o == old(observations)[0] && observations == old(observations)[1..]
    {
      hide Agrees, WellFormed, Distinct, Sorted, Tally, LastOf;
      o := observations[0];
      HeadSplit(observations, names);
      EntriesHead(observations);
      observations := observations[1..];
      var removed := RemoveAggregateReference(o, false, [], Entries(observations));
      assert removed.Ok?;
    }

    /** Drop everything at or before the cutoff. */
    method Evict(currentTime: int) returns (evicted: seq<Observation>)
      requires Valid()
      modifies this`observations, this`aggregates
      ensures Valid()
      ensures old(observations) == evicted + observations
      ensures forall o :: o in evicted ==> o.entry.occurredAt <= currentTime - windowSeconds * 1000
      ensures forall o :: o in observations ==> currentTime - windowSeconds * 1000 < o.entry.occurredAt
    {
      hide Agrees, WellFormed, Distinct, AllUpTo;
      var cutoff := currentTime - windowSeconds * 1000;
      evicted := [];
      ghost var all := observations;
      NoneUpTo(cutoff);
      while observations != [] && observations[0].entry.occurredAt <= cutoff
        invariant Valid()
        invariant all == evicted + observations
        invariant AllUpTo(evicted, cutoff)
        decreases |observations|
      {
        ghost var before := observations;
        var o := EvictFirst();
        HeadMoves(all, evicted, before);
        OneMoreUpTo(evicted, o, cutoff);
        evicted := evicted + [o];
      }
      SplitAtCutoff(evicted, observations, names, cutoff);
    }

    /** Put evicted observations back in front of what is retained. */
    method RestoreEvicted(evicted: seq<Observation>)
      requires Valid() && WellFormed(evicted + observations, names)
      modifies this`observations, this`aggregates
      ensures Valid() && observations == evicted + old(observations)
    {
      ghost var kept := Entries(observations);
      observations := evicted + observations;
      EntriesConcat(evicted, old(observations));
      ghost var back := Entries(evicted);
      assert kept == back[..0] + kept;
      var i := 0;
      while i < |evicted|
        invariant 0 <= i <= |evicted|
        invariant observations == evicted + old(observations)
        invariant Agrees(aggregates, back[..i] + kept, names)
      {
        var e := evicted[i].entry;
        assert back[..i + 1] == back[..i] + [e];
        assert e in Entries(observations);
        SortedMiddleDropped(back[..i + 1], back[i + 1..], kept, names) by {
          assert back[..i + 1] + back[i + 1..] == back;
        }
        AddAggregateReference(e, true, back[..i], kept);
        i := i + 1;
      }
      assert back[..i] == back;
    }

    method GetSnapshot(t: Option<Token>) returns (s: Snapshot)
      requires Valid()
      ensures s == ScanSnapshot(t, Entries(observations), names)
    {
      if t.None? || t.value !in aggregates {
        if t.Some? {
          LastOfSome(t.value, Entries(observations));
        }
        return EMPTY_SNAPSHOT;
      }
      var aggregate := aggregates[t.value];
      SnapshotAgrees(aggregate, t.value, Entries(observations), names);
      s := Snapshot(
        aggregate.attempts,
        aggregate.failures,
        map r | r in names :: |aggregate.relationCounts[r]|,
        Some(aggregate.last));
    }

    /** An event without the primary token leaves the index alone. */
    method Observe(occurredAt: int, primary: Option<Token>, failed: bool, relations: map<Relation, Option<Token>>)
      requires Valid()
      requires forall e :: e in Entries(observations) ==> e.occurredAt <= occurredAt
      modifies this`observations, this`aggregates
      ensures Valid()
      ensures primary.None? ==> observations == old(observations) && aggregates == old(aggregates)
      ensures primary.Some? ==>
                && |observations| == |old(observations)| + 1
                && observations[..|old(observations)|] == old(observations)
                && observations[|old(observations)|].entry == MakeEntry(occurredAt, primary.value, failed, relations, names)
    {
      hide Agrees, WellFormed, Sorted, LinkedAt, Distinct;
      if primary.None? {
        return;
      }
      var t := primary.value;
      var e := MakeEntry(occurredAt, t, failed, relations, names);
      var previousLast := if t in aggregates then Some(aggregates[t].last) else None;
      var o := Observation(e, previousLast);
      ghost var before := Entries(observations);
      PreviousIsLinked(aggregates, observations, o, names);
      WellFormedAppend(observations, o, names);
      assert before + [e] + [] == before + [e] && before + [] == before;
      observations := observations + [o];
      AddAggregateReference(e, false, before, []);
    }

    /** Undo at most one observation. */
    method RollbackToObservationCount(previousCount: nat) returns (r: Result<(), IndexError>)
      requires Valid()
      modifies this`observations, this`aggregates
      ensures Valid()
      ensures r.Ok? <==> previousCount <= |old(observations)| <= previousCount + 1
      ensures observations == if r.Ok? then old(observations)[..previousCount] else old(observations)
    {
      if |observations| == previousCount {
        return Ok(());
      }
      if |observations| != previousCount + 1 {
        return Err(TransactionInconsistent);
      }
      var o, rest := observations[previousCount], observations[..previousCount];
      WellFormedSplit(rest, [o], names) by {
        assert rest + [o] == observations;
      }
      assert Entries(observations) == Entries(rest) + [o.entry] + [];
      assert Entries(rest) == Entries(rest) + [];
      assert o.entry in Entries(observations);
      assert LinkedAt(observations[..previousCount], observations[previousCount]);
      observations := rest;
      r := RemoveAggregateReference(o, true, Entries(rest), []);
    }

    method CommitDiagnostics()
      modifies this`peakObservations, this`peakEntities
      ensures peakObservations == Max(old(peakObservations), |observations|)
      ensures peakEntities == Max(old(peakEntities), |aggregates|)
    {
      peakObservations := Max(peakObservations, |observations|);
      peakEntities := Max(peakEntities, |aggregates|);
    }
  }
}
