/**
 * What the incremental indexes stand for: a scan of the whole event history
 * over a left-exclusive window (now - w, now].
 */
module FeatureScan {
  import opened Common
  import opened RollingIndexes
  import opened FeatureStates

  predicate InWindow(spec: IndexSpec, now: int, e: Event) {
    now - spec.seconds * 1000 < e.occurredAt <= now
  }

  /** The entries of the in-window events that carry the index's token, in history order. */
  ghost function Retained(spec: IndexSpec, now: int, history: seq<Event>): seq<Entry> {
    if history == [] then []
    else
      var e := history[|history| - 1];
      Retained(spec, now, history[..|history| - 1]) +
      match EntryOf(spec, e)
      case None => []
      case Some(x) => if InWindow(spec, now, e) then [x] else []
  }

  ghost function Snap(spec: IndexSpec, history: seq<Event>, e: Event): Snapshot {
    ScanSnapshot(PrimaryOf(spec.family, e), Retained(spec, e.occurredAt, history), spec.names)
  }

  ghost predicate NoneAfter(history: seq<Event>, now: int) {
    forall e :: e in history ==> e.occurredAt <= now
  }

  ghost predicate KeyBefore(a: Event, b: Event) {
    a.occurredAt < b.occurredAt || (a.occurredAt == b.occurredAt && a.id < b.id)
  }

  ghost predicate Ordered(history: seq<Event>) {
    forall i, j :: 0 <= i < j < |history| ==> KeyBefore(history[i], history[j])
  }

  // ----- counting events instead of entries

  /** The events a counter counts, picked straight from the history. */
  ghost function Matching(q: Query, t: Token, spec: IndexSpec, now: int, history: seq<Event>): set<nat> {
    set i: nat | i < |history| && Counted(q, t, spec, now, history[i])
  }

  predicate Counted(q: Query, t: Token, spec: IndexSpec, now: int, e: Event) {
    && InWindow(spec, now, e)
    && match EntryOf(spec, e)
       case None => false
       case Some(x) => x.primary == t && Hits(q, x)
  }

  lemma TallyOneMore(q: Query, t: Token, spec: IndexSpec, now: int, before: seq<Event>, e: Event)
    ensures Tally(q, t, Retained(spec, now, before + [e]))
         == Tally(q, t, Retained(spec, now, before)) + if Counted(q, t, spec, now, e) then 1 else 0
  {
    assert (before + [e])[..|before|] == before;
    var kept := Retained(spec, now, before);
    assert kept + [] == kept;
    if x :| EntryOf(spec, e) == Some(x) {
      TallyConcat(q, t, kept, [x]);
      assert Tally(q, t, [x]) == One(q, t, x);
    }
  }

  lemma MatchingOneMore(q: Query, t: Token, spec: IndexSpec, now: int, before: seq<Event>, e: Event)
    ensures |Matching(q, t, spec, now, before + [e])|
         == |Matching(q, t, spec, now, before)| + if Counted(q, t, spec, now, e) then 1 else 0
  {
    hide Counted;
    var m := Matching(q, t, spec, now, before);
    assert forall i :: 0 <= i < |before| ==> (before + [e])[i] == before[i];
    assert Matching(q, t, spec, now, before + [e]) == if Counted(q, t, spec, now, e) then m + {|before|} else m;
  }

  /** A counter over the retained entries is the number of matching events of the whole history. */
  lemma {:induction false} TallyIsEventCount(q: Query, t: Token, spec: IndexSpec, now: int, history: seq<Event>)
    ensures Tally(q, t, Retained(spec, now, history)) == |Matching(q, t, spec, now, history)|
  {
    if history != [] {
      var n := |history| - 1;
      TallyIsEventCount(q, t, spec, now, history[..n]);
      assert history[..n] + [history[n]] == history;
      TallyOneMore(q, t, spec, now, history[..n], history[n]);
      MatchingOneMore(q, t, spec, now, history[..n], history[n]);
    }
  }

  /** Every retained entry comes from an in-window event, and every such event is retained. */
  lemma {:induction false} RetainedFrom(spec: IndexSpec, now: int, history: seq<Event>, x: Entry)
    ensures x in Retained(spec, now, history) <==>
            exists i :: 0 <= i < |history| && InWindow(spec, now, history[i]) && EntryOf(spec, history[i]) == Some(x)
  {
    if history != [] {
      var n := |history| - 1;
      RetainedFrom(spec, now, history[..n], x);
      if i :| 0 <= i < n && InWindow(spec, now, history[..n][i]) && EntryOf(spec, history[..n][i]) == Some(x) {
        assert history[i] == history[..n][i];
      }
      if i :| 0 <= i < |history| && InWindow(spec, now, history[i]) && EntryOf(spec, history[i]) == Some(x) {
        if i < n {
          assert history[i] == history[..n][i];
        }
      }
    }
  }

  /** The tokens seen beside `t` in relation `r`, picked straight from the history. */
  ghost function TokensSeen(r: Relation, t: Token, spec: IndexSpec, now: int, history: seq<Event>): set<Token> {
    set i: nat, x | i < |history| && x in TokensOf(r, t, spec, now, history[i]) :: x
  }

  function TokensOf(r: Relation, t: Token, spec: IndexSpec, now: int, e: Event): set<Token> {
    match EntryOf(spec, e)
    case None => {}
    case Some(x) =>
      if Counted(Attempt, t, spec, now, e) && r in x.relations && x.relations[r].Some? then {x.relations[r].value} else {}
  }

  lemma DistinctIsTokensSeen(r: Relation, t: Token, spec: IndexSpec, now: int, history: seq<Event>)
    ensures DistinctTokens(r, t, Retained(spec, now, history)) == TokensSeen(r, t, spec, now, history)
  {
    var entries := Retained(spec, now, history);
    forall x | x in DistinctTokens(r, t, entries)
      ensures x in TokensSeen(r, t, spec, now, history)
    {
      var k :| 0 <= k < |entries| && entries[k].primary == t && r in entries[k].relations && entries[k].relations[r] == Some(x);
      RetainedFrom(spec, now, history, entries[k]);
      var i: nat :| i < |history| && InWindow(spec, now, history[i]) && EntryOf(spec, history[i]) == Some(entries[k]);
      assert x in TokensOf(r, t, spec, now, history[i]);
    }
    forall x | x in TokensSeen(r, t, spec, now, history)
      ensures x in DistinctTokens(r, t, entries)
    {
      var i: nat :| i < |history| && x in TokensOf(r, t, spec, now, history[i]);
      var y := EntryOf(spec, history[i]).value;
      RetainedFrom(spec, now, history, y);
      var k :| 0 <= k < |entries| && entries[k] == y;
    }
  }

  /** The last-seen time is that of the latest matching event. */
  lemma {:induction false} LastIsLatestMatch(t: Token, spec: IndexSpec, now: int, history: seq<Event>)
    ensures var last := LastOf(t, Retained(spec, now, history));
            var matching := Matching(Attempt, t, spec, now, history);
            && (last.None? <==> matching == {})
            && (last.Some? ==> exists i :: i in matching && history[i].occurredAt == last.value && forall k :: k in matching ==> k <= i)
  {
    if history != [] {
      var n := |history| - 1;
      var before := history[..n];
      LastIsLatestMatch(t, spec, now, before);
      assert before + [history[n]] == history;
      var m := Matching(Attempt, t, spec, now, before);
      assert Matching(Attempt, t, spec, now, history) == if Counted(Attempt, t, spec, now, history[n]) then m + {n} else m;
      var kept := Retained(spec, now, before);
      assert kept + [] == kept;
      if x :| EntryOf(spec, history[n]) == Some(x) {
        LastOfConcat(t, kept, [x]);
        assert [x][..0] == [];
      }
      if Counted(Attempt, t, spec, now, history[n]) {
        assert n in Matching(Attempt, t, spec, now, history);
      } else if m != {} {
        var i :| i in m && before[i].occurredAt == LastOf(t, kept).value && forall k :: k in m ==> k <= i;
        assert history[i] == before[i];
      }
    }
  }

  /**
   * A snapshot read before `e` is a plain scan of the whole history over
   * the window that ends at `e`.
   */
  lemma SnapshotIsEventScan(spec: IndexSpec, history: seq<Event>, e: Event, t: Token)
    requires PrimaryOf(spec.family, e) == Some(t)
    ensures var s := Snap(spec, history, e);
            var matching := Matching(Attempt, t, spec, e.occurredAt, history);
            && s.attempts == |matching|
            && s.failures == |Matching(Failure, t, spec, e.occurredAt, history)|
            && (forall r :: r in spec.names ==>
                  (if r in s.distinct then s.distinct[r] else 0) == |TokensSeen(r, t, spec, e.occurredAt, history)|)
            && (s.last.None? <==> matching == {})
            && (s.last.Some? ==> exists i :: i in matching && history[i].occurredAt == s.last.value && forall k :: k in matching ==> k <= i)
  {
    var entries := Retained(spec, e.occurredAt, history);
    TallyIsEventCount(Attempt, t, spec, e.occurredAt, history);
    TallyIsEventCount(Failure, t, spec, e.occurredAt, history);
    LastIsLatestMatch(t, spec, e.occurredAt, history);
    LastOfSome(t, entries);
    TallyAtMostAttempts(Failure, t, entries);
    forall r | r in spec.names
      ensures |DistinctTokens(r, t, entries)| == |TokensSeen(r, t, spec, e.occurredAt, history)|
      ensures |DistinctTokens(r, t, entries)| <= Tally(Attempt, t, entries)
    {
      DistinctIsTokensSeen(r, t, spec, e.occurredAt, history);
      DistinctAtMostAttempts(r, t, entries);
    }
  }

  // ----- the window moves forward

  ghost function KeepAfter(cutoff: int, entries: seq<Entry>): seq<Entry> {
    if entries == [] then []
    else
      var x := entries[|entries| - 1];
      KeepAfter(cutoff, entries[..|entries| - 1]) + if cutoff < x.occurredAt then [x] else []
  }

  lemma {:induction false} KeepAfterSplit(cutoff: int, out: seq<Entry>, kept: seq<Entry>)
    requires forall x :: x in out ==> x.occurredAt <= cutoff
    requires forall x :: x in kept ==> cutoff < x.occurredAt
    ensures KeepAfter(cutoff, out + kept) == kept
  {
    if kept != [] {
      var n := |kept| - 1;
      assert (out + kept)[..|out + kept| - 1] == out + kept[..n];
      KeepAfterSplit(cutoff, out, kept[..n]);
    } else if out != [] {
      assert (out + kept)[..|out + kept| - 1] == out[..|out| - 1] + kept;
      KeepAfterSplit(cutoff, out[..|out| - 1], kept);
    }
  }

  /** Moving the window forward only drops entries, exactly those at or before the new cutoff. */
  lemma {:induction false} RetainedLater(spec: IndexSpec, now: int, later: int, history: seq<Event>)
    requires now <= later && NoneAfter(history, now)
    ensures Retained(spec, later, history) == KeepAfter(later - spec.seconds * 1000, Retained(spec, now, history))
  {
    if history != [] {
      var n := |history| - 1;
      RetainedLater(spec, now, later, history[..n]);
      var before := Retained(spec, now, history[..n]);
      assert before + [] == before;
      if x :| EntryOf(spec, history[n]) == Some(x) {
        assert x.occurredAt == history[n].occurredAt;
        assert (before + [x])[..|before|] == before;
      }
    }
  }

  lemma EntriesSide(observations: seq<Observation>, cutoff: int)
    ensures (forall o :: o in observations ==> o.entry.occurredAt <= cutoff)
            ==> forall x :: x in Entries(observations) ==> x.occurredAt <= cutoff
    ensures (forall o :: o in observations ==> cutoff < o.entry.occurredAt)
            ==> forall x :: x in Entries(observations) ==> cutoff < x.occurredAt
  {
    forall x | x in Entries(observations)
      ensures exists o :: o in observations && o.entry == x
    {
      var i :| 0 <= i < |observations| && Entries(observations)[i] == x;
      assert observations[i] in observations;
    }
  }

  /** What eviction leaves is what the scan at the new time retains. */
  lemma EvictionIsScan(spec: IndexSpec, now: int, later: int, history: seq<Event>, out: seq<Observation>, kept: seq<Observation>)
    requires now <= later && NoneAfter(history, now)
    requires Entries(out + kept) == Retained(spec, now, history)
    requires forall o :: o in out ==> o.entry.occurredAt <= later - spec.seconds * 1000
    requires forall o :: o in kept ==> later - spec.seconds * 1000 < o.entry.occurredAt
    ensures Entries(kept) == Retained(spec, later, history)
  {
    hide Retained, KeepAfter, NoneAfter;
    RetainedLater(spec, now, later, history);
    EntriesConcat(out, kept);
    EntriesSide(out, later - spec.seconds * 1000);
    EntriesSide(kept, later - spec.seconds * 1000);
    KeepAfterSplit(later - spec.seconds * 1000, Entries(out), Entries(kept));
  }

  // ----- comparing windows

  /** A wider window of the same family counts no less and sees no fewer tokens. */
  lemma {:induction false} WiderCountsMore(q: Query, t: Token, narrow: IndexSpec, wide: IndexSpec, now: int, history: seq<Event>)
    requires narrow.family == wide.family && narrow.names == wide.names && narrow.seconds <= wide.seconds
    ensures Tally(q, t, Retained(narrow, now, history)) <= Tally(q, t, Retained(wide, now, history))
    ensures forall x :: x in Retained(narrow, now, history) ==> x in Retained(wide, now, history)
  {
    if history != [] {
      var n := |history| - 1;
      WiderCountsMore(q, t, narrow, wide, now, history[..n]);
      var a, b := Retained(narrow, now, history[..n]), Retained(wide, now, history[..n]);
      assert a + [] == a && b + [] == b;
      if x :| EntryOf(narrow, history[n]) == Some(x) {
        TallyConcat(q, t, a, [x]);
        TallyConcat(q, t, b, [x]);
        assert EntryOf(wide, history[n]) == Some(x);
      }
    }
  }

  lemma {:induction false} DistinctAtMostAttempts(r: Relation, t: Token, entries: seq<Entry>)
    ensures |DistinctTokens(r, t, entries)| <= Tally(Attempt, t, entries)
  {
    if entries != [] {
      var head, rest := entries[0], entries[1..];
      DistinctAtMostAttempts(r, t, rest);
      var all, some := DistinctTokens(r, t, entries), DistinctTokens(r, t, rest);
      forall x | x in all
        ensures x in some || (head.primary == t && r in head.relations && head.relations[r] == Some(x))
      {
        var i :| 0 <= i < |entries| && entries[i].primary == t && r in entries[i].relations && entries[i].relations[r] == Some(x);
        if i > 0 {
          assert rest[i - 1] == entries[i];
        }
      }
      if head.primary == t && r in head.relations && head.relations[r].Some? {
        SubsetSize(all, some + {head.relations[r].value});
      } else {
        SubsetSize(all, some);
      }
    }
  }
}
