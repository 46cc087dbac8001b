/**
 * The pieces that the generator of campaign windows and their checker share,
 * spelled out in times and counts (src/riskloom/simulation/generation.py,
 * src/riskloom/simulation/validation.py, src/riskloom/simulation/config.py).
 */
module CampaignMeaning {
  import opened Common
  import opened Sorting
  import opened CampaignPlacement

  /** The boundary is that share of the split's length after its start, down to the millisecond. */
  lemma BoundaryIsShare(s: Split)
    ensures var length, share := s.durationDays * 86_400_000, Boundary(s) - s.start;
            && End(s) == s.start + length
            && 10_000 * share <= length * s.placement.boundaryBasisPoints < 10_000 * (share + 1)
  {
    var product := Duration(s) * s.placement.boundaryBasisPoints;
    assert product == 10_000 * (product / 10_000) + product % 10_000;
  }

  /** A drawn window lasts the drawn minutes, starts within its side, and ends within it. */
  lemma CandidateMeans(s: Split, d: Draws, c: nat, attempt: nat)
    requires Validated(s) && InRange(d, s)
    ensures Available(s, OnBeforeSide(d.sides, s.placement.before, c), DrawnDuration(d, c)) >= 0
    ensures var w := Candidate(s, d, c, attempt);
            var before := c in d.sides[..s.placement.before];
            var first, last := if before then s.start else Boundary(s), (if before then Boundary(s) else End(s)) - w.duration;
            && w.duration == d.minutes(c) * 60_000
            && w.start == first + d.offset(c, attempt, last - first + 1)
            && first <= w.start <= last
  {
    RoomIsNeverNegative(s, d, c);
  }

  /** No start on the side is left out: each is what some offset in range gives. */
  lemma EveryStartIsDrawn(s: Split, d: Draws, c: nat, attempt: nat, start: int) returns (more: Draws)
    requires Validated(s) && InRange(d, s)
    requires var before := c in d.sides[..s.placement.before];
             (if before then s.start else Boundary(s)) <= start
             && start + d.minutes(c) * 60_000 <= if before then Boundary(s) else End(s)
    ensures InRange(more, s) && more.sides == d.sides && more.minutes == d.minutes
    ensures Available(s, OnBeforeSide(more.sides, s.placement.before, c), DrawnDuration(more, c)) >= 0
    ensures Candidate(s, more, c, attempt).start == start
  {
    RoomIsNeverNegative(s, d, c);
    var first := MinimumStart(s, OnBeforeSide(d.sides, s.placement.before, c));
    var offset := start - first;
    more := d.(offset := (c, a, bound) => if offset < bound then offset else 0);
    RoomIsNeverNegative(s, more, c);
  }

  /** A window fits when it ends a gap before, or starts a gap after, each accepted one. */
  lemma FitsMeans(w: Window, accepted: seq<Window>, gap: int)
    ensures Fits(w, accepted, gap) <==>
            forall i :: 0 <= i < |accepted| ==>
              || w.start + w.duration + gap <= accepted[i].start
              || accepted[i].start + accepted[i].duration + gap <= w.start
  {
  }

  lemma GapIsSeconds(s: Split)
    ensures GapMs(s) == 1000 * s.placement.gapSeconds
  {
  }

  /** More than one gap, and all of them equal: the windows in order of their starts stand at regular distances. */
  lemma RegularMeans(ws: seq<Window>)
    ensures var es := SortEnvelopes(WindowEnvelopes(ws));
            && |es| == |ws|
            && (forall e: Envelope :: e in es <==> exists i :: 0 <= i < |ws| && e == (ws[i].start, ws[i].start + ws[i].duration))
            && (forall i, j :: 0 <= i < j < |es| ==> es[i].0 <= es[j].0)
            && (RegularGaps(ws) <==>
                  && |ws| > 2
                  && forall i, j :: 0 <= i < j < |ws| - 1 ==> GapAfter(es, i) == GapAfter(es, j))
  {
    var es := SortEnvelopes(WindowEnvelopes(ws));
    forall e
      ensures e in es <==> exists i :: 0 <= i < |ws| && e == (ws[i].start, ws[i].start + ws[i].duration)
    {
      EnvelopeIs(ws, e);
    }
    GapsRegular(es);
    hide SortEnvelopes, WindowEnvelopes, Gaps, TooRegular;
  }

  lemma EnvelopeIs(ws: seq<Window>, e: Envelope)
    ensures e in WindowEnvelopes(ws) <==> exists i :: 0 <= i < |ws| && e == (ws[i].start, ws[i].start + ws[i].duration)
  {
    var envelopes := WindowEnvelopes(ws);
    if e in envelopes {
      var i :| 0 <= i < |envelopes| && envelopes[i] == e;
      assert e == (ws[i].start, ws[i].start + ws[i].duration);
    }
    if i :| 0 <= i < |ws| && e == (ws[i].start, ws[i].start + ws[i].duration) {
      assert envelopes[i] == e;
    }
  }

  /** From the end of one envelope to the start of the next. */
  function GapAfter(es: seq<Envelope>, i: nat): int
    requires i + 1 < |es|
  {
    es[i + 1].0 - es[i].1
  }

  lemma GapsRegular(es: seq<Envelope>)
    ensures TooRegular(Gaps(es)) <==>
              |es| > 2 && forall i, j :: 0 <= i < j < |es| - 1 ==> GapAfter(es, i) == GapAfter(es, j)
  {
    var gaps := Gaps(es);
    assert forall i :: 0 <= i < |gaps| ==> gaps[i] == GapAfter(es, i);
    hide Gaps, GapAfter;
    assert AllEqual(gaps) <==> forall i, j :: 0 <= i < j < |gaps| ==> gaps[i] == gaps[j];
  }

  /** A group is fine when it has its quota and lies on one side of the boundary, which belongs to the later side. */
  lemma GroupOkMeans(g: seq<int>, quota: int, boundary: int)
    ensures GroupOk(g, quota, boundary) <==>
            |g| == quota && g != [] && ((forall t :: t in g ==> t < boundary) || (forall t :: t in g ==> boundary <= t))
  {
  }

  /** The count before the boundary is of the groups all of whose events are. */
  lemma {:induction false} CountBeforeMeans(groups: seq<seq<int>>, boundary: int)
    requires NoneEmpty(groups)
    ensures CountBefore(groups, boundary) == |set i: nat | i < |groups| && AllBefore(groups[i], boundary)|
  {
    if groups != [] {
      var n := |groups| - 1;
      CountBeforeMeans(groups[..n], boundary);
      var m := set i: nat | i < n && AllBefore(groups[..n][i], boundary);
      assert Before(groups[n], boundary) <==> AllBefore(groups[n], boundary);
      assert (set i: nat | i < |groups| && AllBefore(groups[i], boundary)) == if AllBefore(groups[n], boundary) then m + {n} else m;
    }
  }

  predicate AllBefore(g: seq<int>, boundary: int) {
    forall t :: t in g ==> t < boundary
  }
}
