/**
 * Placing campaigns around a protected boundary (src/riskloom/simulation/generation.py,
 * src/riskloom/simulation/config.py) against the independent checker
 * (src/riskloom/simulation/validation.py).  Times are milliseconds and every
 * random draw is an arbitrary in-range oracle.
 */
module CampaignPlacement {
  import opened Common
  import opened Sorting
  import Apportionment

  datatype Placement = Placement(
    boundaryBasisPoints: nat, before: nat, after: nat, gapSeconds: nat, samplingAttempts: nat)

  datatype Split = Split(start: int, durationDays: nat, campaignCount: nat, attackCount: nat, placement: Placement)

  const MAXIMUM_DURATION := 90 * 60 * 1000

  function Duration(s: Split): nat {
    s.durationDays * 86_400_000
  }

  function End(s: Split): int {
    s.start + Duration(s)
  }

  function GapMs(s: Split): nat {
    s.placement.gapSeconds * 1000
  }

  function BoundaryOffset(s: Split): nat {
    Duration(s) * s.placement.boundaryBasisPoints / 10_000
  }

  /** The timestamp both the generator and the validator derive. */
  function Boundary(s: Split): int {
    s.start + BoundaryOffset(s)
  }

  function Required(campaigns: nat, gap: nat): int {
    campaigns * MAXIMUM_DURATION + (campaigns - 1) * gap
  }

  /** What the configuration schema and its cross-field validation demand of a placed split. */
  predicate Validated(s: Split) {
    var p := s.placement;
    && 1 <= s.durationDays <= 365 && 1 <= s.campaignCount <= 10_000
    && 1 <= p.boundaryBasisPoints <= 9_999
    && 2 <= p.before <= 10_000 && 2 <= p.after <= 10_000
    && 300 <= p.gapSeconds <= 3_600 && 1 <= p.samplingAttempts <= 100_000
    && p.before + p.after == s.campaignCount
    && s.attackCount >= 2 * s.campaignCount && s.attackCount % s.campaignCount == 0
    && Required(p.before, GapMs(s)) <= BoundaryOffset(s)
    && Required(p.after, GapMs(s)) <= Duration(s) - BoundaryOffset(s)
  }

  // ----- the generator

  datatype Window = Window(start: int, duration: nat)

  function WindowEnd(w: Window): int {
    w.start + w.duration
  }

  /** In-range random draws: sides, minutes per campaign, and start offsets per attempt. */
  datatype Draws = Draws(sides: seq<nat>, minutes: nat -> nat, offset: (nat, nat, nat) -> nat)

  ghost predicate InRange(d: Draws, s: Split) {
    && |d.sides| == s.campaignCount
    && (forall i, j :: 0 <= i < j < |d.sides| ==> d.sides[i] != d.sides[j])
    && (forall i :: 0 <= i < |d.sides| ==> d.sides[i] < s.campaignCount)
    && (forall c :: 30 <= d.minutes(c) <= 90)
    && (forall c, attempt, bound: nat :: bound > 0 ==> d.offset(c, attempt, bound) < bound)
  }

  datatype PlacementError = NegativeRoom | AttemptsExhausted | Regular

  /** Far enough apart, in one order or the other. */
  predicate Apart(a: Window, b: Window, gap: int) {
    WindowEnd(a) + gap <= b.start || WindowEnd(b) + gap <= a.start
  }

  predicate OnBeforeSide(sides: seq<nat>, before: nat, c: nat) {
    c in sides[..if before <= |sides| then before else |sides|]
  }

  ghost predicate WellPlaced(w: Window, s: Split, beforeSide: bool) {
    && 0 < w.duration <= MAXIMUM_DURATION
    && if beforeSide then s.start <= w.start && WindowEnd(w) <= Boundary(s)
       else Boundary(s) <= w.start && WindowEnd(w) <= End(s)
  }

  ghost predicate AllApart(ws: seq<Window>, gap: int) {
    forall i, j :: 0 <= i < j < |ws| ==> Apart(ws[i], ws[j], gap)
  }

  /** One window per campaign, each inside its side, all of them a gap apart. */
  ghost predicate Placed(ws: seq<Window>, s: Split, d: Draws) {
    && |ws| == s.campaignCount
    && (forall c :: 0 <= c < |ws| ==> WellPlaced(ws[c], s, OnBeforeSide(d.sides, s.placement.before, c)))
    && AllApart(ws, GapMs(s))
  }

  lemma RequiredCoversOne(campaigns: nat, gap: nat)
    requires campaigns >= 1
    ensures Required(campaigns, gap) >= MAXIMUM_DURATION
  {
    assert (campaigns - 1) * gap >= 0;
    assert campaigns * MAXIMUM_DURATION >= MAXIMUM_DURATION;
  }

  function DrawnDuration(d: Draws, c: nat): nat {
    d.minutes(c) * 60 * 1000
  }

  /** The earliest start on the campaign's side, and the room for its start after that. */
  function MinimumStart(s: Split, beforeSide: bool): int {
    if beforeSide then s.start else Boundary(s)
  }

  function Available(s: Split, beforeSide: bool, duration: nat): int {
    (if beforeSide then Boundary(s) else End(s)) - duration - MinimumStart(s, beforeSide)
  }

  predicate Fits(w: Window, accepted: seq<Window>, gap: int) {
    forall i | 0 <= i < |accepted| :: Apart(w, accepted[i], gap)
  }

  /** The window the given attempt proposes. */
  function Candidate(s: Split, d: Draws, c: nat, attempt: nat): Window
    requires Available(s, OnBeforeSide(d.sides, s.placement.before, c), DrawnDuration(d, c)) >= 0
  {
    var beforeSide := OnBeforeSide(d.sides, s.placement.before, c);
    var available := Available(s, beforeSide, DrawnDuration(d, c));
    Window(MinimumStart(s, beforeSide) + d.offset(c, attempt, available + 1), DrawnDuration(d, c))
  }

  /** A validated configuration leaves room for every duration the generator can draw. */
  lemma RoomIsNeverNegative(s: Split, d: Draws, c: nat)
    requires Validated(s) && InRange(d, s)
    ensures Available(s, OnBeforeSide(d.sides, s.placement.before, c), DrawnDuration(d, c)) >= 0
  {
    RequiredCoversOne(s.placement.before, GapMs(s));
    RequiredCoversOne(s.placement.after, GapMs(s));
  }

  /** Draw one window by rejection sampling against those already accepted: the first candidate that fits. */
  method SampleWindow(s: Split, d: Draws, c: nat, accepted: seq<Window>) returns (r: Result<Window, PlacementError>)
    requires Validated(s) && InRange(d, s)
    ensures Available(s, OnBeforeSide(d.sides, s.placement.before, c), DrawnDuration(d, c)) >= 0
    ensures c == |accepted| ==> if r.Ok? then FirstFit(s, d, accepted, r.value) else NoFit(s, d, accepted)
    ensures r.Ok? ==>
              && WellPlaced(r.value, s, OnBeforeSide(d.sides, s.placement.before, c))
              && Fits(r.value, accepted, GapMs(s))
    ensures r.Ok? ==> exists attempt: nat ::
              && attempt < s.placement.samplingAttempts && r.value == Candidate(s, d, c, attempt)
              && forall earlier :: 0 <= earlier < attempt ==> !Fits(Candidate(s, d, c, earlier), accepted, GapMs(s))
    ensures r.Err? ==>
              && r.error == AttemptsExhausted
              && forall attempt :: 0 <= attempt < s.placement.samplingAttempts ==>
                   !Fits(Candidate(s, d, c, attempt), accepted, GapMs(s))
  {
    var duration := DrawnDuration(d, c);
    var beforeSide := OnBeforeSide(d.sides, s.placement.before, c);
    var available := Available(s, beforeSide, duration);
    RoomIsNeverNegative(s, d, c);
    if available < 0 {
      return Err(NegativeRoom);
    }
    for attempt := 0 to s.placement.samplingAttempts
      invariant forall earlier :: 0 <= earlier < attempt ==> !Fits(Candidate(s, d, c, earlier), accepted, GapMs(s))
    {
      var candidate := Candidate(s, d, c, attempt);
      if Fits(candidate, accepted, GapMs(s)) {
        return Ok(candidate);
      }
    }
    return Err(AttemptsExhausted);
  }

  /** Whether the given attempt of the next campaign, after those placed before it, keeps its distance from all of them. */
  predicate AttemptFits(s: Split, d: Draws, before: seq<Window>, attempt: nat)
    requires Available(s, OnBeforeSide(d.sides, s.placement.before, |before|), DrawnDuration(d, |before|)) >= 0
  {
    Fits(Candidate(s, d, |before|, attempt), before, GapMs(s))
  }

  /** The window is what the first fitting attempt of the next campaign proposes. */
  ghost predicate FirstFit(s: Split, d: Draws, before: seq<Window>, w: Window)
    requires Validated(s) && InRange(d, s)
  {
    RoomIsNeverNegative(s, d, |before|);
    exists attempt: nat ::
      && attempt < s.placement.samplingAttempts && AttemptFits(s, d, before, attempt)
      && w == Candidate(s, d, |before|, attempt)
      && forall earlier: nat :: earlier < attempt ==> !AttemptFits(s, d, before, earlier)
  }

  /** Every attempt of the next campaign comes too close to some window before it. */
  ghost predicate NoFit(s: Split, d: Draws, before: seq<Window>)
    requires Validated(s) && InRange(d, s)
  {
    RoomIsNeverNegative(s, d, |before|);
    forall attempt: nat :: attempt < s.placement.samplingAttempts ==> !AttemptFits(s, d, before, attempt)
  }

  /** The draws place the first campaigns in these windows, one after the other. */
  ghost predicate Drawn(s: Split, d: Draws, ws: seq<Window>)
    requires Validated(s) && InRange(d, s)
  {
    |ws| <= s.campaignCount && forall c :: 0 <= c < |ws| ==> FirstFit(s, d, ws[..c], ws[c])
  }

  lemma FirstFitIsOne(s: Split, d: Draws, before: seq<Window>, v: Window, w: Window)
    requires Validated(s) && InRange(d, s) && FirstFit(s, d, before, v)
    ensures !NoFit(s, d, before)
    ensures FirstFit(s, d, before, w) ==> v == w
  {
    RoomIsNeverNegative(s, d, |before|);
  }

  /** The draws settle the windows: two lists they place agree as far as both go. */
  lemma {:induction false} DrawnAgree(s: Split, d: Draws, vs: seq<Window>, ws: seq<Window>)
    requires Validated(s) && InRange(d, s) && Drawn(s, d, vs) && Drawn(s, d, ws) && |vs| <= |ws|
    ensures vs == ws[..|vs|]
  {
    if vs != [] {
      var n := |vs| - 1;
      assert forall c :: 0 <= c < n ==> vs[..n][..c] == vs[..c] && vs[..n][c] == vs[c];
      DrawnAgree(s, d, vs[..n], ws);
      assert vs == vs[..n] + [vs[n]];
      FirstFitIsOne(s, d, vs[..n], vs[n], ws[n]);
      assert ws[..n + 1] == ws[..n] + [ws[n]];
    }
  }

  /** After windows for which no attempt fits the next campaign, no longer list is ever drawn. */
  lemma StuckIsFinal(s: Split, d: Draws, vs: seq<Window>, ws: seq<Window>)
    requires Validated(s) && InRange(d, s) && Drawn(s, d, vs) && Drawn(s, d, ws)
    requires |vs| < s.campaignCount && NoFit(s, d, vs)
    ensures |ws| <= |vs|
  {
    if |ws| > |vs| {
      DrawnAgree(s, d, vs, ws);
      FirstFitIsOne(s, d, vs, ws[|vs|], ws[|vs|]);
    }
  }

  lemma DrawnGrows(s: Split, d: Draws, ws: seq<Window>, w: Window)
    requires Validated(s) && InRange(d, s) && Drawn(s, d, ws) && |ws| < s.campaignCount && FirstFit(s, d, ws, w)
    ensures Drawn(s, d, ws + [w])
  {
    var more := ws + [w];
    forall c | 0 <= c < |more|
      ensures FirstFit(s, d, more[..c], more[c])
    {
      assert more[..c] == ws[..c];
      assert ws[..|ws|] == ws;
    }
  }

  /** The draws place some campaigns, fewer than all, and then no attempt fits the next one. */
  ghost predicate Stuck(s: Split, d: Draws)
    requires Validated(s) && InRange(d, s)
  {
    exists ws :: Drawn(s, d, ws) && |ws| < s.campaignCount && NoFit(s, d, ws)
  }

  ghost predicate RegularGaps(ws: seq<Window>) {
    TooRegular(Gaps(SortEnvelopes(WindowEnvelopes(ws))))
  }

  /** The draws place all campaigns, and the gaps of those windows are all equal. */
  ghost predicate DrawnRegular(s: Split, d: Draws)
    requires Validated(s) && InRange(d, s)
  {
    exists ws :: Drawn(s, d, ws) && |ws| == s.campaignCount && RegularGaps(ws)
  }

  /** For any draws, either they get stuck or they place all campaigns in exactly one way. */
  lemma OneOutcome(s: Split, d: Draws, ws: seq<Window>)
    requires Validated(s) && InRange(d, s) && Drawn(s, d, ws)
    ensures |ws| == s.campaignCount ==> !Stuck(s, d) && (DrawnRegular(s, d) <==> RegularGaps(ws))
    ensures |ws| < s.campaignCount && NoFit(s, d, ws) ==> Stuck(s, d) && !DrawnRegular(s, d)
  {
    forall vs | Drawn(s, d, vs)
      ensures |vs| < s.campaignCount && NoFit(s, d, vs) ==> |ws| <= |vs|
      ensures |ws| < s.campaignCount && NoFit(s, d, ws) ==> |vs| <= |ws|
      ensures |vs| == |ws| ==> vs == ws
    {
      if |vs| < s.campaignCount && NoFit(s, d, vs) {
        StuckIsFinal(s, d, vs, ws);
      }
      if |ws| < s.campaignCount && NoFit(s, d, ws) {
        StuckIsFinal(s, d, ws, vs);
      }
      if |vs| == |ws| {
        DrawnAgree(s, d, vs, ws);
      }
    }
  }

  /** Equal gaps between all neighbours are refused as too regular. */
  method CampaignWindows(s: Split, d: Draws) returns (r: Result<seq<Window>, PlacementError>)
    requires Validated(s) && InRange(d, s)
    ensures r.Ok? ==> Placed(r.value, s, d)
    ensures r.Ok? ==> Drawn(s, d, r.value) && !RegularGaps(r.value)
    ensures r == Err(AttemptsExhausted) <==> Stuck(s, d)
    ensures r == Err(Regular) <==> DrawnRegular(s, d)
    ensures r != Err(NegativeRoom)
  {
    var accepted: seq<Window> := [];
    for c := 0 to s.campaignCount
      invariant |accepted| == c
      invariant forall i :: 0 <= i < c ==> WellPlaced(accepted[i], s, OnBeforeSide(d.sides, s.placement.before, i))
      invariant AllApart(accepted, GapMs(s))
      invariant Drawn(s, d, accepted)
    {
      var selected := SampleWindow(s, d, c, accepted);
      if selected.Err? {
        OneOutcome(s, d, accepted);
        return Err(selected.error);
      }
      DrawnGrows(s, d, accepted, selected.value);
      accepted := accepted + [selected.value];
    }
    OneOutcome(s, d, accepted);
    var ordered := SortEnvelopes(WindowEnvelopes(accepted));
    if TooRegular(Gaps(ordered)) {
      return Err(Regular);
    }
    return Ok(accepted);
  }

  // ----- ordered envelopes and their gaps

  type Envelope = (int, int)

  predicate EnvelopeLess(a: Envelope, b: Envelope) {
    a.0 < b.0 || (a.0 == b.0 && a.1 <= b.1)
  }

  ghost predicate Ordered(es: seq<Envelope>) {
    forall i, j :: 0 <= i < j < |es| ==> EnvelopeLess(es[i], es[j])
  }

  function SortEnvelopes(es: seq<Envelope>): (out: seq<Envelope>)
    ensures Ordered(out) && |out| == |es|
    ensures multiset(out) == multiset(es)
    ensures forall x :: x in out <==> x in es
  {
    SortBy(EnvelopeLess, es)
  }

  function Gaps(es: seq<Envelope>): (gaps: seq<int>)
    ensures |gaps| == if es == [] then 0 else |es| - 1
    ensures forall i :: 0 <= i < |gaps| ==> gaps[i] == es[i + 1].0 - es[i].1
  {
    if |es| <= 1 then [] else seq(|es| - 1, i requires 0 <= i < |es| - 1 => es[i + 1].0 - es[i].1)
  }

  predicate AllEqual(gaps: seq<int>) {
    forall i, j :: 0 <= i < |gaps| && 0 <= j < |gaps| ==> gaps[i] == gaps[j]
  }

  predicate TooRegular(gaps: seq<int>) {
    |gaps| > 1 && AllEqual(gaps)
  }

  function WindowEnvelopes(ws: seq<Window>): seq<Envelope> {
    seq(|ws|, i requires 0 <= i < |ws| => (ws[i].start, WindowEnd(ws[i])))
  }

  predicate EnvelopesApart(a: Envelope, b: Envelope, gap: int) {
    a.1 + gap <= b.0 || b.1 + gap <= a.0
  }

  ghost predicate AllEnvelopesApart(es: seq<Envelope>, gap: int) {
    forall i, j :: 0 <= i < j < |es| ==> EnvelopesApart(es[i], es[j], gap)
  }

  ghost predicate ApartFromAll(es: seq<Envelope>, e: Envelope, gap: int) {
    forall x :: x in es ==> EnvelopesApart(x, e, gap)
  }

  lemma SameMembersApart(a: seq<Envelope>, b: seq<Envelope>, e: Envelope, gap: int)
    requires forall x :: x in a <==> x in b
    ensures ApartFromAll(a, e, gap) <==> ApartFromAll(b, e, gap)
  {
  }

  lemma ApartFromCons(h: Envelope, es: seq<Envelope>, e: Envelope, gap: int)
    ensures ApartFromAll([h] + es, e, gap) <==> EnvelopesApart(h, e, gap) && ApartFromAll(es, e, gap)
  {
    assert h in [h] + es;
  }

  lemma {:induction false} InsertKeepsApart(es: seq<Envelope>, e: Envelope, gap: int)
    requires SortedBy(EnvelopeLess, es)
    ensures AllEnvelopesApart(InsertBy(EnvelopeLess, es, e), gap)
       <==> AllEnvelopesApart(es, gap) && ApartFromAll(es, e, gap)
  {
    hide AllEnvelopesApart, ApartFromAll, Ordered, EnvelopesApart;
    if es != [] && EnvelopeLess(es[0], e) {
      var h, tail := es[0], es[1..];
      assert es == [h] + tail;
      SortedTail(EnvelopeLess, es);
      InsertKeepsApart(tail, e, gap);
      var rest := InsertBy(EnvelopeLess, tail, e);
      assert InsertBy(EnvelopeLess, es, e) == [h] + rest;
      ConsApart(h, tail, gap);
      ConsApart(h, rest, gap);
      ApartFromCons(e, tail, h, gap);
      SameMembersApart(rest, [e] + tail, h, gap);
      ApartFromCons(h, tail, e, gap);
      EitherOrder(h, e, gap);
    } else {
      ConsApart(e, es, gap);
      assert es == [] ==> [e] == [e] + es;
    }
  }

  lemma EitherOrder(a: Envelope, b: Envelope, gap: int)
    ensures EnvelopesApart(a, b, gap) <==> EnvelopesApart(b, a, gap)
  {
  }

  lemma ConsApart(e: Envelope, es: seq<Envelope>, gap: int)
    ensures AllEnvelopesApart([e] + es, gap) <==> AllEnvelopesApart(es, gap) && ApartFromAll(es, e, gap)
  {
    var all := [e] + es;
    assert forall i :: 0 <= i < |es| ==> all[i + 1] == es[i];
    if AllEnvelopesApart(all, gap) {
      forall i, j | 0 <= i < j < |es|
        ensures EnvelopesApart(es[i], es[j], gap)
      {
        assert EnvelopesApart(all[i + 1], all[j + 1], gap);
      }
      forall x | x in es
        ensures EnvelopesApart(x, e, gap)
      {
        var i :| 0 <= i < |es| && es[i] == x;
        assert EnvelopesApart(all[0], all[i + 1], gap);
      }
    }
    if AllEnvelopesApart(es, gap) && ApartFromAll(es, e, gap) {
      forall i, j | 0 <= i < j < |all|
        ensures EnvelopesApart(all[i], all[j], gap)
      {
        if i == 0 {
          assert all[j] in es;
          EitherOrder(all[j], e, gap);
        } else {
          assert EnvelopesApart(es[i - 1], es[j - 1], gap);
        }
      }
    }
  }

  lemma SnocApart(es: seq<Envelope>, e: Envelope, gap: int)
    ensures AllEnvelopesApart(es + [e], gap) <==> AllEnvelopesApart(es, gap) && ApartFromAll(es, e, gap)
  {
    var all := es + [e];
    assert forall i :: 0 <= i < |es| ==> all[i] == es[i];
    if AllEnvelopesApart(all, gap) {
      forall i, j | 0 <= i < j < |es|
        ensures EnvelopesApart(es[i], es[j], gap)
      {
        assert EnvelopesApart(all[i], all[j], gap);
      }
      forall x | x in es
        ensures EnvelopesApart(x, e, gap)
      {
        var i :| 0 <= i < |es| && es[i] == x;
        assert EnvelopesApart(all[i], all[|es|], gap);
      }
    }
  }

  /** Sorting loses no separation and adds none. */
  lemma {:induction false} SortKeepsApart(es: seq<Envelope>, gap: int)
    ensures AllEnvelopesApart(SortEnvelopes(es), gap) <==> AllEnvelopesApart(es, gap)
  {
    hide AllEnvelopesApart, ApartFromAll, Ordered, EnvelopesApart;
    if es != [] {
      var n := |es| - 1;
      SortKeepsApart(es[..n], gap);
      SameMembersApart(SortEnvelopes(es[..n]), es[..n], es[n], gap);
      InsertKeepsApart(SortEnvelopes(es[..n]), es[n], gap);
      SnocApart(es[..n], es[n], gap);
      assert es == es[..n] + [es[n]];
    }
  }

  /** Checking neighbours in order is checking all pairs. */
  lemma NeighboursSuffice(es: seq<Envelope>, gap: int)
    requires Ordered(es) && gap > 0 && forall e :: e in es ==> e.0 <= e.1
    ensures (forall i :: 0 <= i < |Gaps(es)| ==> Gaps(es)[i] >= gap) <==> AllEnvelopesApart(es, gap)
  {
    if AllEnvelopesApart(es, gap) {
      forall i | 0 <= i < |Gaps(es)|
        ensures Gaps(es)[i] >= gap
      {
        assert EnvelopesApart(es[i], es[i + 1], gap) && EnvelopeLess(es[i], es[i + 1]);
        assert es[i] in es && es[i + 1] in es;
      }
    }
    if forall i :: 0 <= i < |Gaps(es)| ==> Gaps(es)[i] >= gap {
      forall i, j | 0 <= i < j < |es|
        ensures EnvelopesApart(es[i], es[j], gap)
      {
        assert Gaps(es)[i] >= gap;
        if i + 1 < j {
          assert EnvelopeLess(es[i + 1], es[j]);
        }
      }
    }
  }

  // ----- the validator

  datatype ValidationError = QuotaNotEqual | CrossesBoundary | BeforeMissing | AfterMissing | GapInvalid | NotIrregular

  function First(times: seq<int>): (first: int)
    requires times != []
    ensures first in times && forall t :: t in times ==> first <= t
  {
    if |times| == 1 then times[0]
    else
      var rest := First(times[1..]);
      assert times == [times[0]] + times[1..];
      if times[0] <= rest then times[0] else rest
  }

  function Last(times: seq<int>): (last: int)
    requires times != []
    ensures last in times && forall t :: t in times ==> t <= last
  {
    if |times| == 1 then times[0]
    else
      var rest := Last(times[1..]);
      assert times == [times[0]] + times[1..];
      if times[0] >= rest then times[0] else rest
  }

  function EnvelopeOf(times: seq<int>): Envelope
    requires times != []
  {
    (First(times), Last(times))
  }

  predicate NoneEmpty(groups: seq<seq<int>>) {
    forall i :: 0 <= i < |groups| ==> groups[i] != []
  }

  function EnvelopesOf(groups: seq<seq<int>>): (es: seq<Envelope>)
    requires NoneEmpty(groups)
    ensures |es| == |groups| && forall i :: 0 <= i < |groups| ==> es[i] == EnvelopeOf(groups[i])
  {
    seq(|groups|, i requires 0 <= i < |groups| => EnvelopeOf(groups[i]))
  }

  predicate Before(times: seq<int>, boundary: int)
    requires times != []
  {
    Last(times) < boundary
  }

  predicate After(times: seq<int>, boundary: int)
    requires times != []
  {
    First(times) >= boundary
  }

  function CountBefore(groups: seq<seq<int>>, boundary: int): nat
    requires NoneEmpty(groups)
  {
    if groups == [] then 0
    else CountBefore(groups[..|groups| - 1], boundary) + if Before(groups[|groups| - 1], boundary) then 1 else 0
  }

  /** One side or the other, and the right number of events. */
  predicate GroupOk(g: seq<int>, quota: int, boundary: int) {
    |g| == quota && g != [] && (Before(g, boundary) || After(g, boundary))
  }

  /** Everything the validator checks apart from irregularity. */
  ghost predicate Acceptable(groups: seq<seq<int>>, s: Split) {
    && s.campaignCount > 0 && s.attackCount % s.campaignCount == 0
    && (forall i :: 0 <= i < |groups| ==> GroupOk(groups[i], s.attackCount / s.campaignCount, Boundary(s)))
    && CountBefore(groups, Boundary(s)) >= s.placement.before
    && |groups| - CountBefore(groups, Boundary(s)) >= s.placement.after
    && AllEnvelopesApart(EnvelopesOf(groups), GapMs(s))
  }

  /** The first group with the wrong number of events or on both sides. */
  ghost predicate FirstBad(groups: seq<seq<int>>, quota: int, boundary: int, i: nat) {
    i < |groups| && !GroupOk(groups[i], quota, boundary) && forall k :: 0 <= k < i ==> GroupOk(groups[k], quota, boundary)
  }

  ghost predicate GroupsOk(groups: seq<seq<int>>, quota: int, boundary: int) {
    forall i :: 0 <= i < |groups| ==> GroupOk(groups[i], quota, boundary)
  }

  ghost predicate BadGroup(groups: seq<seq<int>>, quota: int, boundary: int, e: ValidationError) {
    exists i: nat :: FirstBad(groups, quota, boundary, i) && e == if |groups[i]| != quota then QuotaNotEqual else CrossesBoundary
  }

  /** Why a placement is refused: a bad group, too few campaigns on a side, a gap too small, all gaps equal. */
  ghost predicate RefusedFor(groups: seq<seq<int>>, s: Split, e: ValidationError)
    requires Validated(s)
  {
    var quota, boundary := s.attackCount / s.campaignCount, Boundary(s);
    if s.attackCount % s.campaignCount != 0 then e == QuotaNotEqual
    else if !GroupsOk(groups, quota, boundary) then BadGroup(groups, quota, boundary, e)
    else if CountBefore(groups, boundary) < s.placement.before then e == BeforeMissing
    else if |groups| - CountBefore(groups, boundary) < s.placement.after then e == AfterMissing
    else if !AllEnvelopesApart(EnvelopesOf(groups), GapMs(s)) then e == GapInvalid
    else TooRegular(Gaps(SortEnvelopes(EnvelopesOf(groups)))) && e == NotIrregular
  }

  /** The pass over the campaigns: quotas, sides and envelopes. */
  method CheckGroups(groups: seq<seq<int>>, expected: nat, boundary: int)
    returns (error: Option<ValidationError>, before: nat, after: nat, envelopes: seq<Envelope>)
    requires expected > 0
    ensures error.None? <==> GroupsOk(groups, expected, boundary)
    ensures forall e :: error == Some(e) <==> BadGroup(groups, expected, boundary, e)
    ensures error != Some(NotIrregular)
    ensures error.None? ==>
              && before == CountBefore(groups, boundary) && before + after == |groups|
              && envelopes == EnvelopesOf(groups)
  {
    hide BadGroup, First, Last;
    before, after, envelopes := 0, 0, [];
    for i := 0 to |groups|
      invariant forall k :: 0 <= k < i ==> GroupOk(groups[k], expected, boundary)
      invariant before == CountBefore(groups[..i], boundary) && before + after == i
      invariant envelopes == EnvelopesOf(groups[..i])
    {
      var times := groups[i];
      assert groups[..i + 1][..i] == groups[..i];
      if |times| != expected {
        BadGroupFound(groups, expected, boundary, i);
        return Some(QuotaNotEqual), before, after, envelopes;
      }
      assert times != [];
      if Last(times) < boundary {
        before := before + 1;
      } else if First(times) >= boundary {
        after := after + 1;
      } else {
        BadGroupFound(groups, expected, boundary, i);
        return Some(CrossesBoundary), before, after, envelopes;
      }
      EnvelopesSnoc(groups, i);
      envelopes := envelopes + [(First(times), Last(times))];
    }
    assert groups[..|groups|] == groups;
    NoBadGroup(groups, expected, boundary);
    error := None;
  }

  lemma NoBadGroup(groups: seq<seq<int>>, quota: int, boundary: int)
    requires GroupsOk(groups, quota, boundary)
    ensures forall e :: !BadGroup(groups, quota, boundary, e)
  {
  }

  lemma EnvelopesSnoc(groups: seq<seq<int>>, i: nat)
    requires i < |groups| && NoneEmpty(groups[..i + 1]) && NoneEmpty(groups[..i])
    ensures EnvelopesOf(groups[..i + 1]) == EnvelopesOf(groups[..i]) + [EnvelopeOf(groups[i])]
  {
  }

  lemma BadGroupFound(groups: seq<seq<int>>, quota: int, boundary: int, i: nat)
    requires FirstBad(groups, quota, boundary, i)
    ensures forall e :: BadGroup(groups, quota, boundary, e) <==> e == if |groups[i]| != quota then QuotaNotEqual else CrossesBoundary
  {
    assert forall j: nat :: FirstBad(groups, quota, boundary, j) ==> j == i;
  }

  /** The independent checker: it accepts exactly the acceptable placements that are not too regular. */
  method ValidateCampaignPlacement(groups: seq<seq<int>>, s: Split) returns (r: Result<(), ValidationError>)
    requires Validated(s)
    ensures Acceptable(groups, s) <==> r.Ok? || r == Err(NotIrregular)
    ensures Acceptable(groups, s) ==> (r.Ok? <==> !TooRegular(Gaps(SortEnvelopes(EnvelopesOf(groups)))))
    ensures forall e :: r == Err(e) <==> RefusedFor(groups, s, e)
  {
    hide AllEnvelopesApart, Ordered, Boundary, Validated, GroupOk, CountBefore, EnvelopesOf, BadGroup, TooRegular;
    QuotaPositive(s);
    if s.attackCount % s.campaignCount != 0 {
      return Err(QuotaNotEqual);
    }
    var error, before, after, envelopes := CheckGroups(groups, s.attackCount / s.campaignCount, Boundary(s));
    if error.Some? {
      return Err(error.value);
    }
    if before < s.placement.before {
      return Err(BeforeMissing);
    }
    if after < s.placement.after {
      return Err(AfterMissing);
    }
    assert NoneEmpty(groups) by {
      OkIsNonEmpty(groups, s.attackCount / s.campaignCount, Boundary(s));
    }
    r := CheckGaps(groups, GapMs(s));
  }

  /** The last two checks, on the gaps between consecutive envelopes. */
  method CheckGaps(groups: seq<seq<int>>, gap: int) returns (r: Result<(), ValidationError>)
    requires NoneEmpty(groups) && gap > 0
    ensures AllEnvelopesApart(EnvelopesOf(groups), gap) <==> r != Err(GapInvalid)
    ensures r.Err? ==> r.error in {GapInvalid, NotIrregular}
    ensures AllEnvelopesApart(EnvelopesOf(groups), gap) ==> (r.Ok? <==> !TooRegular(Gaps(SortEnvelopes(EnvelopesOf(groups)))))
  {
    hide AllEnvelopesApart, Ordered, AllEqual;
    var ordered := SortEnvelopes(EnvelopesOf(groups));
    var gaps := Gaps(ordered);
    SortKeepsApart(EnvelopesOf(groups), gap);
    EnvelopesForward(groups);
    NeighboursSuffice(ordered, gap);
    if exists i | 0 <= i < |gaps| :: gaps[i] < gap {
      return Err(GapInvalid);
    }
    if TooRegular(gaps) {
      return Err(NotIrregular);
    }
    return Ok(());
  }

  lemma OkIsNonEmpty(groups: seq<seq<int>>, quota: int, boundary: int)
    requires forall i :: 0 <= i < |groups| ==> GroupOk(groups[i], quota, boundary)
    ensures NoneEmpty(groups)
  {
  }

  lemma AtMostOnce(q: nat, n: nat)
    ensures q <= 1 ==> q * n <= n
  {
  }

  lemma QuotaPositive(s: Split)
    requires Validated(s)
    ensures s.campaignCount > 0 && s.attackCount / s.campaignCount >= 2 && GapMs(s) > 0
  {
    var q := s.attackCount / s.campaignCount;
    assert s.attackCount == q * s.campaignCount;
    AtMostOnce(q, s.campaignCount);
  }

  lemma EnvelopesForward(groups: seq<seq<int>>)
    requires NoneEmpty(groups)
    ensures forall e :: e in SortEnvelopes(EnvelopesOf(groups)) ==> e.0 <= e.1
  {
    forall e | e in SortEnvelopes(EnvelopesOf(groups))
      ensures e.0 <= e.1
    {
      var i :| 0 <= i < |groups| && EnvelopesOf(groups)[i] == e;
      assert First(groups[i]) in groups[i];
    }
  }

  // ----- what the generator returns, the validator accepts

  /** The attack quota is split over the campaigns, and each event is timed inside its campaign's window. */
  ghost predicate DrawnFrom(groups: seq<seq<int>>, windows: seq<Window>, s: Split) {
    && |groups| == |windows| == s.campaignCount && s.campaignCount > 0
    && forall c :: 0 <= c < |groups| ==>
         && |groups[c]| == Apportionment.SplitIntoGroups(s.attackCount, s.campaignCount)[c]
         && forall t :: t in groups[c] ==> windows[c].start <= t < WindowEnd(windows[c])
  }

  ghost function BeforeIndexes(d: Draws, before: nat, n: nat): set<nat> {
    set c: nat | c < n && OnBeforeSide(d.sides, before, c)
  }

  lemma {:induction false} DistinctSize<T(!new)>(xs: seq<T>)
    requires forall i, j :: 0 <= i < j < |xs| ==> xs[i] != xs[j]
    ensures |SetOf(xs)| == |xs|
  {
    if xs == [] {
      assert SetOf(xs) == {};
    } else {
      var n := |xs| - 1;
      DistinctSize(xs[..n]);
      assert xs == xs[..n] + [xs[n]];
      assert forall x :: x in SetOf(xs) <==> x in SetOf(xs[..n]) + {xs[n]};
      assert SetOf(xs) == SetOf(xs[..n]) + {xs[n]};
    }
  }

  /** The shuffle puts exactly the configured number of campaigns before the boundary. */
  lemma BeforeIndexesSize(d: Draws, s: Split)
    requires Validated(s) && InRange(d, s)
    ensures |BeforeIndexes(d, s.placement.before, s.campaignCount)| == s.placement.before
  {
    var chosen := d.sides[..s.placement.before];
    DistinctSize(chosen);
    forall c | c in chosen
      ensures c < s.campaignCount
    {
      var i :| 0 <= i < |chosen| && chosen[i] == c;
      assert d.sides[i] == c;
    }
    assert BeforeIndexes(d, s.placement.before, s.campaignCount) == SetOf(chosen);
  }

  lemma OneMoreIndex(d: Draws, before: nat, n: nat)
    ensures |BeforeIndexes(d, before, n + 1)| == |BeforeIndexes(d, before, n)| + if OnBeforeSide(d.sides, before, n) then 1 else 0
  {
    hide OnBeforeSide;
    var m := BeforeIndexes(d, before, n);
    assert BeforeIndexes(d, before, n + 1) == if OnBeforeSide(d.sides, before, n) then m + {n} else m;
  }

  lemma {:induction false} CountIsSides(groups: seq<seq<int>>, d: Draws, before: nat, boundary: int)
    requires NoneEmpty(groups)
    requires forall c :: 0 <= c < |groups| ==> (Before(groups[c], boundary) <==> OnBeforeSide(d.sides, before, c))
    ensures CountBefore(groups, boundary) == |BeforeIndexes(d, before, |groups|)|
  {
    hide OnBeforeSide, Before;
    if groups == [] {
      assert BeforeIndexes(d, before, 0) == {};
    } else {
      var n := |groups| - 1;
      assert forall c :: 0 <= c < n ==> groups[..n][c] == groups[c];
      CountIsSides(groups[..n], d, before, boundary);
      hide BeforeIndexes;
      OneMoreIndex(d, before, n);
    }
  }

  /** Windows apart give envelopes apart. */
  lemma WindowsToEnvelopes(groups: seq<seq<int>>, windows: seq<Window>, s: Split)
    requires DrawnFrom(groups, windows, s) && AllApart(windows, GapMs(s))
    requires NoneEmpty(groups)
    ensures AllEnvelopesApart(EnvelopesOf(groups), GapMs(s))
  {
    var es := EnvelopesOf(groups);
    forall i, j | 0 <= i < j < |es|
      ensures EnvelopesApart(es[i], es[j], GapMs(s))
    {
      assert Apart(windows[i], windows[j], GapMs(s));
      assert First(groups[i]) in groups[i] && Last(groups[i]) in groups[i];
      assert First(groups[j]) in groups[j] && Last(groups[j]) in groups[j];
    }
  }

  lemma CampaignOnItsSide(s: Split, d: Draws, windows: seq<Window>, groups: seq<seq<int>>, c: nat)
    requires Validated(s) && Placed(windows, s, d) && DrawnFrom(groups, windows, s) && c < |groups|
    ensures GroupOk(groups[c], s.attackCount / s.campaignCount, Boundary(s))
    ensures Before(groups[c], Boundary(s)) <==> OnBeforeSide(d.sides, s.placement.before, c)
  {
    hide AllApart, Boundary, OnBeforeSide;
    QuotaPositive(s);
    assert groups[c] != [];
    assert WellPlaced(windows[c], s, OnBeforeSide(d.sides, s.placement.before, c));
    assert First(groups[c]) in groups[c] && Last(groups[c]) in groups[c];
  }

  /**
   * For every validated configuration and all draws: whatever windows the
   * generator returns, events drawn inside them pass every check but possibly
   * the one for irregularity, with exactly the configured number of campaigns
   * on each side.
   */
  lemma GeneratedIsAcceptable(s: Split, d: Draws, windows: seq<Window>, groups: seq<seq<int>>)
    requires Validated(s) && InRange(d, s)
    requires Placed(windows, s, d)
    requires DrawnFrom(groups, windows, s)
    ensures Acceptable(groups, s)
    ensures CountBefore(groups, Boundary(s)) == s.placement.before
    ensures |groups| - CountBefore(groups, Boundary(s)) == s.placement.after
  {
    hide WellPlaced, OnBeforeSide, Boundary, AllApart, AllEnvelopesApart, CountBefore, Before, After, EnvelopesOf, BeforeIndexes;
    forall c | 0 <= c < |groups|
      ensures GroupOk(groups[c], s.attackCount / s.campaignCount, Boundary(s))
      ensures Before(groups[c], Boundary(s)) <==> OnBeforeSide(d.sides, s.placement.before, c)
    {
      CampaignOnItsSide(s, d, windows, groups, c);
    }
    WindowsToEnvelopes(groups, windows, s);
    CountIsSides(groups, d, s.placement.before, Boundary(s));
    BeforeIndexesSize(d, s);
  }
}
