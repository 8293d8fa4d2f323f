/** Reading itineraries back out of the router's tables. */
module Plans {
  import opened Wrappers
  import opened Rtime
  import opened Timetables
  import opened Journeys
  import opened Ideals
  import opened Search
  import opened Scans
  import opened Rounds
  import opened Routers
  import Travel

  const WALK: nat := 0xFFFF_FFFE

  datatype Leg = Leg(s0: nat, s1: nat, t0: RTime, t1: RTime, route: nat, trip: nat)

  /** Legs of a backward search are recorded with their ends exchanged. */
  function Oriented(q: Query, leg: Leg): Leg {
    if q.req.arriveBy then Leg(leg.s1, leg.s0, leg.t1, leg.t0, leg.route, leg.trip) else leg
  }

  /* ----- the reference: a journey's legs in the order they are travelled ----- */

  function WalkLeg(q: Query, from: nat, to: nat, t0: RTime, t1: RTime): Leg {
    Oriented(q, Leg(from, to, t0, t1, WALK, WALK))
  }

  function RideLeg(q: Query, ride: Ride): Leg
    requires InBounds(q, ride)
  {
    Oriented(q, Leg(RideFrom(q, ride), RideTo(q, ride), RideStart(q, ride), RideEnd(q, ride), ride.route, ride.trip))
  }

  ghost function FirstLeg(q: Query, j: Journey): Leg
    requires Feasible(q, j) && j.Access?
  {
    EndsAfterRequest(q, j);
    WalkLeg(q, Origin(q.req), EndStop(q, j), q.req.time, EndTime(q, j))
  }

  ghost function LastWalk(q: Query, j: Journey): Leg
    requires Feasible(q, j) && j.Onward?
  {
    EndsAfterRequest(q, j);
    WalkLeg(q, j.walk.from, EndStop(q, j), RideEnd(q, j.ride), EndTime(q, j))
  }

  /** A journey's walk out of the origin, on its own. */
  function AccessOf(j: Journey): Journey { if j.Access? then j else AccessOf(j.prev) }

  lemma {:induction false} AccessFeasible(q: Query, j: Journey)
    requires Feasible(q, j)
    ensures Feasible(q, AccessOf(j)) && AccessOf(j).Access?
    decreases j
  {
    if j.Access? {
    } else {
      AccessFeasible(q, j.prev);
    }
  }

  /** The legs of a journey, with a given leg for the walk out of the origin. */
  ghost function LegsWith(q: Query, j: Journey, first: Leg): (legs: seq<Leg>)
    requires Feasible(q, j)
    ensures |legs| == 2 * Rides(j) + 1
    decreases j
  {
    if j.Access? then [first]
    else if q.req.arriveBy then [LastWalk(q, j), RideLeg(q, j.ride)] + LegsWith(q, j.prev, first)
    else LegsWith(q, j.prev, first) + [RideLeg(q, j.ride), LastWalk(q, j)]
  }

  ghost function Legs(q: Query, j: Journey): (legs: seq<Leg>)
    requires Feasible(q, j)
    ensures |legs| == 2 * Rides(j) + 1
  {
    AccessFeasible(q, j);
    LegsWith(q, j, FirstLeg(q, AccessOf(j)))
  }

  /* ----- what every itinerary satisfies ----- */

  /** Legs alternate between walks and rides, starting and ending with a walk, and
      each begins where, and not before, the previous one ends. */
  predicate Chained(legs: seq<Leg>) {
    && |legs| % 2 == 1
    && (forall l | 0 <= l < |legs| :: legs[l].t0 <= legs[l].t1 && (legs[l].route == WALK <==> l % 2 == 0))
    && (forall l, m | 0 <= l < |legs| && m == l + 1 < |legs| :: legs[l].s1 == legs[m].s0 && legs[l].t1 <= legs[m].t0)
  }

  /** The place of the walk out of the search origin. */
  function FirstPlace(q: Query, legs: seq<Leg>): int { if q.req.arriveBy then |legs| - 1 else 0 }

  /** Chained, but for the order of times within rides and around the walk out of
      the search origin. */
  predicate Linked(q: Query, legs: seq<Leg>) {
    && |legs| % 2 == 1
    && (forall l | 0 <= l < |legs| :: legs[l].route == WALK <==> l % 2 == 0)
    && (forall l | 0 <= l < |legs| && l % 2 == 0 && l != FirstPlace(q, legs) :: legs[l].t0 <= legs[l].t1)
    && (forall l, m | 0 <= l < |legs| && m == l + 1 < |legs| ::
          legs[l].s1 == legs[m].s0 && (l != FirstPlace(q, legs) && m != FirstPlace(q, legs) ==> legs[l].t1 <= legs[m].t0))
  }

  /** No ride goes back in time. */
  predicate RidesInOrder(legs: seq<Leg>) {
    forall l | 0 <= l < |legs| && l % 2 == 1 :: legs[l].t0 <= legs[l].t1
  }

  /** The walk out of the search origin does not, and is in time for the ride. */
  predicate FirstInOrder(q: Query, legs: seq<Leg>) {
    legs != [] &&
    var f := FirstPlace(q, legs);
    && legs[f].t0 <= legs[f].t1
    && (|legs| > 1 ==> if q.req.arriveBy then legs[f - 1].t1 <= legs[f].t0 else legs[f].t1 <= legs[f + 1].t0)
  }

  lemma ChainedExactly(q: Query, legs: seq<Leg>)
    requires Linked(q, legs)
    ensures Chained(legs) <==> RidesInOrder(legs) && FirstInOrder(q, legs)
  {
    if RidesInOrder(legs) && FirstInOrder(q, legs) {
      forall l, m | 0 <= l < |legs| && m == l + 1 < |legs| ensures legs[l].t1 <= legs[m].t0 {}
    }
    if Chained(legs) && |legs| > 1 {
      var f := FirstPlace(q, legs);
      assert if q.req.arriveBy then legs[f - 1].t1 <= legs[f].t0 else legs[f].t1 <= legs[f + 1].t0;
    }
  }

  /** The legs lead from the origin of the search to the end of the journey. */
  ghost predicate Spans(q: Query, j: Journey, legs: seq<Leg>)
    requires Feasible(q, j)
  {
    && Linked(q, legs) && |legs| == 2 * Rides(j) + 1
    && if q.req.arriveBy
       then legs[|legs| - 1].s1 == Origin(q.req) && legs[|legs| - 1].t1 == q.req.time && legs[0].s0 == EndStop(q, j)
            && (j.Onward? ==> legs[0].t0 == EndTime(q, j))
       else legs[0].s0 == Origin(q.req) && legs[0].t0 == q.req.time && legs[|legs| - 1].s1 == EndStop(q, j)
            && (j.Onward? ==> legs[|legs| - 1].t1 == EndTime(q, j))
  }

  /** A ride and a walk that go on from linked legs keep them linked. */
  lemma LinkAfter(q: Query, legs: seq<Leg>, ride: Leg, walk: Leg)
    requires !q.req.arriveBy && Linked(q, legs) && ride.route != WALK && walk.route == WALK
    requires legs[|legs| - 1].s1 == ride.s0 && ride.s1 == walk.s0 && ride.t1 <= walk.t0 <= walk.t1
    requires |legs| > 1 ==> legs[|legs| - 1].t1 <= ride.t0
    ensures Linked(q, legs + [ride, walk])
  {
    var n, all := |legs|, legs + [ride, walk];
    assert all[n] == ride && all[n + 1] == walk;
    forall l | 0 <= l < n ensures all[l] == legs[l] {}
    forall l | 0 <= l < |all|
      ensures (all[l].route == WALK <==> l % 2 == 0) && (l % 2 == 0 && l != 0 ==> all[l].t0 <= all[l].t1)
    {
      if l >= n { assert l == n || l == n + 1; }
    }
    forall l, m | 0 <= l < |all| && m == l + 1 < |all|
      ensures all[l].s1 == all[m].s0 && (l != 0 ==> all[l].t1 <= all[m].t0)
    {
      if m < n {
        assert legs[l].s1 == legs[m].s0;
      } else {
        assert l == n - 1 || l == n;
      }
    }
  }

  /** And so do a walk and a ride that lead to them. */
  lemma LinkBefore(q: Query, walk: Leg, ride: Leg, legs: seq<Leg>)
    requires q.req.arriveBy && Linked(q, legs) && ride.route != WALK && walk.route == WALK
    requires ride.s1 == legs[0].s0 && walk.s1 == ride.s0 && walk.t0 <= walk.t1 <= ride.t0
    requires |legs| > 1 ==> ride.t1 <= legs[0].t0
    ensures Linked(q, [walk, ride] + legs)
  {
    var all := [walk, ride] + legs;
    forall l | 2 <= l < |all| ensures all[l] == legs[l - 2] {}
    forall l, m | 0 <= l < |all| && m == l + 1 < |all|
      ensures all[l].s1 == all[m].s0 && (m != |all| - 1 ==> all[l].t1 <= all[m].t0)
    {
      if l >= 2 {
        assert legs[l - 2].s1 == legs[m - 2].s0;
      }
    }
  }

  /** One more ride and walk keep a forward journey's legs linked. */
  lemma SpansAfter(q: Query, j: Journey, legs: seq<Leg>)
    requires j.Onward? && !q.req.arriveBy && Feasible(q, j) && Spans(q, j.prev, legs)
    requires EndTime(q, j.prev) <= RideStart(q, j.ride) && RideEnd(q, j.ride) <= EndTime(q, j)
    requires j.ride.route != WALK
    ensures Spans(q, j, legs + [RideLeg(q, j.ride), LastWalk(q, j)])
  {
    hide WellFormed, Recordable, Boardable, Permitted, Linked;
    LinkAfter(q, legs, RideLeg(q, j.ride), LastWalk(q, j));
  }

  /** The same for a backward one. */
  lemma SpansBefore(q: Query, j: Journey, legs: seq<Leg>)
    requires j.Onward? && q.req.arriveBy && Feasible(q, j) && Spans(q, j.prev, legs)
    requires EndTime(q, j.prev) >= RideStart(q, j.ride) && RideEnd(q, j.ride) >= EndTime(q, j)
    requires j.ride.route != WALK
    ensures Spans(q, j, [LastWalk(q, j), RideLeg(q, j.ride)] + legs)
  {
    hide WellFormed, Recordable, Boardable, Permitted, Linked;
    LinkBefore(q, LastWalk(q, j), RideLeg(q, j.ride), legs);
  }

  /** A leg for a walk out of the origin to a stop, which may say when it ends. */
  predicate LeadsOut(q: Query, stop: nat, first: Leg) { exists t: RTime :: first == WalkLeg(q, Origin(q.req), stop, q.req.time, t) }

  /** The legs of a feasible journey are linked and lead from the origin to its end,
      whatever is said of when the walk out of the origin ends. */
  lemma {:induction false} JourneySpans(q: Query, j: Journey, first: Leg)
    requires Feasible(q, j) && HasEnd(q, AccessOf(j)) && LeadsOut(q, EndStop(q, AccessOf(j)), first)
    ensures Spans(q, j, LegsWith(q, j, first))
    decreases j
  {
    hide WellFormed, Recordable, Boardable, Spans;
    EndsAfterRequest(q, j);
    if j.Access? {
      SpansAccess(q, j, first);
    } else {
      JourneySpans(q, j.prev, first);
      EndsAfterRequest(q, j.prev);
      WalkCosts(q, j.walk, RideEnd(q, j.ride));
      RideTimesReached(q, j);
      RouteIsNotWalk(q, j.ride);
      var legs := LegsWith(q, j.prev, first);
      if q.req.arriveBy { SpansBefore(q, j, legs); } else { SpansAfter(q, j, legs); }
    }
  }

  lemma SpansAccess(q: Query, j: Journey, first: Leg)
    requires j.Access? && Feasible(q, j) && LeadsOut(q, EndStop(q, j), first)
    ensures Spans(q, j, [first])
  {}

  /* ----- what legs mean in the timetable ----- */

  /** The leg is this ride: its route and trip, from the earlier to the later stop. */
  predicate RideLegIs(q: Query, leg: Leg, l: Travel.Lift) {
    && Travel.Exists(q, l) && leg.route == l.route && leg.trip == l.trip
    && leg.s0 == q.td.routes[l.route].stops[l.from] && leg.s1 == q.td.routes[l.route].stops[l.to]
    && leg.t0 == Travel.Departs(q, l) && leg.t1 == Travel.Arrives(q, l)
  }

  /** The leg waits at a stop or takes a footpath, which a backward search takes from
      its other end. */
  ghost predicate WalkLegIs(q: Query, leg: Leg) {
    var near, far := if q.req.arriveBy then leg.s1 else leg.s0, if q.req.arriveBy then leg.s0 else leg.s1;
    && leg.route == 0xFFFF_FFFE && leg.trip == 0xFFFF_FFFE
    && ((leg.s0 == leg.s1 && leg.t0 == leg.t1)
        || TakesSomePath(q, near, far, leg.t1 - leg.t0))
  }

  ghost predicate TakesSomePath(q: Query, near: nat, far: nat, duration: int) {
    near < |q.td.stops| && exists i: nat :: TakesPath(q, near, far, i, duration)
  }

  predicate TakesPath(q: Query, near: nat, far: nat, i: nat, duration: int)
    requires near < |q.td.stops|
  {
    && i < |q.td.stops[near].transfers| && q.td.stops[near].transfers[i].target == far
    && q.td.stops[near].transfers[i].distance < |q.walks| && duration == q.walks[q.td.stops[near].transfers[i].distance]
  }

  /** A permitted ride, which does not end, for the search, at the banned stop. */
  ghost predicate LegRides(q: Query, leg: Leg, ride: Ride) {
    && Permitted(q, ride) && RideLegIs(q, leg, Travel.LiftOf(q, ride))
    && (q.req.nBannedStops > 0 ==> (if q.req.arriveBy then leg.s0 else leg.s1) != q.req.bannedStop)
  }

  ghost predicate IsRide(q: Query, leg: Leg) { exists ride :: LegRides(q, leg, ride) }

  ghost predicate LegsMean(q: Query, legs: seq<Leg>) {
    && (forall l | 0 <= l < |legs| && l % 2 == 1 :: IsRide(q, legs[l]))
    && (forall l | 0 <= l < |legs| && l % 2 == 0 && l != FirstPlace(q, legs) :: WalkLegIs(q, legs[l]))
  }

  lemma RideLegMeans(q: Query, j: Journey)
    requires Feasible(q, j) && j.Onward?
    ensures IsRide(q, RideLeg(q, j.ride))
  {
    hide WellFormed, Recordable, Boardable;
    Travel.LiftEnds(q, j.ride);
    assert LegRides(q, RideLeg(q, j.ride), j.ride);
  }

  lemma WalkLegMeans(q: Query, j: Journey)
    requires Feasible(q, j) && j.Onward?
    ensures WalkLegIs(q, LastWalk(q, j))
  {
    hide WellFormed, Permitted;
    EndsAfterRequest(q, j);
    if j.walk.Foot? {
      assert HasFootpath(q, j.walk.from, j.walk.path);
      PathIs(q, j.walk.from, j.walk.path);
      assert TakesSomePath(q, j.walk.from, EndStop(q, j), PathTime(q, j.walk.from, j.walk.path));
    }
  }

  lemma PathIs(q: Query, s: nat, i: nat)
    requires HasFootpath(q, s, i)
    ensures TakesPath(q, s, PathTarget(q, s, i), i, PathTime(q, s, i))
  {
    assert StopInBounds(q.td, q.td.stops[s]);
  }

  lemma MeanAfter(q: Query, legs: seq<Leg>, ride: Leg, walk: Leg)
    requires !q.req.arriveBy && |legs| % 2 == 1 && LegsMean(q, legs) && WalkLegIs(q, walk)
    requires IsRide(q, ride)
    ensures LegsMean(q, legs + [ride, walk])
  {
    hide IsRide, WalkLegIs;
    var all := legs + [ride, walk];
    forall l | 0 <= l < |legs| ensures all[l] == legs[l] {}
    assert all[|legs|] == ride && all[|legs| + 1] == walk;
  }

  lemma MeanBefore(q: Query, walk: Leg, ride: Leg, legs: seq<Leg>)
    requires q.req.arriveBy && |legs| % 2 == 1 && LegsMean(q, legs) && WalkLegIs(q, walk)
    requires IsRide(q, ride)
    ensures LegsMean(q, [walk, ride] + legs)
  {
    hide IsRide, WalkLegIs;
    var all := [walk, ride] + legs;
    forall l | 2 <= l < |all| ensures all[l] == legs[l - 2] {}
    assert all[0] == walk && all[1] == ride;
  }

  /** The legs of a feasible journey are permitted rides, and waits or footpaths. */
  lemma {:induction false} JourneyMeans(q: Query, j: Journey, first: Leg)
    requires Feasible(q, j)
    ensures LegsMean(q, LegsWith(q, j, first))
    decreases j
  {
    hide WellFormed, Feasible, IsRide, WalkLegIs, LegsMean, RideLeg, LastWalk;
    if j.Access? {
      AloneMeans(q, first);
    } else {
      RideTimesReached(q, j);
      JourneyMeans(q, j.prev, first);
      RideLegMeans(q, j);
      WalkLegMeans(q, j);
      var legs := LegsWith(q, j.prev, first);
      if q.req.arriveBy {
        MeanBefore(q, LastWalk(q, j), RideLeg(q, j.ride), legs);
      } else {
        MeanAfter(q, legs, RideLeg(q, j.ride), LastWalk(q, j));
      }
    }
  }

  lemma AloneMeans(q: Query, first: Leg)
    ensures LegsMean(q, [first])
  {}

  /** Every ride of the journey takes no negative time. */
  ghost predicate Advances(q: Query, j: Journey)
    requires Feasible(q, j)
    decreases j
  {
    j.Access? || (Cost(q, RideStart(q, j.ride)) <= Cost(q, RideEnd(q, j.ride)) && Advances(q, j.prev))
  }

  lemma {:induction false} AdvancesInOrder(q: Query, j: Journey, first: Leg)
    requires Feasible(q, j)
    ensures Advances(q, j) <==> RidesInOrder(LegsWith(q, j, first))
    decreases j
  {
    hide WellFormed, Feasible, LastWalk, RidesInOrder, RideLeg;
    if j.Access? {
      OneInOrder(first);
    } else {
      RideTimesReached(q, j);
      AdvancesInOrder(q, j.prev, first);
      RideOrder(q, j.ride);
      var before := LegsWith(q, j.prev, first);
      if q.req.arriveBy {
        OrderBefore(LastWalk(q, j), RideLeg(q, j.ride), before);
      } else {
        OrderAfter(before, RideLeg(q, j.ride), LastWalk(q, j));
      }
    }
  }

  lemma RideOrder(q: Query, ride: Ride)
    requires InBounds(q, ride) && RideStart(q, ride) != UNREACHED && RideEnd(q, ride) != UNREACHED
    ensures RideLeg(q, ride).t0 <= RideLeg(q, ride).t1 <==> Cost(q, RideStart(q, ride)) <= Cost(q, RideEnd(q, ride))
  {}

  lemma OneInOrder(first: Leg)
    ensures RidesInOrder([first])
  {}

  lemma OrderAfter(before: seq<Leg>, ride: Leg, walk: Leg)
    requires |before| % 2 == 1
    ensures RidesInOrder(before + [ride, walk]) <==> RidesInOrder(before) && ride.t0 <= ride.t1
  {
    var legs := before + [ride, walk];
    assert legs[|before|] == ride && forall l | 0 <= l < |before| :: legs[l] == before[l];
  }

  lemma OrderBefore(walk: Leg, ride: Leg, before: seq<Leg>)
    requires |before| % 2 == 1
    ensures RidesInOrder([walk, ride] + before) <==> RidesInOrder(before) && ride.t0 <= ride.t1
  {
    var legs := [walk, ride] + before;
    assert legs[1] == ride;
    if RidesInOrder(legs) {
      forall l | 0 <= l < |before| && l % 2 == 1 ensures before[l].t0 <= before[l].t1 {
        assert legs[l + 2] == before[l];
      }
    }
  }

  lemma RideTimesReached(q: Query, j: Journey)
    requires Feasible(q, j) && j.Onward?
    ensures Feasible(q, j.prev) && InBounds(q, j.ride) && RideStart(q, j.ride) != UNREACHED && RideEnd(q, j.ride) != UNREACHED
  {}

  lemma {:induction false} AllAdvance(q: Query, j: Journey)
    requires RidesAdvance(q) && Feasible(q, j)
    ensures Advances(q, j)
    decreases j
  {
    hide WellFormed;
    if j.Access? {
    } else {
      AllAdvance(q, j.prev);
    }
  }

  /** A feasible journey's own legs are chained exactly when its rides advance. */
  lemma JourneyChained(q: Query, j: Journey)
    requires Feasible(q, j)
    ensures Chained(Legs(q, j)) <==> Advances(q, j)
  {
    hide WellFormed, Permitted, LegsWith, FirstLeg, Spans, Linked;
    AccessFeasible(q, j);
    var first := FirstLeg(q, AccessOf(j));
    OwnFirstLeg(q, AccessOf(j));
    JourneySpans(q, j, first);
    SpansLinked(q, j, Legs(q, j));
    ChainedExactly(q, Legs(q, j));
    AdvancesInOrder(q, j, first);
    FirstOrder(q, j, first);
  }

  lemma SpansLinked(q: Query, j: Journey, legs: seq<Leg>)
    requires Feasible(q, j) && Spans(q, j, legs)
    ensures Linked(q, legs) && |legs| == 2 * Rides(j) + 1
  {}

  lemma OwnFirstLeg(q: Query, a: Journey)
    requires Feasible(q, a) && a.Access?
    ensures LeadsOut(q, EndStop(q, a), FirstLeg(q, a))
    ensures FirstLeg(q, a).t0 <= FirstLeg(q, a).t1
  {
    EndsAfterRequest(q, a);
  }

  /** When the walk out of the origin is said to end at its true time or sooner, it is
      in time for the first ride. */
  lemma {:induction false} FirstOrder(q: Query, j: Journey, first: Leg)
    requires Feasible(q, j) && Feasible(q, AccessOf(j)) && AccessOf(j).Access?
    requires first.t0 <= first.t1
    requires if q.req.arriveBy then FirstLeg(q, AccessOf(j)).t0 <= first.t0 else first.t1 <= FirstLeg(q, AccessOf(j)).t1
    ensures FirstInOrder(q, LegsWith(q, j, first))
    decreases j
  {
    hide WellFormed, Permitted, LastWalk, FirstInOrder;
    if j.Access? {
      AloneInOrder(q, first);
    } else {
      FirstOrder(q, j.prev, first);
      RideTimesReached(q, j);
      EndsAfterRequest(q, j.prev);
      FirstStays(q, LegsWith(q, j.prev, first), RideLeg(q, j.ride), LastWalk(q, j));
    }
  }

  lemma AloneInOrder(q: Query, first: Leg)
    requires first.t0 <= first.t1
    ensures FirstInOrder(q, [first])
  {}

  lemma FirstStays(q: Query, before: seq<Leg>, ride: Leg, walk: Leg)
    requires FirstInOrder(q, before)
    requires |before| == 1 ==> if q.req.arriveBy then ride.t1 <= before[0].t0 else before[0].t1 <= ride.t0
    ensures FirstInOrder(q, if q.req.arriveBy then [walk, ride] + before else before + [ride, walk])
  {
    if q.req.arriveBy {
      var legs := [walk, ride] + before;
      assert legs[|legs| - 1] == before[|before| - 1];
      if |before| > 1 { assert legs[|legs| - 2] == before[|before| - 2]; }
    }
  }

  /** The first leg can be told from the legs. */
  lemma {:induction false} FirstLegMatters(q: Query, j: Journey, a: Leg, b: Leg)
    requires Feasible(q, j)
    ensures LegsWith(q, j, a) == LegsWith(q, j, b) <==> a == b
    decreases j
  {
    hide WellFormed, Permitted, LastWalk, RideLeg;
    if j.Access? {
      assert [a][0] == a && [b][0] == b;
    } else {
      FirstLegMatters(q, j.prev, a, b);
      var two := if q.req.arriveBy then [LastWalk(q, j), RideLeg(q, j.ride)] else [RideLeg(q, j.ride), LastWalk(q, j)];
      var x, y := LegsWith(q, j.prev, a), LegsWith(q, j.prev, b);
      assert (two + x)[2..] == x && (two + y)[2..] == y && (x + two)[..|x|] == x && (y + two)[..|y|] == y;
    }
  }

  lemma RouteIsNotWalk(q: Query, ride: Ride)
    requires InBounds(q, ride)
    ensures ride.route != WALK
  {}

  /* ----- extraction ----- */

  /** The i-th footpath from a stop is its first one to the other stop. */
  predicate FirstPath(q: Query, from: nat, to: nat, i: nat) {
    && HasFootpath(q, from, i) && PathTarget(q, from, i) == to
    && forall k: nat | k < i && HasFootpath(q, from, k) :: PathTarget(q, from, k) != to
  }

  /** What the footpath table says of the way to another stop: 0 to the same stop,
      otherwise the duration of the first footpath, and UNREACHED if there is none. */
  ghost function FirstTime(q: Query, from: nat, to: nat): RTime {
    if from == to then 0
    else if exists i: nat :: FirstPath(q, from, to, i) then
      var i: nat :| FirstPath(q, from, to, i);
      PathTime(q, from, i)
    else UNREACHED
  }

  lemma OneFirstPath(q: Query, from: nat, to: nat, i: nat)
    requires from != to && FirstPath(q, from, to, i)
    ensures FirstTime(q, from, to) == PathTime(q, from, i)
  {}

  method TransferDuration(q: Query, from: nat, to: nat) returns (duration: RTime)
    requires Valid(q) && from < |q.td.stops|
    ensures duration == FirstTime(q, from, to)
    ensures from != to ==> forall i: nat | FirstPath(q, from, to, i) :: duration == PathTime(q, from, i)
    ensures from != to && (forall i: nat | HasFootpath(q, from, i) :: PathTarget(q, from, i) != to) ==> duration == UNREACHED
  {
    if from == to { return 0; }
    for t := 0 to |q.td.stops[from].transfers|
      invariant forall i: nat | i < t && HasFootpath(q, from, i) :: PathTarget(q, from, i) != to
    {
      assert HasFootpath(q, from, t) && StopInBounds(q.td, q.td.stops[from]);
      if q.td.stops[from].transfers[t].target == to {
        assert FirstPath(q, from, to, t);
        return q.walks[q.td.stops[from].transfers[t].distance];
      }
    }
    return UNREACHED;
  }

  /** The walk out of the origin as it is rebuilt from the footpath table. */
  ghost function RebuiltLeg(q: Query, stop: nat): Leg {
    WalkLeg(q, Origin(q.req), stop, q.req.time,
            WrappedShift(q.req.arriveBy, q.req.time, FirstTime(q, Origin(q.req), stop)))
  }

  /** The walk read back: from the origin, at the request time, for as long as the first
      footpath listed to its other end takes, in 16 bits. */
  ghost predicate FirstLegIs(q: Query, leg: Leg) {
    && leg.route == 0xFFFF_FFFE && leg.trip == 0xFFFF_FFFE
    && (if q.req.arriveBy then leg.s1 == q.req.to && leg.t1 == q.req.time else leg.s0 == q.req.from && leg.t0 == q.req.time)
    && exists duration: RTime :: FirstLasts(q, leg, duration)
  }

  ghost predicate FirstLasts(q: Query, leg: Leg, duration: RTime) {
    && (if q.req.arriveBy then leg.t0 == (leg.t1 - duration) % 65536 else leg.t1 == (leg.t0 + duration) % 65536)
    && if leg.s0 == leg.s1 then duration == 0
       else if q.req.arriveBy then ListedTime(q, leg.s1, leg.s0, duration) else ListedTime(q, leg.s0, leg.s1, duration)
  }

  /** The duration of the first footpath listed from one stop to the other, or 65535. */
  ghost predicate ListedTime(q: Query, from: nat, to: nat, duration: RTime) {
    && from < |q.td.stops|
    && (forall i: nat | FirstPath(q, from, to, i) :: TakesPath(q, from, to, i, duration))
    && ((forall i: nat :: !FirstPath(q, from, to, i)) ==> duration == 65535)
  }

  lemma FirstTimeListed(q: Query, from: nat, to: nat)
    requires Valid(q) && from < |q.td.stops| && from != to
    ensures ListedTime(q, from, to, FirstTime(q, from, to))
  {
    hide WellFormed, TakesPath;
    forall i: nat | FirstPath(q, from, to, i) ensures TakesPath(q, from, to, i, FirstTime(q, from, to)) {
      PathIs(q, from, i);
      OneFirstPath(q, from, to, i);
    }
  }

  lemma RebuiltMeans(q: Query, stop: nat)
    requires Valid(q)
    ensures FirstLegIs(q, RebuiltLeg(q, stop))
  {
    hide WellFormed, FirstTime, ListedTime;
    var origin := Origin(q.req);
    if origin != stop { FirstTimeListed(q, origin, stop); }
    SameStopTime(q, origin, stop);
    assert FirstLasts(q, RebuiltLeg(q, stop), FirstTime(q, origin, stop));
  }

  lemma SameStopTime(q: Query, from: nat, to: nat)
    ensures from == to ==> FirstTime(q, from, to) == 0
  {}

  /** What is read back for a journey. */
  ghost function ReadLegs(q: Query, j: Journey): (legs: seq<Leg>)
    requires Feasible(q, j)
    ensures |legs| == 2 * Rides(j) + 1
  {
    AccessFeasible(q, j);
    LegsWith(q, j, RebuiltLeg(q, EndStop(q, AccessOf(j))))
  }

  /** The same journey, staying at the origin rather than looping back to it. */
  function Direct(q: Query, j: Journey): Journey {
    match j
    case Access(w) => if WalkExists(q, w) && WalkTo(q, w) == w.from then Access(Stay(w.from)) else j
    case Onward(prev, ride, w) => Onward(Direct(q, prev), ride, w)
  }

  lemma {:induction false} DirectDecodes(q: Query, rows: seq<Row>, s: nat, j: Journey)
    requires Feasible(q, j) && Decodes(q, rows, s, j)
    ensures Feasible(q, Direct(q, j)) && Decodes(q, rows, s, Direct(q, j))
    ensures EndStop(q, Direct(q, j)) == EndStop(q, j) && Rides(Direct(q, j)) == Rides(j)
    ensures Cost(q, EndTime(q, Direct(q, j))) <= Cost(q, EndTime(q, j))
    ensures j.Onward? ==> EndTime(q, Direct(q, j)) == EndTime(q, j)
    ensures Direct(q, Direct(q, j)) == Direct(q, j)
    decreases j
  {
    hide WellFormed, Permitted;
    if j.Onward? {
      DirectDecodes(q, rows[..|rows| - 1], rows[|rows| - 1][j.walk.from].backStop, j.prev);
    } else {
      WalkCosts(q, j.walk, q.req.time);
    }
  }

  function WalkDuration(q: Query, w: Walk): RTime
    requires WalkExists(q, w)
  { if w.Stay? then 0 else PathTime(q, w.from, w.path) }

  /** The walk out of the origin is rebuilt right exactly when the footpath table's
      first entry for its stop takes as long as the walk. */
  lemma FirstLegRebuilt(q: Query, a: Journey)
    requires Feasible(q, a) && a.Access?
    ensures RebuiltLeg(q, EndStop(q, a)) == FirstLeg(q, a)
       <==> FirstTime(q, Origin(q.req), EndStop(q, a)) == WalkDuration(q, a.walk)
  {
    EndsAfterRequest(q, a);
    var first, own := FirstTime(q, Origin(q.req), EndStop(q, a)), WalkDuration(q, a.walk);
    WalkTestsAreExact(q.req.arriveBy, q.req.time, own);
    ShiftTells(q.req.arriveBy, q.req.time, first, own);
  }

  lemma ShiftTells(arriveBy: bool, t: RTime, a: RTime, b: RTime)
    ensures WrappedShift(arriveBy, t, a) == WrappedShift(arriveBy, t, b) <==> a == b
  {
    WalkTestsAreExact(arriveBy, t, a);
    WalkTestsAreExact(arriveBy, t, b);
  }

  /** What is read back is the journey exactly in that case. */
  lemma ReadExactly(q: Query, j: Journey)
    requires Feasible(q, j)
    ensures Feasible(q, AccessOf(j)) && AccessOf(j).Access?
    ensures ReadLegs(q, j) == Legs(q, j)
       <==> FirstTime(q, Origin(q.req), EndStop(q, AccessOf(j))) == WalkDuration(q, AccessOf(j).walk)
  {
    hide WellFormed, Permitted, LegsWith, FirstLeg, RebuiltLeg;
    AccessFeasible(q, j);
    FirstLegRebuilt(q, AccessOf(j));
    FirstLegMatters(q, j, RebuiltLeg(q, EndStop(q, AccessOf(j))), FirstLeg(q, AccessOf(j)));
  }

  /** The footpath table lists a fastest footpath first for every stop that can be
      walked to from the origin. */
  ghost predicate FastestFirst(q: Query) {
    forall s: nat, i: nat, k: nat |
      FirstPath(q, Origin(q.req), s, i) && HasFootpath(q, Origin(q.req), k) && PathTarget(q, Origin(q.req), k) == s ::
      PathTime(q, Origin(q.req), i) <= PathTime(q, Origin(q.req), k)
  }

  /** With fastest footpaths first, the walk read back is in time. */
  lemma FastestInTime(q: Query, j: Journey)
    requires FastestFirst(q) && Feasible(q, j)
    ensures FirstInOrder(q, ReadLegs(q, j))
  {
    hide WellFormed, Permitted, LegsWith, FastestFirst;
    AccessFeasible(q, j);
    var a := AccessOf(j);
    FastestNoLater(q, a);
    FirstOrder(q, j, RebuiltLeg(q, EndStop(q, a)));
  }

  lemma FastestNoLater(q: Query, a: Journey)
    requires FastestFirst(q) && Feasible(q, a) && a.Access?
    ensures var first := RebuiltLeg(q, EndStop(q, a));
            && first.t0 <= first.t1
            && if q.req.arriveBy then FirstLeg(q, a).t0 <= first.t0 else first.t1 <= FirstLeg(q, a).t1
  {
    hide WellFormed;
    EndsAfterRequest(q, a);
    var s, own := EndStop(q, a), WalkDuration(q, a.walk);
    if a.walk.Foot? && s != Origin(q.req) {
      var i := LeastPath(q, Origin(q.req), s, a.walk.path);
      OneFirstPath(q, Origin(q.req), s, i);
    }
    assert FirstTime(q, Origin(q.req), s) <= own;
    WalkTestsAreExact(q.req.arriveBy, q.req.time, FirstTime(q, Origin(q.req), s));
    WalkTestsAreExact(q.req.arriveBy, q.req.time, own);
  }

  lemma LeastPath(q: Query, from: nat, to: nat, k: nat) returns (i: nat)
    requires HasFootpath(q, from, k) && PathTarget(q, from, k) == to
    ensures FirstPath(q, from, to, i) && i <= k
  {
    i := 0;
    while PathTarget(q, from, i) != to
      invariant i <= k && forall m: nat | m < i :: HasFootpath(q, from, m) && PathTarget(q, from, m) != to
      decreases k - i
    {
      i := i + 1;
    }
  }

  /** One step along the back pointers takes the last ride and walk off a journey. */
  lemma PointersAgree(q: Query, rows: seq<Row>, round: nat, stop: nat, j: Journey)
    requires round < |rows| && |rows[round]| == |q.td.stops| && Rides(j) == round + 1
    requires Feasible(q, j) && Decodes(q, rows[..round + 1], stop, j) && Direct(q, j) == j
    ensures j.Onward? && InBounds(q, j.ride) && stop < |rows[round]| && rows[round][stop].walkFrom < |rows[round]|
    ensures var walk := rows[round][stop];
            var ride := rows[round][walk.walkFrom];
            && walk.walkTime != UNREACHED && ride.time != UNREACHED
            && LastWalk(q, j) == WalkLeg(q, walk.walkFrom, stop, ride.time, walk.walkTime)
            && RideLeg(q, j.ride) == Oriented(q, Leg(ride.backStop, walk.walkFrom, ride.boardTime, ride.time, ride.backRoute, ride.backTrip))
            && Feasible(q, j.prev) && Decodes(q, rows[..round], ride.backStop, j.prev) && Direct(q, j.prev) == j.prev
  {
    hide WellFormed, Permitted;
    assert rows[..round + 1][..round] == rows[..round];
    EndsAfterRequest(q, j);
  }

  lemma FillForward(slots: seq<Leg>, l: nat, walk: Leg, ride: Leg, rest: seq<Leg>)
    requires l + 1 < |slots|
    ensures slots[..l] + ([walk, ride] + rest) == slots[l := walk][l + 1 := ride][..l + 2] + rest
  {}

  lemma FillBackward(slots: seq<Leg>, l: nat, walk: Leg, ride: Leg, rest: seq<Leg>)
    requires 1 <= l < |slots|
    ensures (rest + [ride, walk]) + slots[l + 1..] == rest + slots[l := walk][l - 1 := ride][l - 1..]
  {}

  /** The label that is left at the target when no round was run: a walk out of the
      origin, whose ride fields lead nowhere. */
  ghost predicate Unridden(q: Query, rows: seq<Row>, nTransfers: nat) {
    && Valid(q) && nTransfers == 1 < |rows| && |rows[1]| == |q.td.stops|
    && rows[1][Target(q.req)].walkTime != UNREACHED && rows[1][Target(q.req)].walkFrom == Origin(q.req)
    && rows[1][Origin(q.req)].time != UNREACHED && rows[1][Origin(q.req)].backStop == NONE
  }

  /** Follow the back pointers from the target's label in one round.  When a journey
      is behind it, the error branches are never taken, and the legs are those of
      the journey, with its first walk rebuilt from the footpath table; otherwise the
      error is reported. */
  method ReadItinerary(router: Router, q: Query, nTransfers: nat, ghost j: Option<Journey>) returns (legs: seq<Leg>, ok: bool)
    requires router.Ready(q) && nTransfers < MAX_ROUNDS
    requires if j.None? then Unridden(q, router.rows, nTransfers) else Behind(q, router.rows, nTransfers, j.value)
    requires j.Some? ==> router.rows[0][Origin(q.req)].time == q.req.time
    ensures ok <==> j.Some?
    ensures ok ==> legs == ReadLegs(q, j.value)
  {
    hide WellFormed, Permitted, Feasible, Decodes, Direct, WalkLeg, RideLeg, LastWalk, FirstLeg, Oriented, FirstTime, LegsWith;
    var slots, l, stop;
    ghost var rest, writes;
    slots, l, stop, rest, writes, ok := FollowPointers(router, q, nTransfers, j);
    var originStop := Origin(q.req);
    var t0 := router.states[0, originStop].time;
    var duration := TransferDuration(q, originStop, stop);
    legs := slots[l := WalkLeg(q, originStop, stop, t0, WrappedShift(q.req.arriveBy, t0, duration))];
  }

  /** Journey j is what the label at the target in this round decodes to. */
  ghost predicate Behind(q: Query, rows: seq<Row>, round: nat, j: Journey) {
    && round < |rows| && Feasible(q, j) && Decodes(q, rows[..round + 1], Target(q.req), j)
    && Direct(q, j) == j && Rides(j) == round + 1
  }

  /** The loop over the rounds.  With a journey behind the label it fills every slot
      but the one of the first walk, each exactly once. */
  method FollowPointers(router: Router, q: Query, nTransfers: nat, ghost j: Option<Journey>)
    returns (slots: seq<Leg>, l: nat, stop: nat, ghost rest: Journey, ghost writes: multiset<nat>, ok: bool)
    requires router.Ready(q) && nTransfers < MAX_ROUNDS
    requires if j.None? then Unridden(q, router.rows, nTransfers) else Behind(q, router.rows, nTransfers, j.value)
    ensures |slots| == 2 * nTransfers + 3 && l < |slots|
    ensures ok <==> j.Some?
    ensures ok ==> l == if q.req.arriveBy then |slots| - 1 else 0
    ensures ok ==> forall i: nat :: writes[i] == if i < |slots| && i != l then 1 else 0
    ensures ok ==> slots[l := RebuiltLeg(q, stop)] == ReadLegs(q, j.value)
  {
    hide WellFormed, Permitted, Feasible, Decodes, Direct, WalkLeg, RideLeg, LastWalk, FirstLeg, Oriented, ReadLegs, RebuiltLeg, Rest;
    var nLegs := (nTransfers + 1) * 2 + 1;
    slots, writes, ok := seq(nLegs, _ => Leg(0, 0, 0, 0, 0, 0)), multiset{}, true;
    l := if q.req.arriveBy then 0 else nLegs - 1;
    stop := Target(q.req);
    var round: int := nTransfers;
    FewStops(q);
    if j.Some? {
      rest := j.value;
      RestStarts(q, router.rows, nTransfers, slots, l, stop, rest);
    } else {
      rest := Access(Stay(0));
    }
    while round >= 0
      invariant -1 <= round <= nTransfers && ok && |slots| == nLegs
      invariant l == if q.req.arriveBy then nLegs - 1 - 2 * (round + 1) else 2 * (round + 1)
      invariant forall i: nat :: writes[i] == if (if q.req.arriveBy then i < l else l < i < nLegs) then 1 else 0
      invariant j.Some? ==> Rest(q, router.rows, round, slots, l, stop, rest, j.value)
      invariant j.None? ==> if round == 1 then stop == Target(q.req) else round == 0 && stop == NONE
    {
      if j.Some? { RestStep(q, router.rows, round, slots, l, stop, rest, j.value); }
      if stop > |q.td.stops| { ok := false; break; }
      var walk := router.states[round, stop];
      if walk.walkTime == UNREACHED { ok := false; break; }
      var walkStop := stop;
      stop := walk.walkFrom;
      var ride := router.states[round, stop];
      if ride.time == UNREACHED { ok := false; break; }
      var rideStop := stop;
      stop := ride.backStop;
      slots := slots[l := WalkLeg(q, walk.walkFrom, walkStop, ride.time, walk.walkTime)];
      writes := writes + multiset{l};
      l := if q.req.arriveBy then l + 1 else l - 1;
      slots := slots[l := Oriented(q, Leg(ride.backStop, rideStop, ride.boardTime, ride.time, ride.backRoute, ride.backTrip))];
      writes := writes + multiset{l};
      l := if q.req.arriveBy then l + 1 else l - 1;
      if j.Some? { rest := rest.prev; }
      round := round - 1;
    }
    if j.Some? { RestDone(q, router.rows, slots, l, stop, rest, j.value); }
  }

  /** What is left to read: the journey's earlier part, whose legs together with the
      slots filled so far are those of the whole. */
  ghost predicate Rest(q: Query, rows: seq<Row>, round: int, slots: seq<Leg>, l: nat, stop: nat, rest: Journey, j: Journey) {
    && -1 <= round < |rows| && l < |slots| && Feasible(q, j)
    && Feasible(q, rest) && Direct(q, rest) == rest && Rides(rest) == round + 1 && AccessOf(rest) == AccessOf(j)
    && Decodes(q, rows[..round + 1], stop, rest)
    && ReadLegs(q, j) == if q.req.arriveBy then slots[..l] + ReadLegs(q, rest) else ReadLegs(q, rest) + slots[l + 1..]
  }

  lemma RestStarts(q: Query, rows: seq<Row>, round: nat, slots: seq<Leg>, l: nat, stop: nat, j: Journey)
    requires Behind(q, rows, round, j) && stop == Target(q.req) && slots != []
    requires l == if q.req.arriveBy then 0 else |slots| - 1
    ensures Rest(q, rows, round, slots, l, stop, j, j)
  {
    hide WellFormed, Permitted, Feasible, Decodes, Direct, ReadLegs;
  }

  /** One step back reads one ride and one walk. */
  lemma RestStep(q: Query, rows: seq<Row>, round: nat, slots: seq<Leg>, l: nat, stop: nat, rest: Journey, j: Journey)
    requires Rest(q, rows, round, slots, l, stop, rest, j) && |rows[round]| == |q.td.stops|
    requires if q.req.arriveBy then l + 2 < |slots| else 2 <= l
    ensures rest.Onward? && stop < |rows[round]| && rows[round][stop].walkFrom < |rows[round]|
    ensures var walk := rows[round][stop];
            var ride := rows[round][walk.walkFrom];
            && walk.walkTime != UNREACHED && ride.time != UNREACHED
            && var first := slots[l := WalkLeg(q, walk.walkFrom, stop, ride.time, walk.walkTime)];
               var l1 := if q.req.arriveBy then l + 1 else l - 1;
               var both := first[l1 := Oriented(q, Leg(ride.backStop, walk.walkFrom, ride.boardTime, ride.time, ride.backRoute, ride.backTrip))];
               Rest(q, rows, round - 1, both, if q.req.arriveBy then l1 + 1 else l1 - 1, ride.backStop, rest.prev, j)
  {
    hide WellFormed, Permitted, Feasible, Decodes, Direct, WalkLeg, RideLeg, LastWalk, FirstLeg, Oriented, ReadLegs;
    PointersAgree(q, rows, round, stop, rest);
    ReadUnfolds(q, rest);
    if q.req.arriveBy {
      FillForward(slots, l, LastWalk(q, rest), RideLeg(q, rest.ride), ReadLegs(q, rest.prev));
    } else {
      FillBackward(slots, l, LastWalk(q, rest), RideLeg(q, rest.ride), ReadLegs(q, rest.prev));
    }
  }

  lemma ReadUnfolds(q: Query, j: Journey)
    requires Feasible(q, j) && j.Onward? && InBounds(q, j.ride) && Feasible(q, j.prev)
    ensures ReadLegs(q, j) ==
              if q.req.arriveBy then [LastWalk(q, j), RideLeg(q, j.ride)] + ReadLegs(q, j.prev)
              else ReadLegs(q, j.prev) + [RideLeg(q, j.ride), LastWalk(q, j)]
  {
    hide WellFormed, Permitted, RebuiltLeg, LastWalk, RideLeg;
  }

  lemma RestDone(q: Query, rows: seq<Row>, slots: seq<Leg>, l: nat, stop: nat, rest: Journey, j: Journey)
    requires Rest(q, rows, -1, slots, l, stop, rest, j) && l == if q.req.arriveBy then |slots| - 1 else 0
    ensures Feasible(q, j) && slots[l := RebuiltLeg(q, stop)] == ReadLegs(q, j)
  {
    hide WellFormed, Feasible, RebuiltLeg, ReadLegs;
    assert rest.Access? && EndStop(q, rest) == stop by { DecodedAccess(q, rows[..0], stop, rest); }
    ReadAccess(q, rest);
  }

  lemma DecodedAccess(q: Query, rows: seq<Row>, stop: nat, j: Journey)
    requires Feasible(q, j) && Decodes(q, rows, stop, j) && Rides(j) == 0
    ensures j.Access? && EndStop(q, j) == stop
  {}

  lemma ReadAccess(q: Query, j: Journey)
    requires Feasible(q, j) && j.Access?
    ensures ReadLegs(q, j) == [RebuiltLeg(q, EndStop(q, j))]
  {
    hide Feasible, RebuiltLeg;
  }

  datatype Itinerary = Itinerary(nRides: nat, legs: seq<Leg>)

  /** The rounds before k that left a walk label at stop s. */
  function LabelledRounds(rows: seq<Row>, s: nat, k: nat): (rounds: seq<nat>)
    requires k <= |rows| && forall i | 0 <= i < |rows| :: s < |rows[i]|
    ensures forall i | 0 <= i < |rounds| :: rounds[i] < k && rows[rounds[i]][s].walkTime != UNREACHED
    ensures forall i, i' | 0 <= i < i' < |rounds| :: rounds[i] < rounds[i']
    ensures forall r: nat | r < k && rows[r][s].walkTime != UNREACHED :: r in rounds
  {
    if k == 0 then []
    else LabelledRounds(rows, s, k - 1) + if rows[k - 1][s].walkTime != UNREACHED then [k - 1] else []
  }

  /** The itinerary is what is read back for a journey that explains the target's label
      in that round. */
  ghost predicate ItineraryOf(q: Query, rows: seq<Row>, round: nat, itin: Itinerary, j: Journey)
    requires round < |rows|
  {
    && Target(q.req) < |rows[round]|
    && Explains(q, rows[..round + 1], Target(q.req), rows[round][Target(q.req)].walkTime, j)
    && itin.nRides == round + 1 == Rides(j) && itin.legs == ReadLegs(q, j)
  }

  /** One itinerary for each round that reached the target, fewest rides first. */
  ghost predicate PlanOf(q: Query, rows: seq<Row>, k: nat, plan: seq<Itinerary>)
    requires k <= |rows| && forall i | 0 <= i < |rows| :: Target(q.req) < |rows[i]|
  {
    ItinerariesFor(q, rows, LabelledRounds(rows, Target(q.req), k), plan)
  }

  ghost predicate ItinerariesFor(q: Query, rows: seq<Row>, rounds: seq<nat>, plan: seq<Itinerary>) {
    && |plan| == |rounds|
    && forall i | 0 <= i < |plan| :: rounds[i] < |rows| && exists j :: ItineraryOf(q, rows, rounds[i], plan[i], j)
  }

  lemma PlanGrows(q: Query, rows: seq<Row>, k: nat, plan: seq<Itinerary>, itin: Itinerary, j: Journey)
    requires k < |rows| && forall i | 0 <= i < |rows| :: Target(q.req) < |rows[i]|
    requires PlanOf(q, rows, k, plan) && rows[k][Target(q.req)].walkTime != UNREACHED
    requires ItineraryOf(q, rows, k, itin, j)
    ensures PlanOf(q, rows, k + 1, plan + [itin])
  {
    hide Explains, ReadLegs, ItineraryOf;
    var rounds, rounds' := LabelledRounds(rows, Target(q.req), k), LabelledRounds(rows, Target(q.req), k + 1);
    var plan' := plan + [itin];
    assert rounds' == rounds + [k];
    assert ItinerariesFor(q, rows, rounds, plan);
    forall i | 0 <= i < |plan'| ensures rounds'[i] < |rows| && exists j' :: ItineraryOf(q, rows, rounds'[i], plan'[i], j') {
      if i < |plan| {
        assert rounds'[i] == rounds[i] && plan'[i] == plan[i];
      } else {
        assert ItineraryOf(q, rows, rounds'[i], plan'[i], j);
      }
    }
  }

  lemma PlanKept(q: Query, rows: seq<Row>, k: nat, plan: seq<Itinerary>)
    requires k < |rows| && forall i | 0 <= i < |rows| :: Target(q.req) < |rows[i]|
    requires PlanOf(q, rows, k, plan) && rows[k][Target(q.req)].walkTime == UNREACHED
    ensures PlanOf(q, rows, k + 1, plan)
  {
    assert LabelledRounds(rows, Target(q.req), k + 1) == LabelledRounds(rows, Target(q.req), k);
  }

  /** Turn the tables of a completed search into a plan.  It fails exactly when no
      round was run and the initial state reached the target. */
  method ResultToPlan(router: Router, q: Query, n: nat) returns (plan: seq<Itinerary>, ok: bool)
    requires router.Ready(q) && Settled(q, n, router.rows, router.best)
    ensures ok <==> n > 0 || router.rows[1][Target(q.req)].walkTime == UNREACHED
    ensures ok ==> PlanOf(q, router.rows, MAX_ROUNDS, plan)
  {
    hide WellFormed, Permitted, Explains, Feasible, ReadLegs, Settled, Behind, PlanOf;
    plan, ok := [], true;
    var target := Target(q.req);
    ReadyToPlan(q, n, router.rows, router.best);
    for round := 0 to MAX_ROUNDS
      invariant ok <==> n > 0 || round <= 1 || router.rows[1][target].walkTime == UNREACHED
      invariant ok ==> PlanOf(q, router.rows, round, plan)
    {
      if router.states[round, target].walkTime == UNREACHED {
        if ok { PlanKept(q, router.rows, round, plan); }
        continue;
      }
      LabelledBeforeEnd(q, n, router.rows, router.best, round);
      ghost var j := None;
      if round < n {
        var behind := LabelJourney(q, n, router.rows, router.best, round);
        j := Some(behind);
      }
      var legs, read := ReadItinerary(router, q, round, j);
      if ok && read {
        PlanGrows(q, router.rows, round, plan, Itinerary(round + 1, legs), j.value);
      }
      ok := ok && read;
      plan := plan + [Itinerary(round + 1, legs)];
    }
  }

  /** Asking for the largest number of transfers is such a case: the number of
      rounds wraps to 0, and if the target can be walked to, the plan fails. */
  lemma UnlimitedTransfersFail(q: Query, rows: seq<Row>, best: seq<RTime>)
    requires Settled(q, RoundCount(q.req), rows, best) && q.req.maxTransfers == 0xFFFF_FFFF
    requires q.req.time != UNREACHED && !Banned(q, Origin(q.req))
    ensures RoundCount(q.req) == 0 && rows[1][Target(q.req)].walkTime == best[Target(q.req)]
    ensures q.req.from == q.req.to ==> rows[1][Target(q.req)].walkTime == q.req.time
  {
    hide WellFormed, Traced;
  }

  lemma ReadyToPlan(q: Query, n: nat, rows: seq<Row>, best: seq<RTime>)
    requires Settled(q, n, rows, best)
    ensures Valid(q) && |rows| == MAX_ROUNDS && forall i | 0 <= i < MAX_ROUNDS :: |rows[i]| == |q.td.stops|
    ensures rows[0][Origin(q.req)].time == q.req.time
    ensures PlanOf(q, rows, 0, [])
  {}

  /** The journey, straight out of the origin, behind a label at the target. */
  lemma LabelJourney(q: Query, n: nat, rows: seq<Row>, best: seq<RTime>, round: nat) returns (j: Journey)
    requires Settled(q, n, rows, best) && round < n
    requires rows[round][Target(q.req)].walkTime != UNREACHED
    ensures Explains(q, rows[..round + 1], Target(q.req), rows[round][Target(q.req)].walkTime, j)
    ensures Behind(q, rows, round, j) && Rides(j) == round + 1
  {
    hide WellFormed, Permitted, Ordered, Feasible;
    var s := Target(q.req);
    assert RowSound(q, rows[..round + 1], rows[round]);
    var j0 :| Explains(q, rows[..round + 1], s, rows[round][s].walkTime, j0);
    DirectDecodes(q, rows[..round + 1], s, j0);
    DecodedRides(q, rows[..round + 1], s, j0);
    j := Direct(q, j0);
  }

  /** A label at the target is that of a completed round, or the initial state's. */
  lemma LabelledBeforeEnd(q: Query, n: nat, rows: seq<Row>, best: seq<RTime>, r: nat)
    requires Settled(q, n, rows, best) && r < MAX_ROUNDS
    requires Target(q.req) < |rows[r]| && rows[r][Target(q.req)].walkTime != UNREACHED
    ensures r < n || (n == 0 && Unridden(q, rows, r))
  {
    hide WellFormed, Ordered;
    if n == 0 {
      assert r == 1;
      assert RowSound(q, rows[..0], rows[1]);
    }
  }

  /* ----- what every plan satisfies ----- */

  function TargetTime(q: Query, itin: Itinerary): RTime
    requires itin.legs != []
  {
    if q.req.arriveBy then itin.legs[0].t0 else itin.legs[|itin.legs| - 1].t1
  }

  /** The itinerary links the places of the request, from or until its time. */
  predicate Joins(q: Query, itin: Itinerary) {
    && Linked(q, itin.legs) && |itin.legs| == 2 * itin.nRides + 1
    && itin.legs[0].s0 == q.req.from && itin.legs[|itin.legs| - 1].s1 == q.req.to
    && q.req.time == if q.req.arriveBy then itin.legs[|itin.legs| - 1].t1 else itin.legs[0].t0
  }

  /** And all its times are in order. */
  predicate Connects(q: Query, itin: Itinerary) { Joins(q, itin) && Chained(itin.legs) }

  /** More rides pay off by a strictly better time at the target. */
  predicate Pareto(q: Query, a: Itinerary, b: Itinerary) {
    a.legs != [] && b.legs != [] && |a.legs| < |b.legs| && Better(q, TargetTime(q, b), TargetTime(q, a))
  }

  /** Nothing is wrong with the order of times but what can be: a ride that goes back
      in time, or a first footpath too slow for the first ride. */
  predicate ConnectsExactly(q: Query, itin: Itinerary) {
    Joins(q, itin) && (Connects(q, itin) <==> RidesInOrder(itin.legs) && FirstInOrder(q, itin.legs))
  }

  /** The itinerary's legs in the timetable's own terms: permitted rides, waits and
      footpaths, and the rebuilt first walk.  A search from the banned stop finds none. */
  ghost predicate ItineraryMeans(q: Query, itin: Itinerary) {
    && itin.legs != [] && LegsMean(q, itin.legs) && FirstLegIs(q, itin.legs[FirstPlace(q, itin.legs)])
    && (q.req.nBannedStops > 0 ==> (if q.req.arriveBy then q.req.to else q.req.from) != q.req.bannedStop)
  }

  lemma {:induction false} FirstLegThere(q: Query, j: Journey, first: Leg)
    requires Feasible(q, j)
    ensures var legs := LegsWith(q, j, first); legs[FirstPlace(q, legs)] == first
    decreases j
  {
    hide WellFormed, Feasible, RideLeg, LastWalk;
    if j.Access? {
    } else {
      RideTimesReached(q, j);
      FirstLegThere(q, j.prev, first);
    }
  }

  /** A plan read from completed rounds has the invariants its checker looks for: all
      of them when rides advance and fastest footpaths come first, and otherwise all
      that do not depend on the order within a ride or on the first walk. */
  lemma PlanInvariants(q: Query, n: nat, rows: seq<Row>, best: seq<RTime>, plan: seq<Itinerary>)
    requires Settled(q, n, rows, best) && PlanOf(q, rows, MAX_ROUNDS, plan)
    ensures forall i | 0 <= i < |plan| :: ConnectsExactly(q, plan[i])
    ensures forall i | 0 <= i < |plan| && RidesAdvance(q) :: RidesInOrder(plan[i].legs)
    ensures forall i | 0 <= i < |plan| && FastestFirst(q) :: FirstInOrder(q, plan[i].legs)
    ensures forall i, i' | 0 <= i < i' < |plan| :: Pareto(q, plan[i], plan[i'])
    ensures forall i | 0 <= i < |plan| :: ItineraryMeans(q, plan[i])
  {
    hide ItineraryMeans, Settled, RidesAdvance, FastestFirst, WellFormed, PlanOf, ConnectsExactly, RidesInOrder, FirstInOrder, Pareto;
    ReadyToPlan(q, n, rows, best);
    forall i | 0 <= i < |plan|
      ensures ConnectsExactly(q, plan[i])
      ensures RidesAdvance(q) ==> RidesInOrder(plan[i].legs)
      ensures FastestFirst(q) ==> FirstInOrder(q, plan[i].legs)
      ensures ItineraryMeans(q, plan[i])
    {
      PlanItem(q, rows, plan, i);
    }
    forall i, i' | 0 <= i < i' < |plan| ensures Pareto(q, plan[i], plan[i']) {
      PlanPair(q, n, rows, best, plan, i, i');
    }
  }

  lemma PlanItem(q: Query, rows: seq<Row>, plan: seq<Itinerary>, i: nat)
    requires |rows| == MAX_ROUNDS && forall i | 0 <= i < |rows| :: Target(q.req) < |rows[i]|
    requires PlanOf(q, rows, MAX_ROUNDS, plan) && i < |plan|
    ensures var rounds := LabelledRounds(rows, Target(q.req), MAX_ROUNDS);
            && |plan| == |rounds| && plan[i].nRides == rounds[i] + 1 && |plan[i].legs| == 2 * plan[i].nRides + 1
            && TargetTime(q, plan[i]) == rows[rounds[i]][Target(q.req)].walkTime
    ensures ConnectsExactly(q, plan[i]) && ItineraryMeans(q, plan[i])
    ensures RidesAdvance(q) ==> RidesInOrder(plan[i].legs)
    ensures FastestFirst(q) ==> FirstInOrder(q, plan[i].legs)
  {
    hide ItineraryMeans, RidesAdvance, FastestFirst, WellFormed, ItineraryOf, ConnectsExactly, RidesInOrder, FirstInOrder;
    var rounds := LabelledRounds(rows, Target(q.req), MAX_ROUNDS);
    var j := BehindItinerary(q, rows, plan, i);
    ItineraryConnects(q, rows, rounds[i], plan[i], j);
  }

  /** The journey behind an itinerary of the plan. */
  lemma BehindItinerary(q: Query, rows: seq<Row>, plan: seq<Itinerary>, i: nat) returns (j: Journey)
    requires |rows| == MAX_ROUNDS && forall i | 0 <= i < |rows| :: Target(q.req) < |rows[i]|
    requires PlanOf(q, rows, MAX_ROUNDS, plan) && i < |plan|
    ensures var rounds := LabelledRounds(rows, Target(q.req), MAX_ROUNDS);
            |plan| == |rounds| && ItineraryOf(q, rows, rounds[i], plan[i], j)
  {
    hide WellFormed, ItineraryOf;
    var rounds := LabelledRounds(rows, Target(q.req), MAX_ROUNDS);
    assert ItinerariesFor(q, rows, rounds, plan);
    assert rounds[i] < |rows| && exists j :: ItineraryOf(q, rows, rounds[i], plan[i], j);
    j :| ItineraryOf(q, rows, rounds[i], plan[i], j);
  }

  lemma PlanPair(q: Query, n: nat, rows: seq<Row>, best: seq<RTime>, plan: seq<Itinerary>, i: nat, i': nat)
    requires Settled(q, n, rows, best) && PlanOf(q, rows, MAX_ROUNDS, plan) && i < i' < |plan|
    ensures Pareto(q, plan[i], plan[i'])
  {
    hide Settled, WellFormed, PlanOf, ConnectsExactly, ItineraryMeans, RidesAdvance, FastestFirst, RidesInOrder, FirstInOrder;
    ReadyToPlan(q, n, rows, best);
    var rounds := LabelledRounds(rows, Target(q.req), MAX_ROUNDS);
    PlanItem(q, rows, plan, i);
    PlanItem(q, rows, plan, i');
    LabelsImprove(q, n, rows, best, rounds[i], rounds[i']);
  }

  /** Of two rounds with a label at the target, the later one's is better. */
  lemma LabelsImprove(q: Query, n: nat, rows: seq<Row>, best: seq<RTime>, r: nat, r': nat)
    requires Settled(q, n, rows, best) && r < r' < MAX_ROUNDS
    requires Target(q.req) < |rows[r]| && Target(q.req) < |rows[r']|
    requires rows[r][Target(q.req)].walkTime != UNREACHED && rows[r'][Target(q.req)].walkTime != UNREACHED
    ensures Cost(q, rows[r'][Target(q.req)].walkTime) < Cost(q, rows[r][Target(q.req)].walkTime)
  {
    hide Traced, WellFormed, BelowRow, WithinDays;
    LabelledBeforeEnd(q, n, rows, best, r);
    LabelledBeforeEnd(q, n, rows, best, r');
    if r' < n { assert Improves(q, rows[r], rows[r']); }
  }

  lemma ItineraryConnects(q: Query, rows: seq<Row>, round: nat, itin: Itinerary, j: Journey)
    requires round < |rows| && ItineraryOf(q, rows, round, itin, j)
    ensures ConnectsExactly(q, itin) && ItineraryMeans(q, itin) && itin.nRides == round + 1 && |itin.legs| == 2 * itin.nRides + 1
    ensures TargetTime(q, itin) == rows[round][Target(q.req)].walkTime
    ensures RidesAdvance(q) ==> RidesInOrder(itin.legs)
    ensures FastestFirst(q) ==> FirstInOrder(q, itin.legs)
  {
    hide WellFormed, Permitted, RidesAdvance, FastestFirst, Decodes, LegsWith, RidesInOrder, FirstInOrder, Linked, Chained,
         LegsMean, FirstLegIs;
    AccessFeasible(q, j);
    assert !Banned(q, Origin(q.req));
    var first := RebuiltLeg(q, EndStop(q, AccessOf(j)));
    RebuiltMeans(q, EndStop(q, AccessOf(j)));
    JourneyMeans(q, j, first);
    FirstLegThere(q, j, first);
    assert LeadsOut(q, EndStop(q, AccessOf(j)), first);
    JourneySpans(q, j, first);
    ChainedExactly(q, itin.legs);
    AdvancesInOrder(q, j, first);
    if RidesAdvance(q) { AllAdvance(q, j); }
    if FastestFirst(q) { FastestInTime(q, j); }
  }
}
