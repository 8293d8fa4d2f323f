/** Requests at the limits of what is promised: one for fewest transfers that ends up
    departing too early, one at time 0 that loses its answer, one to which a delay
    gives a ride back in time, and one whose first walk is read back too slow. */
module Limits {
  import opened Rtime
  import opened Timetables
  import opened Journeys
  import opened Search
  import opened Ideals
  import opened Scans
  import opened Rounds
  import opened Optimality
  import opened Reversals
  import opened Plans

  /* ----- fewest transfers ----- */

  /** A line from stop 0 to stop 1 and one from there to stop 2, connecting at once;
      and a slow footpath between stops 0 and 1. */
  const TWO_LINES: Timetable :=
    var both := {RSA_BOARDING, RSA_ALIGHTING};
    Timetable(
      [Stop([0], [Transfer(1, 25)]), Stop([0, 1], [Transfer(0, 25)]), Stop([1], [])],
      [Route([0, 1], [both, both], [Trip([StopTime(0, 0), StopTime(50, 50)], 9000, 0, {5}, {})], {0}, 0, {5}, 9000, 9050),
       Route([1, 2], [both, both], [Trip([StopTime(0, 0), StopTime(100, 100)], 9050, 0, {5}, {})], {0}, 0, {5}, 9050, 9150)])

  const FEWEST: Request :=
    Request(0, 2, NONE, 30600, UNREACHED, 1.0, 0, false, 5, {5}, {0}, AGENCY_UNFILTERED, {}, true, 0, 0, 0, 0, 0, 0)

  /** Searches of this timetable that differ from the request at most in direction,
      time, cutoff and number of transfers. */
  predicate OnTwoLines(q: Query) {
    && q == QueryFor(TWO_LINES, FEWEST.(arriveBy := q.req.arriveBy, time := q.req.time, timeCutoff := q.req.timeCutoff,
                                        maxTransfers := q.req.maxTransfers), {})
    && InRange(q.req.time)
  }

  /** When the only trip of route r calls at its p-th stop. */
  function CallTime(r: nat, p: nat): RTime
    requires r < 2 && p < 2
  { 30600 + (if p == 0 then 0 else 50) + if r == 0 then 0 else if p == 0 then 50 else 100 }

  lemma Walking(q: Query)
    requires OnTwoLines(q)
    ensures Valid(q) && q.walks[25] == 100 && |q.td.stops| == 3
    ensures forall s: nat, i: nat :: HasFootpath(q, s, i) <==> s < 2 && i == 0
    ensures PathTarget(q, 0, 0) == 1 && PathTarget(q, 1, 0) == 0
    ensures PathTime(q, 0, 0) == 100 && PathTime(q, 1, 0) == 100
  {
    assert (25 * 16) as real / 1.0 == 400.0;
  }

  lemma Calling(q: Query, r: nat, p: nat)
    requires OnTwoLines(q) && r < 2 && p < 2
    ensures HasTrip(q, r, 0, 1) && HasStop(q, r, p) && StopAt(q, r, p) == r + p
    ensures BoardTime(q, r, 0, 1, p) == AlightTime(q, r, 0, 1, p) == CallTime(r, p)
    ensures BoardAllowed(q, r, p) && AlightAllowed(q, r, p)
    ensures Usable(q, r, 0, 1)
  {
    hide WalkTimes, StopTimeOn, TripRuns;
    if p == 0 { CallingFirst(q, r); } else { CallingSecond(q, r); }
    InUse(q, r);
  }

  lemma CallingFirst(q: Query, r: nat)
    requires OnTwoLines(q) && r < 2
    ensures BoardTime(q, r, 0, 1, 0) == AlightTime(q, r, 0, 1, 0) == CallTime(r, 0)
  {
    hide WalkTimes;
  }

  lemma CallingSecond(q: Query, r: nat)
    requires OnTwoLines(q) && r < 2
    ensures BoardTime(q, r, 0, 1, 1) == AlightTime(q, r, 0, 1, 1) == CallTime(r, 1)
  {
    hide WalkTimes;
  }

  lemma InUse(q: Query, r: nat)
    requires OnTwoLines(q) && r < 2
    ensures Usable(q, r, 0, 1)
  {
    hide WalkTimes;
  }

  /** Only today's trips are in use. */
  lemma OnlyToday(q: Query, r: nat, t: nat, d: nat)
    requires OnTwoLines(q) && Usable(q, r, t, d)
    ensures r < 2 && t == 0 && d == 1
  {
    hide WalkTimes;
  }

  lemma TwoLinesIdeal(q: Query)
    requires OnTwoLines(q)
    ensures Ideal(q) && Symmetric(q)
  {
    hide Indexed, Triangle, AlightWhereBoard, OneTimePerStop, TripsAdvance, Fifo, Bounded, Symmetric, OnTwoLines;
    Walking(q);
    Lines(q);
    TwoLinesPaths(q);
    TwoLinesTrips(q);
  }

  lemma TwoLinesPaths(q: Query)
    requires OnTwoLines(q)
    ensures Triangle(q) && Symmetric(q)
  {
    hide WalkTimes, OnTwoLines;
    Walking(q);
    forall s: nat, i: nat | HasFootpath(q, s, i) ensures WayBack(q, PathTarget(q, s, i), s, PathTime(q, s, i)) {
      assert HasFootpath(q, 1 - s, 0);
    }
  }

  lemma TwoLinesTrips(q: Query)
    requires OnTwoLines(q)
    ensures Indexed(q) && AlightWhereBoard(q) && OneTimePerStop(q) && TripsAdvance(q) && Fifo(q)
    ensures Bounded(q, 0) && Bounded(q, 1)
  {
    hide BoardTime, AlightTime, RouteAllowed, TripAllowed, WalkTimes, BoardAllowed, AlightAllowed, OnTwoLines;
    Walking(q);
    Lines(q);
    forall r: nat, p: nat | r < 2 && p < 2
      ensures StopAt(q, r, p) == r + p && r in q.td.stops[r + p].routes
      ensures BoardTime(q, r, 0, 1, p) == AlightTime(q, r, 0, 1, p) == CallTime(r, p)
      ensures AlightAllowed(q, r, p)
    {
      Calling(q, r, p);
    }
    forall r: nat, t: nat, d: nat | Usable(q, r, t, d) ensures r < 2 && t == 0 && d == 1 {
      OnlyToday(q, r, t, d);
    }
    assert OneTimePerStop(q);
    assert TripsAdvance(q);
    assert Fifo(q);
  }

  lemma Lines(q: Query)
    requires OnTwoLines(q)
    ensures Plain(q) && q.td == TWO_LINES && |q.td.routes| == 2 && q.days[1].midnight == ONE_DAY
    ensures forall r: nat, p: nat :: HasStop(q, r, p) <==> r < 2 && p < 2
  {
    hide WalkTimes;
  }

  /** Every ride is one of the two lines, in the direction of the search. */
  lemma LineRides(q: Query, ride: Ride)
    requires OnTwoLines(q) && Permitted(q, ride)
    ensures ride.route < 2 && ride == LineRide(q, ride.route)
  {
    hide BoardTime, AlightTime, RouteAllowed, WalkTimes, BoardAllowed, AlightAllowed, OnTwoLines;
    OnlyToday(q, ride.route, ride.trip, ride.day);
    Lines(q);
  }

  function LineRide(q: Query, route: nat): Ride {
    if q.req.arriveBy then Ride(route, 0, 1, 1, 0) else Ride(route, 0, 1, 0, 1)
  }

  lemma LineRideIs(q: Query, route: nat)
    requires OnTwoLines(q) && route < 2
    ensures var ride := LineRide(q, route);
            var on, off := if q.req.arriveBy then 1 else 0, if q.req.arriveBy then 0 else 1;
            && InBounds(q, ride) && RideFrom(q, ride) == route + on && RideTo(q, ride) == route + off
            && RideStart(q, ride) == CallTime(route, on) && RideEnd(q, ride) == CallTime(route, off)
            && (Recordable(q, CallTime(route, off)) ==> Permitted(q, ride))
  {
    hide BoardTime, AlightTime, RouteAllowed, WalkTimes, BoardAllowed, AlightAllowed, OnTwoLines;
    Calling(q, route, 0);
    Calling(q, route, 1);
    Lines(q);
  }

  /** The way there takes both lines. */
  lemma There(q: Query, j: Journey)
    requires OnTwoLines(q) && !q.req.arriveBy && q.req.time == 30600 && Origin(q.req) == 0
    requires Feasible(q, j) && EndStop(q, j) == 2
    ensures Rides(j) >= 2 && EndTime(q, j) == 30750
  {
    hide Permitted, OnTwoLines, WalkTimes;
    Walking(q);
    if j.Onward? {
      LineRides(q, j.ride);
      LineRideIs(q, 0);
      LineRideIs(q, 1);
    }
  }

  /** The way back takes one line and a long walk, if it takes one line. */
  lemma Back(q: Query, j: Journey)
    requires OnTwoLines(q) && q.req.arriveBy && q.req.time == 30750 && Origin(q.req) == 2
    requires Feasible(q, j) && EndStop(q, j) == 0 && Rides(j) <= 1
    ensures Rides(j) == 1 && EndTime(q, j) == 30550
  {
    hide Permitted, OnTwoLines, WalkTimes;
    Walking(q);
    if j.Onward? {
      LineRides(q, j.ride);
      LineRideIs(q, 0);
      LineRideIs(q, 1);
    }
  }

  lemma TwoRidesThere(q: Query) returns (j: Journey)
    requires OnTwoLines(q) && !q.req.arriveBy && q.req.time == 30600 && q.req.timeCutoff == UNREACHED
    ensures Reaches(q, 2, 2, 30750, j)
  {
    hide Permitted, OnTwoLines, WalkTimes;
    Walking(q);
    Lines(q);
    LineRideIs(q, 0);
    LineRideIs(q, 1);
    Ends(q);
    var first := Onward(Access(Stay(0)), LineRide(q, 0), Stay(1));
    assert Feasible(q, first);
    j := Onward(first, LineRide(q, 1), Stay(2));
  }

  lemma OneRideBack(q: Query) returns (j: Journey)
    requires OnTwoLines(q) && q.req.arriveBy && q.req.time == 30750 && q.req.timeCutoff == 30600
    ensures Reaches(q, 1, 0, 30550, j)
  {
    hide Permitted, OnTwoLines, WalkTimes;
    Walking(q);
    Lines(q);
    LineRideIs(q, 1);
    Ends(q);
    var first := Access(Stay(2));
    assert Feasible(q, first);
    j := Onward(first, LineRide(q, 1), Foot(1, 0));
    assert HasFootpath(q, 1, 0) && WalkEnd(q, j.walk, RideEnd(q, j.ride)) == 30550;
  }

  lemma Ends(q: Query)
    requires OnTwoLines(q)
    ensures q.req.from == 0 && q.req.to == 2 && q.req.nBannedStops == 0
  {}

  /** What the first two searches leave at their targets. */
  lemma FirstLabels(q: Query, n: nat, rows: seq<Row>, trail: seq<seq<RTime>>)
    requires OnTwoLines(q) && Recorded(q, n, rows, trail)
    ensures !q.req.arriveBy && q.req.time == 30600 && q.req.timeCutoff == UNREACHED && n >= 2 ==>
      |rows[0]| == |rows[1]| == 3 && rows[0][2].walkTime == UNREACHED && rows[1][2].walkTime == 30750
    ensures q.req.arriveBy && q.req.time == 30750 && q.req.timeCutoff == 30600 && n >= 1 ==>
      |rows[0]| == 3 && rows[0][0].walkTime == 30550
  {
    hide Ideal, Symmetric, OnTwoLines, Recorded, Permitted;
    Ends(q);
    Walking(q);
    TwoLinesIdeal(q);
    if !q.req.arriveBy && q.req.time == 30600 && q.req.timeCutoff == UNREACHED && n >= 2 {
      forall j | Feasible(q, j) && EndStop(q, j) == 2 ensures Rides(j) >= 2 && EndTime(q, j) == 30750 {
        There(q, j);
      }
      var j := TwoRidesThere(q);
      TargetLabelsArePareto(q, n, rows, trail, 0, UNREACHED, UNREACHED);
      TargetLabelsArePareto(q, n, rows, trail, 1, UNREACHED, 30750);
    }
    if q.req.arriveBy && q.req.time == 30750 && q.req.timeCutoff == 30600 && n >= 1 {
      forall j | Feasible(q, j) && EndStop(q, j) == 0 && Rides(j) <= 1 ensures Rides(j) == 1 && EndTime(q, j) == 30550 {
        Back(q, j);
      }
      var j := OneRideBack(q);
      TargetLabelsArePareto(q, n, rows, trail, 0, UNREACHED, 30550);
    }
  }

  /** The request is served by both lines at 30750; the search back finds a way with
      one line and a walk that leaves at 30550, and the last search starts there:
      before the time that was asked for. */
  lemma FewestDepartsTooEarly(runs: seq<Run>)
    requires |runs| == 3 && forall k | 0 <= k < 3 :: Finished(runs[k], TWO_LINES, {})
    requires ReversalOf(runs[0], runs[1]) && ReversalOf(runs[1], runs[2])
    requires runs[0].q.req == FEWEST
    ensures forall k | 0 <= k < 3 :: Ideal(runs[k].q) && Symmetric(runs[k].q)
    ensures runs[2].q.req.time == 30550 < runs[0].q.req.time == 30600
    ensures runs[2].q.req.maxTransfers == 0 < runs[1].q.req.maxTransfers == 1
  {
    hide Ideal, Symmetric, Settled, Recorded, WellFormed, OnTwoLines;
    var a, b, c := runs[0], runs[1], runs[2];
    SameLines(a);
    FinishedShape(a, TWO_LINES, {});
    FirstLabels(a.q, 6, a.rows, a.trail);
    assert ChosenLabel(a, 1);
    OneChosenLabel(a);
    SameLines(b);
    FinishedShape(b, TWO_LINES, {});
    FirstLabels(b.q, 2, b.rows, b.trail);
    assert ChosenLabel(b, 0);
    OneChosenLabel(b);
    SameLines(c);
    TwoLinesIdeal(a.q);
    TwoLinesIdeal(b.q);
    TwoLinesIdeal(c.q);
  }

  lemma SameLines(run: Run)
    requires Finished(run, TWO_LINES, {}) && InRange(run.q.req.time)
    requires run.q.req == FEWEST.(arriveBy := run.q.req.arriveBy, time := run.q.req.time, timeCutoff := run.q.req.timeCutoff,
                                  maxTransfers := run.q.req.maxTransfers)
    ensures OnTwoLines(run.q)
  {}

  /* ----- nothing is boarded at time 0 ----- */

  /** A search back from time 0 leaves no label at all: it never boards. */
  lemma NothingBackFromZero(q: Query, n: nat, rows: seq<Row>, best: seq<RTime>, r: nat)
    requires q.req.arriveBy && q.req.time == 0 && Settled(q, n, rows, best) && n > 0 && r < MAX_ROUNDS
    ensures Unwalked(rows[r])
  {
    hide WellFormed, Ordered;
    if r < n {
      forall s | 0 <= s < |rows[r]| ensures rows[r][s].walkTime == UNREACHED {
        if rows[r][s].walkTime != UNREACHED {
          assert RowSound(q, rows[..r + 1], rows[r]);
          var j :| Explains(q, rows[..r + 1], s, rows[r][s].walkTime, j);
          DecodedRides(q, rows[..r + 1], s, j);
          EndsAfterRequest(q, j.prev);
        }
      }
    }
  }

  /** A request to go at the first midnight, by a shuttle that goes and arrives then. */
  const MIDNIGHT: Request :=
    Request(0, 1, NONE, 0, UNREACHED, 1.0, 0, false, 5, {1}, {0}, AGENCY_UNFILTERED, {}, false, 0, 0, 0, 0, 0, 0)

  lemma ShuttleAtMidnight(q: Query)
    requires q == QueryFor(Shuttle(0, 0, {0}), MIDNIGHT, {})
    ensures Ideal(q) && Symmetric(q) && q.walks[10] == 40
    ensures var ride := Ride(0, 0, 0, 0, 1);
            Permitted(q, ride) && RideFrom(q, ride) == 0 && RideTo(q, ride) == 1 && RideStart(q, ride) == RideEnd(q, ride) == 0
  {
    hide WalkTimes;
    ShuttleIsIdeal(0, 0, {0}, MIDNIGHT, {});
    WalksAtMidnight(q);
    assert HasFootpath(q, 0, 0) && HasFootpath(q, 1, 0);
    forall s: nat, i: nat | HasFootpath(q, s, i) ensures WayBack(q, PathTarget(q, s, i), s, PathTime(q, s, i)) {
      assert HasFootpath(q, 1 - s, 0);
    }
  }

  lemma WalksAtMidnight(q: Query)
    requires q == QueryFor(Shuttle(0, 0, {0}), MIDNIGHT, {})
    ensures q.walks[10] == 40
  {
    assert (10 * 16) as real / 1.0 == 160.0;
  }

  /** The first search finds the shuttle; the searches back lose it. */
  lemma MidnightLosesAnswer(runs: seq<Run>)
    requires |runs| == 3 && forall k | 0 <= k < 3 :: Finished(runs[k], Shuttle(0, 0, {0}), {})
    requires ReversalOf(runs[0], runs[1]) && ReversalOf(runs[1], runs[2])
    requires runs[0].q.req == MIDNIGHT
    ensures Ideal(runs[0].q) && Symmetric(runs[0].q) && ChosenLabel(runs[0], 0)
    ensures |runs[2].rows| == MAX_ROUNDS && forall r | 0 <= r < MAX_ROUNDS :: Unwalked(runs[2].rows[r])
  {
    hide Ideal, Symmetric, Recorded, WellFormed, Finished, Shuttle;
    var a, b, c := runs[0], runs[1], runs[2];
    OfMidnight(a);
    ShuttleAtMidnight(a.q);
    MidnightLabel(a);
    OneChosenLabel(a);
    NothingAtMidnight(b);
    NothingAtMidnight(c);
  }

  lemma OfMidnight(a: Run)
    requires Finished(a, Shuttle(0, 0, {0}), {}) && a.q.req == MIDNIGHT
    ensures a.q == QueryFor(Shuttle(0, 0, {0}), MIDNIGHT, {})
  {}

  lemma NothingAtMidnight(run: Run)
    requires Finished(run, Shuttle(0, 0, {0}), {}) && run.q.req.arriveBy && run.q.req.time == 0 && run.q.req.maxTransfers == 0
    ensures |run.rows| == MAX_ROUNDS && forall r | 0 <= r < MAX_ROUNDS :: Unwalked(run.rows[r])
    ensures forall r: nat :: !ChosenLabel(run, r)
  {
    hide WellFormed, Recorded, Traced, Ordered, WalkTimes;
    forall r | 0 <= r < MAX_ROUNDS ensures Unwalked(run.rows[r]) {
      NothingBackFromZero(run.q, RoundCount(run.q.req), run.rows, run.best, r);
    }
  }

  lemma MidnightLabel(a: Run)
    requires Finished(a, Shuttle(0, 0, {0}), {}) && a.q.req == MIDNIGHT
    ensures ChosenLabel(a, 0) && a.rows[0][1].walkTime == 0
  {
    hide Ideal, Symmetric, Recorded, WellFormed, Traced, Ordered, WalkTimes, Permitted;
    var q, ride := a.q, Ride(0, 0, 0, 0, 1);
    FinishedShape(a, Shuttle(0, 0, {0}), {});
    ShuttleAtMidnight(q);
    assert Feasible(q, Access(Stay(0)));
    assert HasFootpath(q, 0, 0) && PathTarget(q, 0, 0) == 1 && PathTime(q, 0, 0) == 40;
    assert Reaches(q, 0, 1, 40, Access(Foot(0, 0)));
    assert Reaches(q, 1, 1, 0, Onward(Access(Stay(0)), ride, Stay(1)));
    assert Minimum(q, 0, 40);
    forall j | Feasible(q, j) ensures Cost(q, 0) <= Cost(q, EndTime(q, j)) {
      EndsAfterRequest(q, j);
    }
    TargetLabelsArePareto(q, 6, a.rows, a.trail, 0, 40, 0);
    LaterAtMidnight(a);
  }

  /** No later round improves on time 0. */
  lemma LaterAtMidnight(a: Run)
    requires Finished(a, Shuttle(0, 0, {0}), {}) && a.q.req == MIDNIGHT
    requires |a.rows| == MAX_ROUNDS && (forall r | 0 <= r < MAX_ROUNDS :: 1 < |a.rows[r]|) && a.rows[0][1].walkTime == 0
    ensures forall r | 0 < r < MAX_ROUNDS :: a.rows[r][1].walkTime == UNREACHED
  {
    hide WellFormed, Recorded, WalkTimes, BelowRow, RowSound;
    forall r | 0 < r < MAX_ROUNDS ensures a.rows[r][1].walkTime == UNREACHED {
      assert Improves(a.q, a.rows[0], a.rows[r]);
    }
  }

  /* ----- a delay that wraps ----- */

  /** An early trip that is, on yesterday's service day, earlier than it can be told. */
  const EARLY: Timetable :=
    var both := {RSA_BOARDING, RSA_ALIGHTING};
    Timetable(
      [Stop([0], []), Stop([0], [])],
      [Route([0, 1], [both, both], [Trip([StopTime(0, 0), StopTime(100, 100)], 100, -150, {4}, {})], {0}, 0, {4}, 100, 200)])

  const LATE_AT_NIGHT: Request :=
    Request(0, 1, NONE, 40, UNREACHED, 1.0, 0, false, 5, {5}, {0}, AGENCY_UNFILTERED, {}, false, 0, 0, 0, 0, 0, 0)

  lemma EarlyRide(q: Query)
    requires q == QueryFor(EARLY, LATE_AT_NIGHT, {4})
    ensures var ride := Ride(0, 0, 0, 0, 1);
            && Permitted(q, ride) && PlannedInOrder(q, ride) && !OneWindow(q, ride)
            && RideFrom(q, ride) == 0 && RideTo(q, ride) == 1
            && RideStart(q, ride) == 65486 && RideEnd(q, ride) == 50
  {
    hide WalkTimes;
  }

  /** The trip may be boarded at 65486 and left at 50: a feasible journey, whose legs
      are not in order. */
  lemma DelayGoesBack(q: Query) returns (j: Journey)
    requires q == QueryFor(EARLY, LATE_AT_NIGHT, {4})
    ensures Feasible(q, j) && EndStop(q, j) == Target(q.req) && EndTime(q, j) == 50
    ensures !RidesAdvance(q) && !Advances(q, j) && !Chained(Legs(q, j))
  {
    hide WalkTimes, Permitted, Chained;
    EarlyRide(q);
    AtNight(q);
    var ride := Ride(0, 0, 0, 0, 1);
    assert Feasible(q, Access(Stay(0)));
    j := Onward(Access(Stay(0)), ride, Stay(1));
    JourneyChained(q, j);
    if RidesAdvance(q) { AllAdvance(q, j); }
  }

  lemma AtNight(q: Query)
    requires q == QueryFor(EARLY, LATE_AT_NIGHT, {4})
    ensures Valid(q) && |q.td.stops| == 2 && Origin(q.req) == 0 && Target(q.req) == 1 && q.req.time == 40
    ensures !q.req.arriveBy && q.req.nBannedStops == 0
  {}

  /* ----- two footpaths to one stop ----- */

  /** A slow footpath listed before a fast one, and a line that only the fast one
      reaches in time. */
  const DETOUR: Timetable :=
    var both := {RSA_BOARDING, RSA_ALIGHTING};
    Timetable(
      [Stop([], [Transfer(1, 50), Transfer(1, 25)]), Stop([0], []), Stop([0], [])],
      [Route([1, 2], [both, both], [Trip([StopTime(0, 0), StopTime(100, 100)], 9100, 0, {5}, {})], {0}, 0, {5}, 9100, 9200)])

  const HURRY: Request :=
    Request(0, 2, NONE, 30600, UNREACHED, 1.0, 0, false, 5, {5}, {0}, AGENCY_UNFILTERED, {}, false, 0, 0, 0, 0, 0, 0)

  predicate OnDetour(q: Query) { q == QueryFor(DETOUR, HURRY, {}) }

  lemma DetourWalks(q: Query)
    requires OnDetour(q)
    ensures Valid(q) && |q.td.stops| == 3 && Plain(q) && q.td == DETOUR && |q.td.routes| == 1
    ensures Origin(q.req) == 0 && Target(q.req) == 2 && q.req.time == 30600 && !q.req.arriveBy
    ensures forall s: nat, i: nat :: HasFootpath(q, s, i) <==> s == 0 && i < 2
    ensures PathTarget(q, 0, 0) == PathTarget(q, 0, 1) == 1 && PathTime(q, 0, 0) == 200 && PathTime(q, 0, 1) == 100
  {
    assert (25 * 16) as real / 1.0 == 400.0 && (50 * 16) as real / 1.0 == 800.0;
  }

  lemma DetourTimes(q: Query, p: nat)
    requires OnDetour(q) && p < 2
    ensures HasTrip(q, 0, 0, 1) && HasStop(q, 0, p) && StopAt(q, 0, p) == p + 1
    ensures BoardTime(q, 0, 0, 1, p) == AlightTime(q, 0, 0, 1, p) == if p == 0 then 30700 else 30800
    ensures BoardAllowed(q, 0, p) && AlightAllowed(q, 0, p) && Usable(q, 0, 0, 1)
  {
    hide WalkTimes;
  }

  lemma DetourToday(q: Query, r: nat, t: nat, d: nat)
    requires OnDetour(q) && Usable(q, r, t, d)
    ensures r == 0 && t == 0 && d == 1
  {
    hide WalkTimes;
  }

  lemma DetourStops(q: Query)
    requires OnDetour(q)
    ensures forall r: nat, p: nat :: HasStop(q, r, p) <==> r == 0 && p < 2
    ensures q.days[1].midnight == ONE_DAY
  {
    hide WalkTimes;
  }

  lemma DetourIdeal(q: Query)
    requires OnDetour(q)
    ensures Ideal(q)
  {
    hide BoardTime, AlightTime, RouteAllowed, TripAllowed, WalkTimes, BoardAllowed, AlightAllowed, OnDetour;
    DetourWalks(q);
    DetourStops(q);
    DetourTimes(q, 0);
    DetourTimes(q, 1);
    forall r: nat, t: nat, d: nat | Usable(q, r, t, d) ensures r == 0 && t == 0 && d == 1 {
      DetourToday(q, r, t, d);
    }
    assert Indexed(q) && Triangle(q) && AlightWhereBoard(q);
    assert OneTimePerStop(q) && TripsAdvance(q);
    assert Fifo(q) && Bounded(q, 0);
  }

  lemma DetourRide(q: Query, ride: Ride)
    requires OnDetour(q) && InBounds(q, ride) && RouteAllowed(q, ride.route) && TripAllowed(q, ride.route, ride.trip, ride.day)
    ensures ride == Ride(0, 0, 1, 0, 1)
  {
    hide BoardTime, AlightTime, RouteAllowed, WalkTimes, OnDetour;
    DetourToday(q, ride.route, ride.trip, ride.day);
    DetourStops(q);
    DetourWalks(q);
  }

  lemma DetourRideIs(q: Query)
    requires OnDetour(q)
    ensures var ride := Ride(0, 0, 1, 0, 1);
            && Permitted(q, ride) && RideFrom(q, ride) == 1 && RideTo(q, ride) == 2
            && RideStart(q, ride) == 30700 && RideEnd(q, ride) == 30800
  {
    hide BoardTime, AlightTime, RouteAllowed, WalkTimes, BoardAllowed, AlightAllowed, OnDetour;
    DetourTimes(q, 0);
    DetourTimes(q, 1);
    DetourStops(q);
    DetourWalks(q);
    DetourFree(q);
  }

  lemma DetourFree(q: Query)
    requires OnDetour(q)
    ensures q.req.timeCutoff == UNREACHED && q.req.nBannedStopsHard == 0 && q.req.nBannedStops == 0
  {}

  /** Every journey there takes the fast footpath. */
  lemma DetourJourney(q: Query, j: Journey)
    requires OnDetour(q) && Feasible(q, j) && EndStop(q, j) == 2
    ensures j.Onward? && j.prev == Access(Foot(0, 1)) && j.ride == Ride(0, 0, 1, 0, 1) && EndTime(q, j) == 30800
  {
    hide OnDetour, WalkTimes, Permitted;
    DetourWalks(q);
    DetourRideIs(q);
    if j.Onward? {
      RideOfPermitted(q, j.ride);
      if j.prev.Onward? { RideOfPermitted(q, j.prev.ride); }
    }
  }

  lemma RideOfPermitted(q: Query, ride: Ride)
    requires OnDetour(q) && Permitted(q, ride)
    ensures ride == Ride(0, 0, 1, 0, 1)
  {
    DetourRide(q, ride);
  }

  lemma DetourExists(q: Query) returns (j: Journey)
    requires OnDetour(q)
    ensures Reaches(q, 1, 2, 30800, j)
  {
    hide OnDetour, WalkTimes, Permitted;
    DetourWalks(q);
    DetourRideIs(q);
    DetourFree(q);
    var first := Access(Foot(0, 1));
    assert HasFootpath(q, 0, 1) && Feasible(q, first);
    j := Onward(first, Ride(0, 0, 1, 0, 1), Stay(2));
  }

  /** What is read back takes the slow one, which ends after the ride has begun. */
  lemma DetourReadSlow(q: Query, j: Journey)
    requires OnDetour(q) && Feasible(q, j) && EndStop(q, j) == 2
    ensures !FirstInOrder(q, ReadLegs(q, j)) && !FastestFirst(q)
  {
    hide OnDetour, WalkTimes, Permitted;
    DetourWalks(q);
    DetourJourney(q, j);
    DetourRideIs(q);
    assert FirstPath(q, 0, 1, 0);
    OneFirstPath(q, 0, 1, 0);
    assert AccessOf(j) == Access(Foot(0, 1));
    var first := RebuiltLeg(q, 1);
    assert ReadLegs(q, j)[0] == first && ReadLegs(q, j)[1] == RideLeg(q, j.ride);
    assert first.t1 == 30800;
  }

  /** A plan is read, and no itinerary of it is in order. */
  lemma SlowFootpathMisleads(run: Run, plan: seq<Itinerary>)
    requires Finished(run, DETOUR, {}) && run.q.req == HURRY
    requires |run.rows| == MAX_ROUNDS && (forall i | 0 <= i < MAX_ROUNDS :: Target(run.q.req) < |run.rows[i]|)
    requires PlanOf(run.q, run.rows, MAX_ROUNDS, plan)
    ensures plan != [] && forall i | 0 <= i < |plan| :: !Connects(run.q, plan[i])
  {
    hide OnDetour, Recorded, Finished, PlanOf, Connects;
    var q := run.q;
    DetourQuery(run);
    DetourLabel(q, run.rows, run.trail);
    assert 0 in LabelledRounds(run.rows, 2, MAX_ROUNDS);
    PlanCount(q, run.rows, plan);
    forall i | 0 <= i < |plan| ensures !Connects(q, plan[i]) {
      DetourOutOfOrder(q, run.rows, plan, i);
    }
  }

  lemma DetourLabel(q: Query, rows: seq<Row>, trail: seq<seq<RTime>>)
    requires OnDetour(q) && Recorded(q, 6, rows, trail)
    ensures Target(q.req) == 2 && |rows[0]| == 3 && rows[0][2].walkTime == 30800
  {
    hide Ideal, OnDetour, Recorded, Permitted, WellFormed;
    DetourWalks(q);
    DetourIdeal(q);
    forall j | Feasible(q, j) && EndStop(q, j) == 2 ensures Rides(j) >= 1 && EndTime(q, j) == 30800 {
      DetourJourney(q, j);
    }
    var j := DetourExists(q);
    TargetLabelsArePareto(q, 6, rows, trail, 0, UNREACHED, 30800);
  }

  lemma PlanCount(q: Query, rows: seq<Row>, plan: seq<Itinerary>)
    requires |rows| == MAX_ROUNDS && (forall i | 0 <= i < MAX_ROUNDS :: Target(q.req) < |rows[i]|)
    requires PlanOf(q, rows, MAX_ROUNDS, plan)
    ensures |plan| == |LabelledRounds(rows, Target(q.req), MAX_ROUNDS)|
  {}

  lemma DetourOutOfOrder(q: Query, rows: seq<Row>, plan: seq<Itinerary>, i: nat)
    requires OnDetour(q) && |rows| == MAX_ROUNDS && (forall i | 0 <= i < MAX_ROUNDS :: Target(q.req) < |rows[i]|)
    requires PlanOf(q, rows, MAX_ROUNDS, plan) && i < |plan|
    ensures !Connects(q, plan[i])
  {
    hide OnDetour, WellFormed, Permitted, ReadLegs, FirstInOrder, Linked, Chained, Decodes, RidesInOrder, PlanOf;
    DetourWalks(q);
    PlanItem(q, rows, plan, i);
    var j := BehindItinerary(q, rows, plan, i);
    DetourReadSlow(q, j);
  }

  lemma DetourQuery(run: Run)
    requires Finished(run, DETOUR, {}) && run.q.req == HURRY
    ensures OnDetour(run.q) && Recorded(run.q, 6, run.rows, run.trail)
  {}
}
