/** Under ideal conditions the best times after k rounds are minimal over all
    journeys with at most k rides, except where the target is already closer. */
module Optimality {
  import opened Rtime
  import opened Timetables
  import opened Journeys
  import opened Search
  import opened Ideals
  import opened Scans
  import opened Rounds

  /** Best times cannot be improved by one more footpath. */
  ghost predicate WalkClosed(q: Query, best: seq<RTime>) {
    && Valid(q) && |best| == |q.td.stops|
    && forall s: nat, i: nat | HasFootpath(q, s, i) && FootFits(q, s, i, best[s]) ::
         Cost(q, best[PathTarget(q, s, i)]) <= Cost(q, Shift(q.req.arriveBy, best[s], PathTime(q, s, i)))
  }

  predicate FootFits(q: Query, s: nat, i: nat, t: RTime)
    requires HasFootpath(q, s, i)
  {
    t != UNREACHED && InRange(Shift(q.req.arriveBy, t, PathTime(q, s, i)))
  }

  /** Permitted rides from stop s at or after its best time lead nowhere sooner. */
  ghost predicate RideClosed(q: Query, s: nat, t: RTime, best: seq<RTime>) {
    && Valid(q) && |best| == |q.td.stops|
    && forall ride | Permitted(q, ride) && RideFrom(q, ride) == s && Cost(q, t) <= Cost(q, RideStart(q, ride)) ::
         Covered(q, best, RideTo(q, ride), RideEnd(q, ride))
  }

  /** Every reached stop was improved in the last round or has been ridden from. */
  ghost predicate FreshOrClosed(q: Query, prev: Row, best: seq<RTime>) {
    && |prev| == |best|
    && forall s | 0 <= s < |best| && best[s] != UNREACHED :: prev[s].walkTime == best[s] || RideClosed(q, s, best[s], best)
  }

  /** No feasible journey with at most k rides beats the best times. */
  ghost predicate Optimal(q: Query, k: nat, best: seq<RTime>) {
    && Valid(q) && |best| == |q.td.stops|
    && forall j | Feasible(q, j) && Rides(j) <= k :: Covered(q, best, EndStop(q, j), EndTime(q, j))
  }

  /** Footpaths from every updated stop, with the triangle inequality, close the
      best times under footpaths again. */
  lemma WalkClosedStep(q: Query, best0: seq<RTime>, updated: set<nat>, row1: Row, best1: seq<RTime>, row2: Row, best2: seq<RTime>)
    requires Triangle(q) && WalkClosed(q, best0)
    requires Walked(q, updated, row1, best1, row2, best2) && WalksRelaxed(q, updated, row1, best2)
    requires forall s | 0 <= s < |best1| ::
               if s in updated then row1[s].time == best1[s] && best1[s] <= THREE_DAYS else best1[s] == best0[s]
    requires NoWorse(q, best0, best1)
    ensures WalkClosed(q, best2)
  {
    forall s: nat, i: nat | HasFootpath(q, s, i) && FootFits(q, s, i, best2[s])
      ensures Cost(q, best2[PathTarget(q, s, i)]) <= Cost(q, Shift(q.req.arriveBy, best2[s], PathTime(q, s, i)))
    {
      if best2[s] == best1[s] {
        if s in updated {
          assert WalkOut(q, row1, Foot(s, i));
        } else {
          assert FootFits(q, s, i, best0[s]);
        }
      } else {
        assert Touched(updated, row1, best1, best2, s);
        var w :| WalkLabel(q, row2, s, w) && w.from in updated;
        TwoWalks(q, updated, row1, best2, w, s, i, best2[s]);
      }
    }
  }

  /** A walk to s and a footpath on from s are covered by one direct walk. */
  lemma TwoWalks(q: Query, updated: set<nat>, row: Row, best: seq<RTime>, w: Walk, s: nat, i: nat, t: RTime)
    requires Triangle(q) && WalksRelaxed(q, updated, row, best)
    requires WalkOut(q, row, w) && w.from in updated && row[w.from].time <= THREE_DAYS
    requires WalkTo(q, w) == s && WalkEnd(q, w, row[w.from].time) == t
    requires HasFootpath(q, s, i) && FootFits(q, s, i, t)
    ensures Cost(q, best[PathTarget(q, s, i)]) <= Cost(q, Shift(q.req.arriveBy, t, PathTime(q, s, i)))
  {
    var u := PathTarget(q, s, i);
    if w.Stay? {
      assert WalkOut(q, row, Foot(s, i));
    } else {
      assert Shortcut(q, w.from, u, PathTime(q, w.from, w.path) + PathTime(q, s, i));
      if w.from == u {
        assert WalkOut(q, row, Stay(u));
      } else {
        var k: nat :| HasFootpath(q, w.from, k) && PathTarget(q, w.from, k) == u
                      && PathTime(q, w.from, k) <= PathTime(q, w.from, w.path) + PathTime(q, s, i);
        assert WalkOut(q, row, Foot(w.from, k));
      }
    }
  }

  lemma TripDayIsRouteDay(q: Query, route: Route, trip: Trip, d: nat)
    requires Valid(q) && d < 3 && Meets(q.days[d].mask, trip.active)
    requires trip.active <= route.active
    ensures RouteRuns(q, route)
  {
    var day :| day in q.days[d].mask && day in trip.active;
    assert day in q.days[0].mask + q.days[1].mask + q.days[2].mask;
  }

  /** A route with a permitted ride is never left out by the route's day bits. */
  lemma PermittedIsFlaggable(q: Query, ride: Ride)
    requires Ideal(q) && Permitted(q, ride)
    ensures Flaggable(q, ride.route) && ride.route in q.td.stops[RideFrom(q, ride)].routes
  {
    hide RouteRuns;
    var route := q.td.routes[ride.route];
    assert Usable(q, ride.route, ride.trip, ride.day);
    TripDayIsRouteDay(q, route, route.trips[ride.trip], ride.day);
  }

  /** Once all flagged routes are scanned, every ride from every stop reached
      before this round is covered. */
  lemma AllRelaxed(q: Query, prev: Row, best0: seq<RTime>, routes: set<nat>, best1: seq<RTime>, s: nat)
    requires Ideal(q) && FreshOrClosed(q, prev, best0) && NoWorse(q, best0, best1)
    requires s < |best0| == |q.td.stops| && best0[s] != UNREACHED
    requires prev[s].walkTime != UNREACHED ==> Flagged(q, routes, s)
    requires forall r | r in routes :: RouteRelaxed(q, r, prev, best1)
    ensures RideClosed(q, s, best0[s], best1)
  {
    forall ride | Permitted(q, ride) && RideFrom(q, ride) == s && Cost(q, best0[s]) <= Cost(q, RideStart(q, ride))
      ensures Covered(q, best1, RideTo(q, ride), RideEnd(q, ride))
    {
      if prev[s].walkTime == best0[s] {
        PermittedIsFlaggable(q, ride);
        assert Catchable(q, prev, ride.route, ride);
      } else {
        assert Covered(q, best0, RideTo(q, ride), RideEnd(q, ride));
      }
    }
  }

  /** One more round of riding and walking is optimal with one more ride. */
  lemma {:induction false} OptimalStep(q: Query, k: nat, best0: seq<RTime>, best: seq<RTime>)
    requires Ideal(q) && Optimal(q, k, best0) && NoWorse(q, best0, best) && WalkClosed(q, best)
    requires forall s | 0 <= s < |best0| && best0[s] != UNREACHED :: RideClosed(q, s, best0[s], best)
    requires forall s | 0 <= s < |best| :: best[s] == UNREACHED || best[s] <= THREE_DAYS
    ensures Optimal(q, k + 1, best)
  {
    forall j | Feasible(q, j) && Rides(j) <= k + 1
      ensures Covered(q, best, EndStop(q, j), EndTime(q, j))
    {
      if Rides(j) <= k {
        assert Covered(q, best0, EndStop(q, j), EndTime(q, j));
      } else {
        LongerJourney(q, k, best0, best, j);
      }
    }
  }

  lemma LongerJourney(q: Query, k: nat, best0: seq<RTime>, best: seq<RTime>, j: Journey)
    requires Ideal(q) && Optimal(q, k, best0) && NoWorse(q, best0, best) && WalkClosed(q, best)
    requires forall s | 0 <= s < |best0| && best0[s] != UNREACHED :: RideClosed(q, s, best0[s], best)
    requires forall s | 0 <= s < |best| :: best[s] == UNREACHED || best[s] <= THREE_DAYS
    requires Feasible(q, j) && Rides(j) == k + 1
    ensures Covered(q, best, EndStop(q, j), EndTime(q, j))
  {
    var s, arrival := j.walk.from, RideEnd(q, j.ride);
    hide Fifo, OneTimePerStop, Bounded, AlightWhereBoard, Triangle, Indexed, WellFormed, Recordable, Boardable;
    EndsAfterRequest(q, j.prev);
    assert Usable(q, j.ride.route, j.ride.trip, j.ride.day);
    assert Cost(q, RideStart(q, j.ride)) <= Cost(q, arrival);
    WalkCosts(q, j.walk, arrival);
    assert Covered(q, best0, EndStop(q, j.prev), EndTime(q, j.prev));
    if Cost(q, best0[EndStop(q, j.prev)]) <= Cost(q, EndTime(q, j.prev)) {
      assert RideClosed(q, EndStop(q, j.prev), best0[EndStop(q, j.prev)], best);
      assert Covered(q, best, s, arrival);
      if Cost(q, best[s]) <= Cost(q, arrival) && j.walk.Foot? {
        assert FootFits(q, s, j.walk.path, best[s]);
      }
    }
  }

  /** The stops not closed under rides are exactly those labelled in this round. */
  lemma FreshStep(q: Query, best0: seq<RTime>, updated: set<nat>, row1: Row, best1: seq<RTime>, row2: Row, best2: seq<RTime>)
    requires Walked(q, updated, row1, best1, row2, best2) && |best0| == |best1|
    requires forall s | 0 <= s < |best0| && best0[s] != UNREACHED :: RideClosed(q, s, best0[s], best2)
    requires forall s | 0 <= s < |best1| ::
               if s in updated then row1[s].time == best1[s] != UNREACHED else best1[s] == best0[s]
    ensures FreshOrClosed(q, row2, best2)
  {}

  /** What optimality needs between rounds. */
  ghost predicate Best(q: Query, k: nat, prev: Row, best: seq<RTime>, routes: set<nat>) {
    && |prev| == |best|
    && WalkClosed(q, best) && Optimal(q, k, best) && FreshOrClosed(q, prev, best)
    && forall s | 0 <= s < |prev| && prev[s].walkTime != UNREACHED ::
         prev[s].walkTime == best[s] && Flagged(q, routes, s)
  }

  /** The tables during a round in terms of best times alone. */
  predicate Phases(best0: seq<RTime>, row1: Row, best1: seq<RTime>, updated: set<nat>) {
    && |best0| == |row1| == |best1|
    && forall s | 0 <= s < |best1| ::
         if s in updated then row1[s].time == best1[s] && best1[s] <= THREE_DAYS else best1[s] == best0[s]
  }

  lemma RodeInPhases(q: Query, prev: Row, row0: Row, best0: seq<RTime>, row1: Row, best1: seq<RTime>, updated: set<nat>)
    requires Rode(q, prev, row0, best0, row1, best1, updated)
    ensures Phases(best0, row1, best1, updated) && NoWorse(q, best0, best1)
  {
    forall s | 0 <= s < |best1| && s in updated ensures best1[s] <= THREE_DAYS {
      var ride :| RideLabel(q, prev, s, row1[s], ride);
      assert Recordable(q, RideEnd(q, ride));
    }
  }

  /** One round under ideal conditions. */
  lemma RoundBest(q: Query, k: nat, prev: Row, best0: seq<RTime>, routes: set<nat>,
                  row1: Row, best1: seq<RTime>, updated: set<nat>, row2: Row, best2: seq<RTime>, routes2: set<nat>)
    requires Ideal(q) && Best(q, k, prev, best0, routes)
    requires Phases(best0, row1, best1, updated) && NoWorse(q, best0, best1) && NoWorse(q, best1, best2)
    requires forall r | r in routes :: RouteRelaxed(q, r, prev, best1)
    requires Walked(q, updated, row1, best1, row2, best2) && WalksRelaxed(q, updated, row1, best2)
    requires FlagsFollow(q, updated, row1, best1, best2, routes2)
    requires RoundBetter(q, best0, row2, best2) && WithinDays(q, best2)
    requires forall s | 0 <= s < |row2| && row2[s].walkTime != UNREACHED :: Touched(updated, row1, best1, best2, s)
    ensures Best(q, k + 1, row2, best2, routes2)
  {
    hide Ideal, Walked, WalksRelaxed, RouteRelaxed, RideClosed, WellFormed, Covered, Flagged;
    IdealTriangle(q);
    WalkClosedStep(q, best0, updated, row1, best1, row2, best2);
    forall s | 0 <= s < |best0| && best0[s] != UNREACHED ensures RideClosed(q, s, best0[s], best2) {
      AllRelaxed(q, prev, best0, routes, best1, s);
      ClosedKeeps(q, s, best0[s], best1, best2);
    }
    OptimalStep(q, k, best0, best2);
    FreshStep(q, best0, updated, row1, best1, row2, best2);
  }

  lemma IdealTriangle(q: Query)
    requires Ideal(q)
    ensures Triangle(q) && Plain(q)
  {}

  lemma ClosedKeeps(q: Query, s: nat, t: RTime, best: seq<RTime>, best': seq<RTime>)
    requires RideClosed(q, s, t, best) && NoWorse(q, best, best')
    ensures RideClosed(q, s, t, best')
  {}

  /** A completed round keeps everything that holds between rounds. */
  lemma RoundComplete(q: Query, k: nat, rows: seq<Row>, best0: seq<RTime>, routes: set<nat>,
                      row1: Row, best1: seq<RTime>, updated: set<nat>, walking: set<nat>,
                      row2: Row, best2: seq<RTime>, routes2: set<nat>, rows': seq<Row>)
    requires k < MAX_ROUNDS && Settled(q, k, rows, best0)
    requires q.req.nBannedStops == 0 ==> Attained(q, k, best0)
    requires Ideal(q) ==> Best(q, k, LastRow(rows, k), best0, routes)
                          && forall r | r in routes :: RouteRelaxed(q, r, LastRow(rows, k), best1)
    requires Rode(q, LastRow(rows, k), rows[k], best0, row1, best1, updated)
    requires walking == set s | s in updated && !Banned(q, s)
    requires Walked(q, walking, row1, best1, row2, best2) && WalksRelaxed(q, walking, row1, best2)
    requires FlagsFollow(q, walking, row1, best1, best2, routes2)
    requires RowReplaced(rows, k, row2, rows')
    ensures Settled(q, k + 1, rows', best2)
    ensures q.req.nBannedStops == 0 ==> Attained(q, k + 1, best2)
    ensures Ideal(q) ==> Best(q, k + 1, row2, best2, routes2)
    ensures RoundBetter(q, best0, row2, best2)
  {
    hide Rode, Ideal, LabelsKnown, RouteRelaxed, Walked, WalksRelaxed, FlagsFollow, Attained,
         Best, WellFormed, Flaggable, Touched, SameRide, RowSound, RoundBetter, NoWorse, WithinDays, Phases, BelowRow, Improves;
    var prev := LastRow(rows, k);
    RoundSettled(q, k, rows, best0, row1, best1, updated, walking, row2, best2, rows');
    if q.req.nBannedStops == 0 {
      assert walking == updated;
      RowUnwalked(q, k, rows, best0);
      UpdatedTimes(q, prev, rows[k], best0, row1, best1, updated);
      assert rows'[..k + 1] == rows[..k] + [row2];
      RoundAttained(q, k, rows[..k], best0, row1, best1, updated, row2, best2);
      if Ideal(q) {
        RodeInPhases(q, prev, rows[k], best0, row1, best1, updated);
        RowTouched(q, prev, rows[k], best0, row1, best1, updated, row2, best2);
        RoundBest(q, k, prev, best0, routes, row1, best1, updated, row2, best2, routes2);
      }
    } else if Ideal(q) {
      IdealTriangle(q);
    }
  }

  lemma RowUnwalked(q: Query, k: nat, rows: seq<Row>, best: seq<RTime>)
    requires k < MAX_ROUNDS && Settled(q, k, rows, best)
    ensures Unwalked(rows[k])
  {}

  lemma UpdatedTimes(q: Query, prev: Row, row0: Row, best0: seq<RTime>, row1: Row, best1: seq<RTime>, updated: set<nat>)
    requires Rode(q, prev, row0, best0, row1, best1, updated)
    ensures |best0| == |best1| == |row1|
    ensures forall s | 0 <= s < |best1| ::
              if s in updated then row1[s].time == best1[s] != UNREACHED else best1[s] == best0[s]
  {}

  lemma RowTouched(q: Query, prev: Row, row0: Row, best0: seq<RTime>, row1: Row, best1: seq<RTime>, updated: set<nat>,
                   row2: Row, best2: seq<RTime>)
    requires Rode(q, prev, row0, best0, row1, best1, updated) && Unwalked(row0)
    requires Walked(q, updated, row1, best1, row2, best2)
    ensures NoWorse(q, best1, best2)
    ensures forall s | 0 <= s < |row2| && row2[s].walkTime != UNREACHED :: Touched(updated, row1, best1, best2, s)
  {
    WalkedTouched(q, updated, row1, best1, row2, best2);
  }

  /* ----- the initial state ----- */

  /** The tables from which the walk out of the origin starts. */
  predicate Blank(q: Query, row: Row, best: seq<RTime>) {
    && Valid(q) && SameSize(q, row, best) && Unwalked(row)
    && row[Origin(q.req)].time == q.req.time && row[Origin(q.req)].backStop == NONE
    && forall s | 0 <= s < |best| :: best[s] == if s == Origin(q.req) then q.req.time else UNREACHED
  }

  lemma InitialSettled(q: Query, walking: set<nat>, row0: Row, best0: seq<RTime>, rows: seq<Row>, best: seq<RTime>)
    requires Blank(q, row0, best0) && TableShape(q, rows, best)
    requires walking == set s | s in {Origin(q.req)} && !Banned(q, s)
    requires Walked(q, walking, row0, best0, rows[1], best)
    requires forall i | 0 <= i < MAX_ROUNDS && i != 1 :: Unwalked(rows[i])
    requires rows[0][Origin(q.req)].time == q.req.time
    ensures Settled(q, 0, rows, best)
  {
    hide RowSound, WellFormed;
    InitialTraced(q, walking, row0, best0, rows[1], best);
    assert rows[..0] == [];
    InitialDays(q, walking, row0, best0, rows[1], best);
    InitialStarted(q, walking, row0, best0, rows[1], best);
  }

  lemma InitialStarted(q: Query, walking: set<nat>, row0: Row, best0: seq<RTime>, row: Row, best: seq<RTime>)
    requires Blank(q, row0, best0)
    requires walking == set s | s in {Origin(q.req)} && !Banned(q, s)
    requires Walked(q, walking, row0, best0, row, best)
    ensures Started(q, row, best)
  {
    hide WellFormed;
    forall s | 0 <= s < |row| && row[s].walkTime != UNREACHED ensures row[s].walkFrom == Origin(q.req) {
      assert Touched(walking, row0, best0, best, s);
      var w :| WalkLabel(q, row, s, w) && w.from in walking;
    }
  }

  lemma InitialDays(q: Query, walking: set<nat>, row0: Row, best0: seq<RTime>, row: Row, best: seq<RTime>)
    requires Blank(q, row0, best0)
    requires walking == set s | s in {Origin(q.req)} && !Banned(q, s)
    requires Walked(q, walking, row0, best0, row, best)
    ensures WithinDays(q, best) && best[Origin(q.req)] == q.req.time
  {
    hide WellFormed;
    forall s | 0 <= s < |best| && best[s] != UNREACHED && best[s] != q.req.time
      ensures InRange(best[s]) && !Better(q, best[s], q.req.time)
    {
      var w :| WalkLabel(q, row, s, w) && w.from in walking;
      WalkCosts(q, w, q.req.time);
    }
  }

  lemma InitialAttained(q: Query, walking: set<nat>, row0: Row, best0: seq<RTime>, row: Row, best: seq<RTime>)
    requires Blank(q, row0, best0) && q.req.nBannedStops == 0
    requires walking == {Origin(q.req)}
    requires Walked(q, walking, row0, best0, row, best)
    ensures Attained(q, 0, best)
  {
    hide WellFormed;
    forall s | 0 <= s < |best| && best[s] != UNREACHED
      ensures exists j :: Reaches(q, 0, s, best[s], j)
    {
      assert Touched(walking, row0, best0, best, s);
      var w :| WalkLabel(q, row, s, w) && w.from in walking;
      assert Reaches(q, 0, s, best[s], Access(w));
    }
  }

  lemma InitialBest(q: Query, walking: set<nat>, row0: Row, best0: seq<RTime>, row: Row, best: seq<RTime>, routes: set<nat>)
    requires Ideal(q) && Blank(q, row0, best0) && walking == {Origin(q.req)}
    requires Walked(q, walking, row0, best0, row, best) && WalksRelaxed(q, walking, row0, best)
    requires FlagsFollow(q, walking, row0, best0, best, routes)
    ensures Best(q, 0, row, best, routes)
  {
    hide Ideal, WellFormed, Flagged;
    IdealTriangle(q);
    var none := seq(|best0|, i requires 0 <= i < |best0| => UNREACHED as RTime);
    WalkClosedStep(q, none, walking, row0, best0, row, best);
    forall j | Feasible(q, j) && Rides(j) <= 0
      ensures Covered(q, best, EndStop(q, j), EndTime(q, j))
    {
      assert j.Access? && WalkOut(q, row0, j.walk);
    }
  }

  /** The state in which the first round starts. */
  lemma InitialComplete(q: Query, walking: set<nat>, row0: Row, best0: seq<RTime>, rows: seq<Row>, best: seq<RTime>, routes: set<nat>)
    requires Blank(q, row0, best0) && TableShape(q, rows, best)
    requires walking == set s | s in {Origin(q.req)} && !Banned(q, s)
    requires Walked(q, walking, row0, best0, rows[1], best) && WalksRelaxed(q, walking, row0, best)
    requires FlagsFollow(q, walking, row0, best0, best, routes)
    requires forall i | 0 <= i < MAX_ROUNDS && i != 1 :: Unwalked(rows[i])
    requires rows[0][Origin(q.req)].time == q.req.time
    ensures Settled(q, 0, rows, best)
    ensures q.req.nBannedStops == 0 ==> Attained(q, 0, best)
    ensures Ideal(q) ==> Best(q, 0, rows[1], best, routes)
  {
    hide Ideal, Settled, Attained, Best, Blank, Walked, WalksRelaxed, FlagsFollow, WellFormed;
    InitialSettled(q, walking, row0, best0, rows, best);
    if q.req.nBannedStops == 0 {
      assert walking == {Origin(q.req)};
      InitialAttained(q, walking, row0, best0, rows[1], best);
      if Ideal(q) {
        InitialBest(q, walking, row0, best0, rows[1], best, routes);
      }
    } else if Ideal(q) {
      IdealTriangle(q);
    }
  }

  lemma BestIsOptimal(q: Query, k: nat, prev: Row, best: seq<RTime>, routes: set<nat>)
    requires Best(q, k, prev, best, routes)
    ensures Optimal(q, k, best)
  {}

  /* ----- whole runs ----- */

  /** The best times after each of k rounds, and what the rounds made of them. */
  ghost predicate Recorded(q: Query, k: nat, rows: seq<Row>, trail: seq<seq<RTime>>) {
    && k <= |rows| && |trail| == k + 1
    && (forall i | 0 <= i < k :: RoundBetter(q, trail[i], rows[i], trail[i + 1]))
    && (forall i | 0 <= i <= k :: RoundResult(q, i, trail[i]))
  }

  ghost predicate RoundResult(q: Query, i: nat, best: seq<RTime>) {
    && (q.req.nBannedStops == 0 ==> Attained(q, i, best))
    && (Ideal(q) ==> Optimal(q, i, best))
  }

  lemma NothingRecorded(q: Query, rows: seq<Row>, best: seq<RTime>)
    requires RoundResult(q, 0, best)
    ensures Recorded(q, 0, rows, [best])
  {}

  lemma RoundRecorded(q: Query, k: nat, rows: seq<Row>, rows': seq<Row>, trail: seq<seq<RTime>>, best: seq<RTime>)
    requires Recorded(q, k, rows, trail) && k < |rows'| && (forall i | 0 <= i < k :: rows'[i] == rows[i])
    requires RoundBetter(q, trail[k], rows'[k], best) && RoundResult(q, k + 1, best)
    ensures Recorded(q, k + 1, rows', trail + [best])
  {
    hide RoundBetter, RoundResult;
  }

  lemma BlankOrigin(q: Query, row: Row, best: seq<RTime>)
    requires Blank(q, row, best)
    ensures Origin(q.req) < |row| == |best| && row[Origin(q.req)].time == best[Origin(q.req)]
  {}

  /** t is the best time at the target over all feasible journeys with at most k
      rides; UNREACHED if there are none. */
  ghost predicate Minimum(q: Query, k: nat, t: RTime)
    requires Valid(q)
  {
    && (forall j | Feasible(q, j) && Rides(j) <= k && EndStop(q, j) == Target(q.req) :: Cost(q, t) <= Cost(q, EndTime(q, j)))
    && (t != UNREACHED ==> exists j :: Reaches(q, k, Target(q.req), t, j))
  }

  /** After k rounds the best time at the target is the minimum over all feasible
      journeys with at most k rides, walking only included. */
  lemma TargetIsMinimum(q: Query, k: nat, best: seq<RTime>)
    requires Ideal(q) && RoundResult(q, k, best)
    ensures Valid(q) && |best| == |q.td.stops| && Minimum(q, k, best[Target(q.req)])
  {
    hide Feasible, WellFormed, Fifo, OneTimePerStop, TripsAdvance, Bounded, AlightWhereBoard, Indexed, Triangle;
  }

  lemma MinimumIsUnique(q: Query, k: nat, t: RTime, t': RTime)
    requires Valid(q) && Minimum(q, k, t) && Minimum(q, k, t')
    ensures t == t'
  {
    hide WellFormed;
    if t != UNREACHED && t' != UNREACHED {
      var j :| Reaches(q, k, Target(q.req), t, j);
      var j' :| Reaches(q, k, Target(q.req), t', j');
      assert Cost(q, t) <= Cost(q, EndTime(q, j')) && Cost(q, t') <= Cost(q, EndTime(q, j));
    }
  }

  /** The labels at the target are the Pareto front: round i leaves a label exactly
      when one more ride helps, and it is the best time with i + 1 rides. */
  lemma TargetLabelsArePareto(q: Query, n: nat, rows: seq<Row>, trail: seq<seq<RTime>>, i: nat, fewer: RTime, more: RTime)
    requires Ideal(q) && Recorded(q, n, rows, trail) && i < n
    requires Minimum(q, i, fewer) && Minimum(q, i + 1, more)
    ensures |rows[i]| == |q.td.stops|
    ensures rows[i][Target(q.req)].walkTime == if more == fewer then UNREACHED else more
    ensures more != fewer ==> Cost(q, more) < Cost(q, fewer)
  {
    hide Feasible, WellFormed, Fifo, OneTimePerStop, TripsAdvance, Bounded, AlightWhereBoard, Indexed, Triangle, Minimum;
    assert RoundResult(q, i, trail[i]) && RoundResult(q, i + 1, trail[i + 1]) && RoundBetter(q, trail[i], rows[i], trail[i + 1]);
    TargetIsMinimum(q, i, trail[i]);
    TargetIsMinimum(q, i + 1, trail[i + 1]);
    MinimumIsUnique(q, i, fewer, trail[i][Target(q.req)]);
    MinimumIsUnique(q, i + 1, more, trail[i + 1][Target(q.req)]);
  }
}
