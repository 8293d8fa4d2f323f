/** The conditions on timetable and request under which the search is optimal. */
module Ideals {
  import opened Rtime
  import opened Timetables
  import opened Journeys

  predicate Usable(q: Query, r: nat, t: nat, d: nat) {
    HasTrip(q, r, t, d) && RouteAllowed(q, r) && TripAllowed(q, r, t, d)
  }

  /** A trip has one representable time at each stop: vehicles do not dwell, and
      no stop time overflows. */
  ghost predicate OneTimePerStop(q: Query) {
    forall r: nat, t: nat, d: nat, p: nat | Usable(q, r, t, d) && HasStop(q, r, p) ::
      BoardTime(q, r, t, d, p) == AlightTime(q, r, t, d, p) != UNREACHED
  }

  /** No ride that may be taken takes negative time. */
  ghost predicate RidesAdvance(q: Query) {
    forall ride | Permitted(q, ride) :: Cost(q, RideStart(q, ride)) <= Cost(q, RideEnd(q, ride))
  }

  /** No trip in use goes back in time between two stops whose times it represents. */
  ghost predicate TripsAdvance(q: Query) {
    forall ride | InBounds(q, ride) && Usable(q, ride.route, ride.trip, ride.day)
                  && RideStart(q, ride) != UNREACHED && RideEnd(q, ride) != UNREACHED ::
      Cost(q, RideStart(q, ride)) <= Cost(q, RideEnd(q, ride))
  }

  lemma TripsAdvanceRidesAdvance(q: Query)
    requires TripsAdvance(q)
    ensures RidesAdvance(q)
  {}

  /** The delayed times at the two ends of a ride, before they are wrapped. */
  function StartUnwrapped(q: Query, ride: Ride): int
    requires InBounds(q, ride)
  { UnwrappedTime(q, ride, ride.on, q.req.arriveBy) }

  function EndUnwrapped(q: Query, ride: Ride): int
    requires InBounds(q, ride)
  { UnwrappedTime(q, ride, ride.off, !q.req.arriveBy) }

  function UnwrappedTime(q: Query, ride: Ride, p: nat, arrive: bool): int
    requires HasTrip(q, ride.route, ride.trip, ride.day) && HasStop(q, ride.route, p)
  {
    assert RouteInBounds(q.td, q.td.routes[ride.route]);
    var trip, day := q.td.routes[ride.route].trips[ride.trip], q.days[ride.day];
    day.midnight + TimeOfDay(trip, p, arrive) + DelayOn(trip, day)
  }

  /** Both lie in one window of 16 bits. */
  predicate OneWindow(q: Query, ride: Ride)
    requires InBounds(q, ride)
  { StartUnwrapped(q, ride) / WIDTH == EndUnwrapped(q, ride) / WIDTH }

  /** The trip is planned not to go back in time on this ride, and its times of day fit. */
  predicate PlannedInOrder(q: Query, ride: Ride)
    requires InBounds(q, ride)
  {
    assert RouteInBounds(q.td, q.td.routes[ride.route]);
    var trip := q.td.routes[ride.route].trips[ride.trip];
    var start, end := TimeOfDay(trip, ride.on, q.req.arriveBy), TimeOfDay(trip, ride.off, !q.req.arriveBy);
    start < WIDTH && end < WIDTH && if q.req.arriveBy then end <= start else start <= end
  }

  /** A ride that is planned in order, at times that are represented, goes back in
      time exactly when a delay wraps one of its ends and not the other. */
  lemma WindowsDecide(q: Query, ride: Ride)
    requires InBounds(q, ride) && PlannedInOrder(q, ride)
    requires RideStart(q, ride) != UNREACHED && RideEnd(q, ride) != UNREACHED
    ensures Cost(q, RideStart(q, ride)) <= Cost(q, RideEnd(q, ride)) <==> OneWindow(q, ride)
  {
    assert RouteInBounds(q.td, q.td.routes[ride.route]);
    var trip, day := q.td.routes[ride.route].trips[ride.trip], q.days[ride.day];
    TimeWraps(trip, ride.on, q.req.arriveBy, day);
    TimeWraps(trip, ride.off, !q.req.arriveBy, day);
    if q.req.arriveBy {
      WrapsApart(EndUnwrapped(q, ride), StartUnwrapped(q, ride));
    } else {
      WrapsApart(StartUnwrapped(q, ride), EndUnwrapped(q, ride));
    }
  }

  lemma TimeWraps(trip: Trip, p: nat, arrive: bool, day: ServiceDay)
    requires p < |trip.times| && TimeOfDay(trip, p, arrive) < WIDTH && StopTimeOn(trip, p, arrive, day) != UNREACHED
    ensures 0 <= day.midnight + TimeOfDay(trip, p, arrive) < WIDTH
    ensures StopTimeOn(trip, p, arrive, day) == (day.midnight + TimeOfDay(trip, p, arrive) + DelayOn(trip, day)) % WIDTH
  {
    StopTimeIsExact(trip, p, arrive, day);
  }

  /** Two numbers less than a window apart keep their order when wrapped exactly when
      they lie in one window. */
  lemma WrapsApart(a: int, b: int)
    requires a <= b < a + WIDTH
    ensures a % WIDTH <= b % WIDTH <==> a / WIDTH == b / WIDTH
  {
    assert a == a / WIDTH * WIDTH + a % WIDTH && b == b / WIDTH * WIDTH + b % WIDTH;
  }

  /** No trip in use is delayed. */
  ghost predicate OnTime(q: Query) {
    forall r: nat, t: nat, d: nat | Usable(q, r, t, d) :: DelayOn(q.td.routes[r].trips[t], q.days[d]) == 0
  }

  ghost predicate NotOvertaken(q: Query, r: nat, t: nat, d: nat, t': nat, d': nat)
    requires HasTrip(q, r, t, d) && HasTrip(q, r, t', d')
  {
    forall p: nat, p': nat | HasStop(q, r, p) && HasStop(q, r, p') && Before(q, p, p')
                   && Cost(q, BoardTime(q, r, t, d, p)) <= Cost(q, BoardTime(q, r, t', d', p)) ::
      Cost(q, AlightTime(q, r, t, d, p')) <= Cost(q, AlightTime(q, r, t', d', p'))
  }

  /** Within a route, across all trips and service days in use, who is first at
      one stop is first at every later one. */
  ghost predicate Fifo(q: Query) {
    forall r: nat, t: nat, d: nat, t': nat, d': nat | Usable(q, r, t, d) && Usable(q, r, t', d') :: NotOvertaken(q, r, t, d, t', d')
  }

  /** The route's minimum and maximum times bound its stop times. */
  ghost predicate Bounded(q: Query, r: nat) {
    forall t: nat, d: nat, p: nat | Usable(q, r, t, d) && HasStop(q, r, p) && BoardTime(q, r, t, d, p) != UNREACHED ::
      q.days[d].midnight + q.td.routes[r].minTime <= BoardTime(q, r, t, d, p)
        <= q.days[d].midnight + q.td.routes[r].maxTime
  }

  /** Wherever one may board after the first stop, one may also alight. */
  ghost predicate AlightWhereBoard(q: Query) {
    forall r: nat, p: nat, p': nat | HasStop(q, r, p) && HasStop(q, r, p') && Before(q, p', p) && BoardAllowed(q, r, p) ::
      AlightAllowed(q, r, p)
  }

  /** The indexes of the timetable are complete. */
  ghost predicate Indexed(q: Query) {
    && (forall r: nat, p: nat | HasStop(q, r, p) :: r in q.td.stops[StopAt(q, r, p)].routes)
    && (forall r: nat, t: nat, d: nat | Usable(q, r, t, d) ::
          q.td.routes[r].trips[t].active <= q.td.routes[r].active)
  }

  /** Two footpaths in a row are never faster than one. */
  ghost predicate Triangle(q: Query) {
    forall s: nat, i: nat, j: nat | HasFootpath(q, s, i) && HasFootpath(q, PathTarget(q, s, i), j) ::
      Shortcut(q, s, PathTarget(q, PathTarget(q, s, i), j),
               PathTime(q, s, i) + PathTime(q, PathTarget(q, s, i), j))
  }

  ghost predicate Shortcut(q: Query, s: nat, u: nat, time: nat) {
    s == u || exists k: nat :: HasFootpath(q, s, k) && PathTarget(q, s, k) == u && PathTime(q, s, k) <= time
  }

  /** The request uses none of the features that trade optimality for control. */
  predicate Plain(q: Query) {
    q.req.via == NONE && q.req.nBannedStops == 0 && q.req.nBannedStopsHard == 0 && InRange(q.req.time)
  }

  ghost predicate Ideal(q: Query) {
    && Valid(q) && Plain(q)
    && OneTimePerStop(q) && TripsAdvance(q) && Fifo(q) && (forall r | 0 <= r < |q.td.routes| :: Bounded(q, r))
    && AlightWhereBoard(q) && Indexed(q) && Triangle(q)
  }

  /** A line of one trip from stop 0 to stop 1, on the given days. */
  function Shuttle(begin: RTime, duration: RTime, days: Mask): Timetable
    requires begin + duration < WIDTH
  {
    var trip := Trip([StopTime(0, 0), StopTime(duration, duration)], begin, 0, days, {});
    var both := {RSA_BOARDING, RSA_ALIGHTING};
    Timetable([Stop([0], [Transfer(1, 10)]), Stop([0], [Transfer(0, 10)])],
              [Route([0, 1], [both, both], [trip], {0}, 0, days, begin, begin + duration)])
  }

  lemma ShuttleTimes(q: Query, begin: RTime, duration: RTime, days: Mask, d: nat, p: nat)
    requires TWO_DAYS + begin + duration < UNREACHED && d < 3 && p < 2
    requires q.td == Shuttle(begin, duration, days) && Valid(q)
    ensures BoardTime(q, 0, 0, d, p) == AlightTime(q, 0, 0, d, p) == q.days[d].midnight + begin + (if p == 0 then 0 else duration)
  {}

  /** The conditions can be met: a shuttle meets them for every plain request. */
  lemma ShuttleIsIdeal(begin: RTime, duration: RTime, days: Mask, req: Request, realtimeMask: Mask)
    requires TWO_DAYS + begin + duration < UNREACHED && req.from < 2 && req.to < 2 && req.walkSpeed > 0.0
    requires Plain(QueryFor(Shuttle(begin, duration, days), req, realtimeMask))
    ensures Ideal(QueryFor(Shuttle(begin, duration, days), req, realtimeMask))
  {
    hide BoardTime, AlightTime, RouteAllowed, TripAllowed, WalkTimes, BoardAllowed, AlightAllowed;
    var q := QueryFor(Shuttle(begin, duration, days), req, realtimeMask);
    forall d: nat, p: nat | d < 3 && p < 2
      ensures BoardTime(q, 0, 0, d, p) == AlightTime(q, 0, 0, d, p) == q.days[d].midnight + begin + (if p == 0 then 0 else duration)
    {
      ShuttleTimes(q, begin, duration, days, d, p);
    }
    forall r: nat, p: nat | HasStop(q, r, p) ensures r == 0 && p < 2 && AlightAllowed(q, r, p) {
      ShuttleStops(q, begin, duration, days, p);
    }
    assert Indexed(q);
    assert Triangle(q);
    assert AlightWhereBoard(q);
    assert TripsAdvance(q) && OneTimePerStop(q);
    assert Fifo(q);
    assert Bounded(q, 0);
  }

  lemma ShuttleStops(q: Query, begin: RTime, duration: RTime, days: Mask, p: nat)
    requires begin + duration < WIDTH && q.td == Shuttle(begin, duration, days) && HasStop(q, 0, p)
    ensures AlightAllowed(q, 0, p)
  {}
}
