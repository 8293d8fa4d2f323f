/** What a search is asked for, and what counts as an answer: rides, walks and
    the journeys they form.  Both search directions share one set of
    definitions: a time is compared by its Cost, which is the time itself when
    departing after the request time and its negation when arriving by it. */
module Journeys {
  import opened Rtime
  import opened Timetables

  const NONE: nat := 0xFFFF_FFFF
  const AGENCY_UNFILTERED: nat := 0xFFFF
  const MAX_ROUNDS: nat := 6

  datatype Request = Request(
    from: nat, to: nat, via: nat, time: RTime, timeCutoff: RTime,
    walkSpeed: real, walkSlack: nat, arriveBy: bool, maxTransfers: nat,
    dayMask: Mask, mode: Mask, agency: nat, tripAttributes: Mask, fewestTransfers: bool,
    nBannedRoutes: nat, bannedRoute: nat, nBannedStops: nat, bannedStop: nat,
    nBannedStopsHard: nat, bannedStopHard: nat)

  datatype ServiceDay = ServiceDay(midnight: RTime, mask: Mask, realtime: bool)

  /** A request against a timetable, with the service days and the walking times
      (by stored distance) that the request implies. */
  datatype Query = Query(td: Timetable, req: Request, days: seq<ServiceDay>, walks: seq<RTime>)

  /* ----- what a request implies ----- */

  /** The service days around the requested one, in the order they are searched. */
  function ServiceDays(req: Request, realtimeMask: Mask): (days: seq<ServiceDay>)
    ensures |days| == 3
  {
    var before := set day | day in req.dayMask && day > 0 :: day - 1;
    var after := set day | day in req.dayMask && day < 31 :: day + 1;
    var yesterday := ServiceDay(0, before, Meets(before, realtimeMask));
    var today := ServiceDay(ONE_DAY, req.dayMask, Meets(req.dayMask, realtimeMask));
    var tomorrow := ServiceDay(TWO_DAYS, after, Meets(after, realtimeMask));
    if req.arriveBy then [tomorrow, today, yesterday] else [yesterday, today, tomorrow]
  }

  /** Walking time for each stored distance, at the requested speed. */
  function WalkTimes(walkSpeed: real, walkSlack: nat): (walks: seq<RTime>)
    requires walkSpeed > 0.0
    ensures |walks| == 256
  {
    seq(256, distance requires 0 <= distance < 256 =>
      var seconds := ((distance * 16) as real / walkSpeed + walkSlack as real).Floor;
      (seconds / 4) % WIDTH)
  }

  /** Walking a stored distance, with slack, takes less time than 16 bits can tell. */
  predicate Walkable(speed: real, slack: nat, distance: nat) {
    16.0 * distance as real + slack as real * speed < 4.0 * 65536.0 * speed
  }

  /** Each walking time is the whole 4-second units of walking the distance, stored in
      units of 16 metres, at the given speed, and then waiting out the slack. */
  ghost predicate WalksLast(walks: seq<RTime>, speed: real, slack: nat) {
    && |walks| == 256
    && forall distance: nat | distance < 256 && Walkable(speed, slack, distance) ::
         var units := walks[distance] as real;
         4.0 * units * speed <= 16.0 * distance as real + slack as real * speed < (4.0 * units + 4.0) * speed
  }

  lemma WalkTimesLast(speed: real, slack: nat)
    requires speed > 0.0
    ensures WalksLast(WalkTimes(speed, slack), speed, slack)
  {
    forall distance: nat | distance < 256 && Walkable(speed, slack, distance)
      ensures var units := WalkTimes(speed, slack)[distance] as real;
              4.0 * units * speed <= 16.0 * distance as real + slack as real * speed < (4.0 * units + 4.0) * speed
    {
      OneWalkLasts(speed, slack, distance, WalkTimes(speed, slack)[distance]);
    }
  }

  /** The length of a walk in seconds. */
  ghost function Seconds(speed: real, slack: nat, distance: nat): (time: real)
    requires speed > 0.0
    ensures time >= 0.0
  {
    Divided((distance * 16) as real, speed);
    (distance * 16) as real / speed + slack as real
  }

  lemma Divided(a: real, b: real)
    requires a >= 0.0 && b > 0.0
    ensures a / b * b == a && a / b >= 0.0
  {}

  /** Comparing it with a whole time is comparing distances. */
  lemma SecondsCompare(speed: real, slack: nat, distance: nat, bound: real)
    requires speed > 0.0
    ensures Seconds(speed, slack, distance) < bound <==> 16.0 * distance as real + slack as real * speed < bound * speed
  {
    var a, s := (distance * 16) as real, slack as real;
    var r := a / speed;
    Divided(a, speed);
    Scaled(r + s, bound, speed);
    Distributed(r, s, speed);
  }

  lemma Scaled(a: real, b: real, speed: real)
    requires speed > 0.0
    ensures a < b <==> a * speed < b * speed
  {}

  lemma Distributed(a: real, b: real, speed: real)
    ensures (a + b) * speed == a * speed + b * speed
  {}

  lemma OneWalkLasts(speed: real, slack: nat, distance: nat, w: RTime)
    requires speed > 0.0 && distance < 256 && Walkable(speed, slack, distance)
    requires w == WalkTimes(speed, slack)[distance]
    ensures 4.0 * w as real * speed <= 16.0 * distance as real + slack as real * speed < (4.0 * w as real + 4.0) * speed
  {
    var time := Seconds(speed, slack, distance);
    assert w == (time.Floor / 4) % WIDTH;
    SecondsCompare(speed, slack, distance, 4.0 * 65536.0);
    WholeUnits(time);
    SecondsCompare(speed, slack, distance, 4.0 * w as real);
    SecondsCompare(speed, slack, distance, 4.0 * w as real + 4.0);
  }

  lemma WholeUnits(time: real)
    requires 0.0 <= time < 4.0 * 65536.0
    ensures var units := (time.Floor / 4) % WIDTH; 4.0 * units as real <= time < 4.0 * units as real + 4.0
  {}

  /** Walking faster, or with less slack, never takes longer. */
  lemma FasterIsNoLonger(walks: seq<RTime>, speed: real, slack: nat, walks': seq<RTime>, speed': real, slack': nat, distance: nat)
    requires WalksLast(walks, speed, slack) && WalksLast(walks', speed', slack')
    requires 0.0 < speed <= speed' && slack' <= slack && distance < 256
    requires Walkable(speed, slack, distance)
    ensures Walkable(speed', slack', distance) && walks'[distance] <= walks[distance]
  {
    SecondsFall(speed, slack, speed', slack', distance);
    SecondsCompare(speed, slack, distance, 4.0 * 65536.0);
    SecondsCompare(speed', slack', distance, 4.0 * 65536.0);
    var more, fewer := walks[distance] as real, walks'[distance] as real;
    SecondsCompare(speed, slack, distance, 4.0 * more + 4.0);
    SecondsCompare(speed', slack', distance, 4.0 * fewer);
  }

  lemma SecondsFall(speed: real, slack: nat, speed': real, slack': nat, distance: nat)
    requires 0.0 < speed <= speed' && slack' <= slack
    ensures Seconds(speed', slack', distance) <= Seconds(speed, slack, distance)
  {
    QuotientFalls((distance * 16) as real, speed, speed');
  }

  lemma QuotientFalls(a: real, b: real, c: real)
    requires a >= 0.0 && 0.0 < b <= c
    ensures a / c <= a / b
  {
    Divided(a, b);
    Divided(a, c);
    var r, t := a / c, a / b;
    if t < r {
      Scaled(t, r, c);
      Grows(t, b, c);
    }
  }

  lemma Grows(t: real, b: real, c: real)
    requires t >= 0.0 && b <= c
    ensures t * b <= t * c
  {}

  function QueryFor(td: Timetable, req: Request, realtimeMask: Mask): Query
    requires req.walkSpeed > 0.0
  {
    Query(td, req, ServiceDays(req, realtimeMask), WalkTimes(req.walkSpeed, req.walkSlack))
  }

  /** Transfers plus one, as unsigned 32-bit arithmetic, and at most the number of rows. */
  function RoundCount(req: Request): (n: nat)
    ensures n <= 6 && (req.maxTransfers < 0xFFFF_FFFF ==> n == if req.maxTransfers < 6 then req.maxTransfers + 1 else 6)
  {
    var n := (req.maxTransfers + 1) % 0x1_0000_0000;
    if n > MAX_ROUNDS then MAX_ROUNDS else n
  }

  predicate Valid(q: Query) {
    && WellFormed(q.td)
    && |q.days| == 3 && |q.walks| == 256
    && (forall d | 0 <= d < 3 :: q.days[d].midnight == ONE_DAY * if q.req.arriveBy then 2 - d else d)
    && q.req.from < |q.td.stops| && q.req.to < |q.td.stops|
  }

  function Origin(req: Request): nat { if req.arriveBy then req.to else req.from }

  function Target(req: Request): nat { if req.arriveBy then req.from else req.to }

  /* ----- comparing times ----- */

  const INFINITY: int := 0x2_0000

  function Cost(q: Query, t: int): int {
    if t == UNREACHED then INFINITY else if q.req.arriveBy then -t else t
  }

  /** Time a is strictly preferable to time b. */
  predicate Better(q: Query, a: RTime, b: RTime) {
    if q.req.arriveBy then a > b else a < b
  }

  /** Position i of a route is visited before position j in this search. */
  predicate Before(q: Query, i: int, j: int) {
    if q.req.arriveBy then j < i else i < j
  }

  /* ----- rides ----- */

  /** The scheduled time of a trip at one of its stops, as 16-bit arithmetic
      yields it, with the realtime delay on days that have one. */
  function StopTimeOn(trip: Trip, p: nat, arrive: bool, day: ServiceDay): RTime
    requires p < |trip.times|
  {
    var time: RTime := (trip.begin + if arrive then trip.times[p].arrival else trip.times[p].departure) % WIDTH;
    var adjusted: RTime := (time + day.midnight) % WIDTH;
    if adjusted < time then UNREACHED
    else if day.realtime then (adjusted + trip.delay) % WIDTH
    else adjusted
  }

  /** A trip's time of day, and what realtime adds to it on that day. */
  function TimeOfDay(trip: Trip, p: nat, arrive: bool): nat
    requires p < |trip.times|
  { trip.begin + if arrive then trip.times[p].arrival else trip.times[p].departure }

  function DelayOn(trip: Trip, day: ServiceDay): int { if day.realtime then trip.delay else 0 }

  /** The overflow test fires exactly when the time on that day does not fit before
      realtime is applied.  Otherwise the result is the true time exactly when that
      fits after it; a delay that leaves the range wraps unnoticed.  A time of day
      that does not fit itself has wrapped before. */
  lemma StopTimeIsExact(trip: Trip, p: nat, arrive: bool, day: ServiceDay)
    requires p < |trip.times|
    ensures var planned, delay := day.midnight + TimeOfDay(trip, p, arrive) % WIDTH, DelayOn(trip, day);
            if planned >= WIDTH then StopTimeOn(trip, p, arrive, day) == UNREACHED
            else StopTimeOn(trip, p, arrive, day) == planned + delay <==> 0 <= planned + delay < WIDTH
    ensures TimeOfDay(trip, p, arrive) < WIDTH && DelayOn(trip, day) == 0 ==>
      var exact := day.midnight + TimeOfDay(trip, p, arrive);
      StopTimeOn(trip, p, arrive, day) == if exact < WIDTH then exact else UNREACHED
  {
    var time := TimeOfDay(trip, p, arrive) % WIDTH;
    if time + day.midnight >= WIDTH {
      assert (time + day.midnight) % WIDTH == time + day.midnight - WIDTH;
    }
  }

  predicate HasTrip(q: Query, r: nat, t: nat, d: nat) {
    Valid(q) && r < |q.td.routes| && t < |q.td.routes[r].trips| && d < 3
  }

  predicate HasStop(q: Query, r: nat, p: int) {
    Valid(q) && r < |q.td.routes| && 0 <= p < |q.td.routes[r].stops|
  }

  function StopAt(q: Query, r: nat, p: nat): nat
    requires HasStop(q, r, p)
    ensures StopAt(q, r, p) < |q.td.stops|
  {
    assert RouteInBounds(q.td, q.td.routes[r]);
    q.td.routes[r].stops[p]
  }

  /** The time compared when getting on at position p: a departure, or when
      searching backward an arrival. */
  function BoardTime(q: Query, r: nat, t: nat, d: nat, p: nat): RTime
    requires HasTrip(q, r, t, d) && HasStop(q, r, p)
  {
    assert RouteInBounds(q.td, q.td.routes[r]);
    StopTimeOn(q.td.routes[r].trips[t], p, q.req.arriveBy, q.days[d])
  }

  function AlightTime(q: Query, r: nat, t: nat, d: nat, p: nat): RTime
    requires HasTrip(q, r, t, d) && HasStop(q, r, p)
  {
    assert RouteInBounds(q.td, q.td.routes[r]);
    StopTimeOn(q.td.routes[r].trips[t], p, !q.req.arriveBy, q.days[d])
  }

  predicate ModeAllowed(req: Request, route: Route) {
    Meets(req.mode, route.attributes)
  }

  /** The route's day bits meet one of the three service days. */
  predicate RouteRuns(q: Query, route: Route)
    requires Valid(q)
  {
    Meets(q.days[0].mask + q.days[1].mask + q.days[2].mask, route.active)
  }

  predicate RouteAllowed(q: Query, r: nat)
    requires Valid(q) && r < |q.td.routes|
  {
    && ModeAllowed(q.req, q.td.routes[r])
    && (q.req.agency == AGENCY_UNFILTERED || q.req.agency == q.td.routes[r].agency)
    && (q.req.nBannedRoutes > 0 ==> r != q.req.bannedRoute)
  }

  predicate TripRuns(day: ServiceDay, wanted: Mask, trip: Trip) {
    && Meets(day.mask, trip.active)
    && wanted <= trip.attributes
    && trip.delay != CANCELED
  }

  predicate TripAllowed(q: Query, r: nat, t: nat, d: nat)
    requires HasTrip(q, r, t, d)
  {
    TripRuns(q.days[d], q.req.tripAttributes, q.td.routes[r].trips[t])
  }

  predicate BoardAllowed(q: Query, r: nat, p: nat)
    requires HasStop(q, r, p)
  {
    assert RouteInBounds(q.td, q.td.routes[r]);
    (if q.req.arriveBy then RSA_ALIGHTING else RSA_BOARDING) in q.td.routes[r].stopAttributes[p]
  }

  predicate AlightAllowed(q: Query, r: nat, p: nat)
    requires HasStop(q, r, p)
  {
    assert RouteInBounds(q.td, q.td.routes[r]);
    (if q.req.arriveBy then RSA_BOARDING else RSA_ALIGHTING) in q.td.routes[r].stopAttributes[p]
  }

  /** A time at which a trip can be chosen; the backward scan starts from best
      time 0 and looks for something strictly later, so it never takes time 0. */
  predicate Boardable(q: Query, t: RTime) {
    t != UNREACHED && (q.req.arriveBy ==> t != 0)
  }

  /** A time that can be recorded on alighting. */
  predicate Recordable(q: Query, t: RTime) {
    && t <= THREE_DAYS
    && !Better(q, t, q.req.time)
    && (q.req.timeCutoff != UNREACHED ==> !Better(q, q.req.timeCutoff, t))
  }

  predicate HardBanned(q: Query, stop: nat) {
    q.req.nBannedStopsHard > 0 && stop == q.req.bannedStopHard
  }

  predicate Banned(q: Query, stop: nat) {
    q.req.nBannedStops > 0 && stop == q.req.bannedStop
  }

  /** One trip of one route on one service day, from position `on` to `off`. */
  datatype Ride = Ride(route: nat, trip: nat, day: nat, on: nat, off: nat)

  predicate InBounds(q: Query, ride: Ride) {
    && HasTrip(q, ride.route, ride.trip, ride.day)
    && HasStop(q, ride.route, ride.on) && HasStop(q, ride.route, ride.off)
    && Before(q, ride.on, ride.off)
  }

  function RideFrom(q: Query, ride: Ride): nat
    requires InBounds(q, ride)
  { StopAt(q, ride.route, ride.on) }

  function RideTo(q: Query, ride: Ride): nat
    requires InBounds(q, ride)
  { StopAt(q, ride.route, ride.off) }

  function RideStart(q: Query, ride: Ride): RTime
    requires InBounds(q, ride)
  { BoardTime(q, ride.route, ride.trip, ride.day, ride.on) }

  function RideEnd(q: Query, ride: Ride): RTime
    requires InBounds(q, ride)
  { AlightTime(q, ride.route, ride.trip, ride.day, ride.off) }

  /** The ride is one that the request permits on the day it uses. */
  ghost predicate Permitted(q: Query, ride: Ride) {
    && InBounds(q, ride)
    && RouteAllowed(q, ride.route)
    && TripAllowed(q, ride.route, ride.trip, ride.day)
    && BoardAllowed(q, ride.route, ride.on) && AlightAllowed(q, ride.route, ride.off)
    && Boardable(q, RideStart(q, ride)) && Recordable(q, RideEnd(q, ride))
    && forall m | HasStop(q, ride.route, m) && Before(q, ride.on, m) && !Before(q, ride.off, m) ::
         !HardBanned(q, StopAt(q, ride.route, m))
  }

  /* ----- walks ----- */

  /** Staying at a stop, or taking one of the footpaths that leave it. */
  datatype Walk = Stay(from: nat) | Foot(from: nat, path: nat)

  predicate HasFootpath(q: Query, s: nat, i: nat) {
    Valid(q) && s < |q.td.stops| && i < |q.td.stops[s].transfers|
  }

  function PathTarget(q: Query, s: nat, i: nat): nat
    requires HasFootpath(q, s, i)
    ensures PathTarget(q, s, i) < |q.td.stops|
  {
    assert StopInBounds(q.td, q.td.stops[s]);
    q.td.stops[s].transfers[i].target
  }

  function PathTime(q: Query, s: nat, i: nat): RTime
    requires HasFootpath(q, s, i)
  {
    assert StopInBounds(q.td, q.td.stops[s]);
    q.walks[q.td.stops[s].transfers[i].distance]
  }

  predicate WalkExists(q: Query, w: Walk) {
    Valid(q) && w.from < |q.td.stops| && (w.Foot? ==> HasFootpath(q, w.from, w.path))
  }

  function WalkTo(q: Query, w: Walk): nat
    requires WalkExists(q, w)
    ensures WalkTo(q, w) < |q.td.stops|
  { if w.Stay? then w.from else PathTarget(q, w.from, w.path) }

  function WalkEnd(q: Query, w: Walk, start: RTime): int
    requires WalkExists(q, w)
  { if w.Stay? then start else Shift(q.req.arriveBy, start, PathTime(q, w.from, w.path)) }

  /** The walk exists and, unless nobody moves, ends inside the three days. */
  predicate WalkFits(q: Query, w: Walk, start: RTime) {
    WalkExists(q, w) && start != UNREACHED && (w.Foot? ==> InRange(WalkEnd(q, w, start)))
  }

  /* ----- journeys ----- */

  /** A first walk out of the search origin, followed by ride-walk pairs. */
  datatype Journey = Access(walk: Walk) | Onward(prev: Journey, ride: Ride, walk: Walk)

  function Rides(j: Journey): nat {
    match j case Access(_) => 0 case Onward(prev, _, _) => Rides(prev) + 1
  }

  predicate HasEnd(q: Query, j: Journey) {
    WalkExists(q, j.walk) && (j.Onward? ==> InBounds(q, j.ride))
  }

  function EndStop(q: Query, j: Journey): nat
    requires HasEnd(q, j)
  { WalkTo(q, j.walk) }

  function EndTime(q: Query, j: Journey): int
    requires HasEnd(q, j)
  { WalkEnd(q, j.walk, if j.Access? then q.req.time else RideEnd(q, j.ride)) }

  /** Each part begins where and not before the previous part ends. */
  ghost predicate Feasible(q: Query, j: Journey) {
    && HasEnd(q, j)
    && match j
       case Access(w) => w.from == Origin(q.req) && !Banned(q, w.from) && WalkFits(q, w, q.req.time)
       case Onward(prev, ride, w) =>
         && Feasible(q, prev) && Permitted(q, ride)
         && RideFrom(q, ride) == EndStop(q, prev)
         && Cost(q, EndTime(q, prev)) <= Cost(q, RideStart(q, ride))
         && w.from == RideTo(q, ride) && !Banned(q, w.from) && WalkFits(q, w, RideEnd(q, ride))
  }

  lemma WalkCosts(q: Query, w: Walk, start: RTime)
    requires WalkFits(q, w, start)
    ensures 0 <= WalkEnd(q, w, start) < UNREACHED
    ensures Cost(q, start) <= Cost(q, WalkEnd(q, w, start))
  {}

  /** No journey ends before it was asked to begin. */
  lemma {:induction false} EndsAfterRequest(q: Query, j: Journey)
    requires Feasible(q, j)
    ensures 0 <= EndTime(q, j) < UNREACHED
    ensures Cost(q, q.req.time) <= Cost(q, EndTime(q, j))
    ensures EndTime(q, j) == q.req.time || InRange(EndTime(q, j))
  {
    if j.Onward? {
      EndsAfterRequest(q, j.prev);
    }
    WalkCosts(q, j.walk, if j.Access? then q.req.time else RideEnd(q, j.ride));
  }
}
