/** Rides and walks as a passenger sees them, in the direction of travel and in the
    timetable's own terms.  The searches' definitions, which follow the direction of
    the search, are shown to mean exactly this. */
module Travel {
  import opened Rtime
  import opened Timetables
  import opened Journeys

  /** The constants of time in seconds. */
  lemma UnitsOfTime()
    ensures 4 * ONE_DAY == 24 * 60 * 60 && 4 * TWO_DAYS == 2 * 24 * 60 * 60 && 4 * THREE_DAYS == 3 * 24 * 60 * 60
    ensures UNREACHED == 65535 && WIDTH == 65536 && CANCELED == 32767
  {}

  /* ----- service days ----- */

  /** The service day that is `shift` days after the requested one, in either order. */
  function DayIndex(q: Query, shift: int): int { if q.req.arriveBy then 1 - shift else 1 + shift }

  /** The three service days are yesterday, today and tomorrow: each begins a day after
      the one before, runs what is active on the requested days moved by as much, and
      is on realtime when the day that realtime is known for is among them. */
  lemma DaysMean(q: Query, realtimeMask: Mask, shift: int)
    requires q.req.walkSpeed > 0.0 && q == QueryFor(q.td, q.req, realtimeMask) && -1 <= shift <= 1
    ensures var day := q.days[DayIndex(q, shift)];
            && day.midnight == 21_600 * (shift + 1)
            && (forall active: Mask :: Meets(day.mask, active) <==> ActiveOn(q.req, shift, active))
            && (day.realtime <==> ActiveOn(q.req, shift, realtimeMask))
  {
    hide WalkTimes;
    var day := q.days[DayIndex(q, shift)];
    forall date: nat ensures date in day.mask <==> IsRequested(q.req, shift, date) {
      if shift == -1 && date + 1 in q.req.dayMask {
        assert (date + 1) - 1 == date;
      }
      if shift == 1 && date > 0 && date - 1 in q.req.dayMask && date - 1 < 31 {
        assert (date - 1) + 1 == date;
      }
    }
    forall active: Mask ensures Meets(day.mask, active) <==> ActiveOn(q.req, shift, active) {
      if Meets(day.mask, active) {
        var date :| date in day.mask && date in active;
        assert IsRequested(q.req, shift, date);
      }
    }
    RealtimeMeans(q, realtimeMask, shift);
  }

  lemma RealtimeMeans(q: Query, realtimeMask: Mask, shift: int)
    requires q.req.walkSpeed > 0.0 && q == QueryFor(q.td, q.req, realtimeMask) && -1 <= shift <= 1
    ensures q.days[DayIndex(q, shift)].realtime <==> Meets(q.days[DayIndex(q, shift)].mask, realtimeMask)
  {
    hide WalkTimes;
  }

  /** The date is a requested day moved by the shift, within the 32 of the calendar. */
  predicate IsRequested(req: Request, shift: int, date: nat) {
    date - shift >= 0 && date - shift in req.dayMask && (shift == 1 ==> date <= 31)
  }

  predicate ActiveOn(req: Request, shift: int, active: Mask) { exists date :: date in active && IsRequested(req, shift, date) }

  /** The routes flagged are those that run on one of the three days. */
  lemma RunsMean(q: Query, realtimeMask: Mask, route: Route)
    requires q.req.walkSpeed > 0.0 && q == QueryFor(q.td, q.req, realtimeMask) && Valid(q)
    ensures RouteRuns(q, route) <==> exists shift | -1 <= shift <= 1 :: ActiveOn(q.req, shift, route.active)
  {
    hide WalkTimes, WellFormed;
    DaysMean(q, realtimeMask, -1);
    DaysMean(q, realtimeMask, 0);
    DaysMean(q, realtimeMask, 1);
    var all := q.days[0].mask + q.days[1].mask + q.days[2].mask;
    assert Meets(all, route.active) <==>
             Meets(q.days[0].mask, route.active) || Meets(q.days[1].mask, route.active) || Meets(q.days[2].mask, route.active);
  }

  /* ----- rides ----- */

  /** A trip taken on the day `shift` days after the requested one, from one position
      of its route to a later one. */
  datatype Lift = Lift(route: nat, trip: nat, shift: int, from: nat, to: nat)

  predicate Exists(q: Query, l: Lift) {
    && Valid(q) && -1 <= l.shift <= 1
    && l.route < |q.td.routes| && l.trip < |q.td.routes[l.route].trips|
    && l.from < l.to < |q.td.routes[l.route].stops|
    && |q.td.routes[l.route].stopAttributes| == |q.td.routes[l.route].stops| == |q.td.routes[l.route].trips[l.trip].times|
  }

  /** Scheduled departure and arrival, on that day. */
  function Departs(q: Query, l: Lift): RTime
    requires Exists(q, l)
  { StopTimeOn(q.td.routes[l.route].trips[l.trip], l.from, false, q.days[DayIndex(q, l.shift)]) }

  function Arrives(q: Query, l: Lift): RTime
    requires Exists(q, l)
  { StopTimeOn(q.td.routes[l.route].trips[l.trip], l.to, true, q.days[DayIndex(q, l.shift)]) }

  /** What the request asks of a lift.  The hard-banned stop may only be where the
      search boards; a trip cannot be boarded backward at time 0. */
  predicate Allows(q: Query, l: Lift)
    requires Exists(q, l)
  {
    var req, route, trip := q.req, q.td.routes[l.route], q.td.routes[l.route].trips[l.trip];
    var departs, arrives := Departs(q, l), Arrives(q, l);
    && (exists mode :: mode in req.mode && mode in route.attributes)
    && (req.agency == 0xFFFF || req.agency == route.agency)
    && (req.nBannedRoutes == 0 || l.route != req.bannedRoute)
    && ActiveOn(req, l.shift, trip.active)
    && (forall attribute | attribute in req.tripAttributes :: attribute in trip.attributes)
    && trip.delay != 32767
    && 1 in route.stopAttributes[l.from] && 2 in route.stopAttributes[l.to]
    && departs != 65535 && arrives != 65535
    && (if req.arriveBy
        then arrives != 0 && departs <= 64_800 && departs <= req.time && (req.timeCutoff != 65535 ==> departs >= req.timeCutoff)
        else arrives <= 64_800 && arrives >= req.time && (req.timeCutoff != 65535 ==> arrives <= req.timeCutoff))
    && (forall p: nat | l.from <= p <= l.to && p != (if req.arriveBy then l.to else l.from) ::
          req.nBannedStopsHard == 0 || route.stops[p] != req.bannedStopHard)
  }

  /** The lift that a ride of a search is. */
  function LiftOf(q: Query, ride: Ride): Lift {
    if q.req.arriveBy then Lift(ride.route, ride.trip, 1 - ride.day, ride.off, ride.on)
    else Lift(ride.route, ride.trip, ride.day - 1, ride.on, ride.off)
  }

  /** Its two ends are those of the lift. */
  lemma LiftEnds(q: Query, ride: Ride)
    requires InBounds(q, ride)
    ensures var l := LiftOf(q, ride); var stops := q.td.routes[ride.route].stops;
            && Exists(q, l) && DayIndex(q, l.shift) == ride.day
            && (if q.req.arriveBy
                then RideFrom(q, ride) == stops[l.to] && RideTo(q, ride) == stops[l.from]
                     && RideStart(q, ride) == Arrives(q, l) && RideEnd(q, ride) == Departs(q, l)
                else RideFrom(q, ride) == stops[l.from] && RideTo(q, ride) == stops[l.to]
                     && RideStart(q, ride) == Departs(q, l) && RideEnd(q, ride) == Arrives(q, l))
  {
    assert RouteInBounds(q.td, q.td.routes[ride.route]);
  }

  /** The rides a search may take are exactly the lifts that the request allows. */
  lemma PermittedExactly(q: Query, realtimeMask: Mask, ride: Ride)
    requires q.req.walkSpeed > 0.0 && q == QueryFor(q.td, q.req, realtimeMask)
    ensures Permitted(q, ride) <==> ride.day < 3 && Exists(q, LiftOf(q, ride)) && Allows(q, LiftOf(q, ride))
  {
    hide WalkTimes, StopTimeOn, WellFormed, QueryFor, ActiveOn;
    if Exists(q, LiftOf(q, ride)) && ride.day < 3 {
      var l := LiftOf(q, ride);
      assert InBounds(q, ride);
      LiftEnds(q, ride);
      DaysMean(q, realtimeMask, l.shift);
      PassesHardBan(q, ride);
      AllowedAtStops(q, ride);
      AllowedAsLift(q, ride);
    } else if Permitted(q, ride) {
      LiftEnds(q, ride);
    }
  }

  lemma PassesHardBan(q: Query, ride: Ride)
    requires InBounds(q, ride)
    ensures var l := LiftOf(q, ride); var stops := q.td.routes[ride.route].stops;
            (forall m | HasStop(q, ride.route, m) && Before(q, ride.on, m) && !Before(q, ride.off, m) ::
               !HardBanned(q, StopAt(q, ride.route, m)))
            <==> (forall p: nat | l.from <= p <= l.to && p != (if q.req.arriveBy then l.to else l.from) ::
                    q.req.nBannedStopsHard == 0 || stops[p] != q.req.bannedStopHard)
  {
    var l, stops := LiftOf(q, ride), q.td.routes[ride.route].stops;
    forall p: nat | l.from <= p <= l.to && p != (if q.req.arriveBy then l.to else l.from)
      ensures HasStop(q, ride.route, p) && Before(q, ride.on, p) && !Before(q, ride.off, p) && StopAt(q, ride.route, p) == stops[p]
    {}
  }

  lemma AllowedAtStops(q: Query, ride: Ride)
    requires InBounds(q, ride)
    ensures Exists(q, LiftOf(q, ride))
    ensures var l := LiftOf(q, ride); var attributes := q.td.routes[ride.route].stopAttributes;
            BoardAllowed(q, ride.route, ride.on) && AlightAllowed(q, ride.route, ride.off)
            <==> 1 in attributes[l.from] && 2 in attributes[l.to]
  {
    assert RouteInBounds(q.td, q.td.routes[ride.route]);
  }

  lemma AllowedAsLift(q: Query, ride: Ride)
    requires InBounds(q, ride)
    ensures ModeAllowed(q.req, q.td.routes[ride.route])
       <==> exists mode :: mode in q.req.mode && mode in q.td.routes[ride.route].attributes
    ensures var trip := q.td.routes[ride.route].trips[ride.trip];
            TripAllowed(q, ride.route, ride.trip, ride.day)
            <==> Meets(q.days[ride.day].mask, trip.active) && trip.delay != 32767
                 && forall attribute | attribute in q.req.tripAttributes :: attribute in trip.attributes
  {}

  /* ----- journeys ----- */

  /** An earlier time costs less going forward, a later one going backward, and any
      time less than none. */
  lemma OrderOfTimes(q: Query, a: RTime, b: RTime)
    ensures Cost(q, a) < Cost(q, b) <==> a != 65535 && (b == 65535 || if q.req.arriveBy then a > b else a < b)
    ensures Better(q, a, b) <==> if q.req.arriveBy then a > b else a < b
  {}

  /** Where and when something leads, if it can be travelled. */
  datatype Place = Nowhere | At(stop: nat, time: int)

  /** From a stop that is not banned one may stay, or walk within the three days. */
  function Walked(q: Query, w: Walk, from: nat, time: RTime): Place {
    if time == 65535 || w.from != from || from >= |q.td.stops| || (q.req.nBannedStops > 0 && from == q.req.bannedStop) then Nowhere
    else
      match w
      case Stay(_) => At(from, time)
      case Foot(_, i) =>
        if i >= |q.td.stops[from].transfers| || q.td.stops[from].transfers[i].distance >= |q.walks| then Nowhere
        else
          var path := q.td.stops[from].transfers[i];
          var end: int := if q.req.arriveBy then time - q.walks[path.distance] else time + q.walks[path.distance];
          if 0 <= end <= 64_800 then At(path.target, end) else Nowhere
  }

  /** A journey walks from where the search starts, then takes rides, each followed by a
      walk.  Going backward a ride is met where it arrives and left where it departs. */
  ghost function Leads(q: Query, j: Journey): Place
    decreases j
  {
    match j
    case Access(w) => Walked(q, w, if q.req.arriveBy then q.req.to else q.req.from, q.req.time)
    case Onward(prev, ride, w) =>
      var l, before := LiftOf(q, ride), Leads(q, prev);
      if before.Nowhere? || ride.day >= 3 || !Exists(q, l) || !Allows(q, l) then Nowhere
      else
        var stops := q.td.routes[l.route].stops;
        if q.req.arriveBy then
          if stops[l.to] == before.stop && Arrives(q, l) <= before.time then Walked(q, w, stops[l.from], Departs(q, l)) else Nowhere
        else
          if stops[l.from] == before.stop && before.time <= Departs(q, l) then Walked(q, w, stops[l.to], Arrives(q, l)) else Nowhere
  }

  /** The feasible journeys are exactly these. */
  lemma {:induction false} FeasibleExactly(q: Query, realtimeMask: Mask, j: Journey)
    requires q.req.walkSpeed > 0.0 && q == QueryFor(q.td, q.req, realtimeMask) && Valid(q)
    ensures Feasible(q, j) <==> Leads(q, j).At?
    ensures Feasible(q, j) ==> Leads(q, j) == At(EndStop(q, j), EndTime(q, j))
    decreases j
  {
    hide WellFormed, WalkTimes, QueryFor, Permitted, Allows;
    if j.Access? {
      WalkedExactly(q, j.walk, Origin(q.req), q.req.time);
    } else {
      FeasibleExactly(q, realtimeMask, j.prev);
      PermittedExactly(q, realtimeMask, j.ride);
      if Feasible(q, j.prev) && Permitted(q, j.ride) {
        EndsAfterRequest(q, j.prev);
        PermittedInBounds(q, j.ride);
        LiftEnds(q, j.ride);
        WalkedExactly(q, j.walk, RideTo(q, j.ride), RideEnd(q, j.ride));
      }
    }
  }

  lemma PermittedInBounds(q: Query, ride: Ride)
    requires Permitted(q, ride)
    ensures InBounds(q, ride) && RideStart(q, ride) != 65535
  {}

  lemma WalkedExactly(q: Query, w: Walk, from: nat, time: RTime)
    requires Valid(q)
    ensures Walked(q, w, from, time) ==
              if w.from == from && !Banned(q, from) && WalkFits(q, w, time) then At(WalkTo(q, w), WalkEnd(q, w, time)) else Nowhere
  {
    if w.Foot? && HasFootpath(q, w.from, w.path) {
      assert StopInBounds(q.td, q.td.stops[w.from]);
    }
  }
}
