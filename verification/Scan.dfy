/** The scan of one route: the invariants of being aboard a trip while walking
    along the route's stops, and one lemma for each way a stop can be handled. */
module Scans {
  import opened Rtime
  import opened Timetables
  import opened Journeys
  import opened Search
  import opened Ideals
  import opened Boardings

  /** The trip currently ridden (trip NONE if none) and where and when it was boarded. */
  datatype Boarding = Boarding(trip: nat, stop: nat, time: RTime, day: nat)

  /** The boarding happened at position `on`, before m, out of a label in `prev`. */
  ghost predicate Aboard(q: Query, r: nat, prev: Row, b: Boarding, on: nat, m: int) {
    b.trip != NONE ==>
      && HasTrip(q, r, b.trip, b.day) && HasStop(q, r, on) && Before(q, on, m)
      && TripAllowed(q, r, b.trip, b.day) && BoardAllowed(q, r, on)
      && b.stop == StopAt(q, r, on) && b.time == BoardTime(q, r, b.trip, b.day, on)
      && Boardable(q, b.time) && Reached(q, prev, b.stop, b.time)
      && forall p: nat | HasStop(q, r, p) && Before(q, on, p) && Before(q, p, m) :: !HardBanned(q, StopAt(q, r, p))
  }

  /** The position visited after m. */
  function Next(q: Query, m: int): int { if q.req.arriveBy then m - 1 else m + 1 }

  /** Stop s is known at cost t, or the target is known at a lower cost. */
  predicate Covered(q: Query, best: seq<RTime>, s: nat, t: int)
    requires Valid(q) && |best| == |q.td.stops| && s < |best|
  {
    Cost(q, best[s]) <= Cost(q, t) || Cost(q, best[Target(q.req)]) < Cost(q, t)
  }

  /** A permitted ride of route r that can be caught from the labels in prev. */
  ghost predicate Catchable(q: Query, prev: Row, r: nat, ride: Ride) {
    Permitted(q, ride) && ride.route == r && Reached(q, prev, RideFrom(q, ride), RideStart(q, ride))
  }

  /** At a hard-banned stop nobody stays aboard. */
  function Remaining(q: Query, stop: nat, b: Boarding): Boarding {
    if HardBanned(q, stop) then b.(trip := NONE) else b
  }

  /** Whether to look for a trip at position m: nobody is aboard, or the trip aboard
      leaves later than this stop was reached.  If so, nobody alights here. */
  predicate AttemptBoard(q: Query, r: nat, m: nat, prevTime: RTime, b: Boarding)
    requires HasStop(q, r, m) && (b.trip != NONE ==> HasTrip(q, r, b.trip, b.day))
  {
    && prevTime != UNREACHED
    && if b.trip == NONE || q.req.via == StopAt(q, r, m) then true
       else if q.req.via != NONE && q.req.via == b.stop then false
       else
         var tripTime := BoardTime(q, r, b.trip, b.day, m);
         tripTime != UNREACHED && Better(q, prevTime, tripTime)
  }

  /** An arrival that beats the stop's label is passed over for an attempt to board
      exactly when the label falls within the trip's wait; and for some label that
      happens exactly when the trip waits at least two units. */
  lemma WaitLosesArrival(q: Query, r: nat, m: nat, b: Boarding)
    requires HasStop(q, r, m) && b.trip != NONE && HasTrip(q, r, b.trip, b.day) && q.req.via == NONE
    requires BoardTime(q, r, b.trip, b.day, m) != UNREACHED && AlightTime(q, r, b.trip, b.day, m) != UNREACHED
    ensures var off: int, on: int := AlightTime(q, r, b.trip, b.day, m), BoardTime(q, r, b.trip, b.day, m);
            (exists prevTime: RTime :: AttemptBoard(q, r, m, prevTime, b) && Better(q, off, prevTime))
            <==> if q.req.arriveBy then off >= on + 2 else on >= off + 2
  {
    FewStops(q);
    var off: int, on: int := AlightTime(q, r, b.trip, b.day, m), BoardTime(q, r, b.trip, b.day, m);
    if q.req.arriveBy && off >= on + 2 {
      assert AttemptBoard(q, r, m, off - 1, b);
    } else if !q.req.arriveBy && on >= off + 2 {
      assert AttemptBoard(q, r, m, off + 1, b);
    }
  }

  /** Nobody boards without a label.  Otherwise one boards when nobody is aboard, and
      always at the via stop; a trip boarded there is kept; and any other is only given
      up for one that may leave earlier. */
  lemma AttemptExactly(q: Query, r: nat, m: nat, prevTime: RTime, b: Boarding)
    requires HasStop(q, r, m) && (b.trip != NONE ==> HasTrip(q, r, b.trip, b.day))
    ensures AttemptBoard(q, r, m, prevTime, b) ==> prevTime != 65535
    ensures prevTime != 65535 && (b.trip == 0xFFFF_FFFF || q.req.via == q.td.routes[r].stops[m]) ==> AttemptBoard(q, r, m, prevTime, b)
    ensures prevTime != 65535 && b.trip != 0xFFFF_FFFF && q.req.via != q.td.routes[r].stops[m] ==>
              var route := q.td.routes[r];
              |route.trips[b.trip].times| == |route.stops| &&
              var leaves := StopTimeOn(route.trips[b.trip], m, q.req.arriveBy, q.days[b.day]);
              AttemptBoard(q, r, m, prevTime, b) <==>
                && (q.req.via == 0xFFFF_FFFF || b.stop != q.req.via)
                && leaves != 65535 && if q.req.arriveBy then leaves < prevTime else prevTime < leaves
  {
    assert RouteInBounds(q.td, q.td.routes[r]);
  }

  lemma FewStops(q: Query)
    requires Valid(q)
    ensures |q.td.stops| < NONE
  {}

  /** Aboard after passing a stop that is not hard-banned. */
  lemma RideOn(q: Query, r: nat, prev: Row, b: Boarding, on: nat, m: nat)
    requires HasStop(q, r, m) && Aboard(q, r, prev, b, on, m)
    requires b.trip != NONE ==> !HardBanned(q, StopAt(q, r, m))
    ensures b.trip != NONE ==> HasTrip(q, r, b.trip, b.day)
    ensures Aboard(q, r, prev, b, on, Next(q, m))
  {}

  /** Aboard after boarding the chosen trip here. */
  lemma GetOn(q: Query, r: nat, prev: Row, m: nat, c: Choosing)
    requires HasStop(q, r, m) && BoardAllowed(q, r, m) && StopAt(q, r, m) < |prev|
    requires prev[StopAt(q, r, m)].walkTime != UNREACHED
    requires c.trip != NONE && Chosen(q, r, m, prev[StopAt(q, r, m)].walkTime, c)
    ensures Aboard(q, r, prev, Boarding(c.trip, StopAt(q, r, m), c.time, c.day), m, Next(q, m))
  {}

  /** Every catchable ride boarded before position m is accounted for: its arrival
      is covered, or the current trip will be there no later. */
  ghost predicate Scanned(q: Query, r: nat, prev: Row, best: seq<RTime>, b: Boarding, m: int) {
    && Valid(q) && r < |q.td.routes| && |best| == |q.td.stops|
    && forall ride | Catchable(q, prev, r, ride) && Before(q, ride.on, m) ::
         if Before(q, ride.off, m) then Covered(q, best, RideTo(q, ride), RideEnd(q, ride))
         else NoLater(q, b, ride)
  }

  ghost predicate NoLater(q: Query, b: Boarding, ride: Ride)
    requires InBounds(q, ride)
  {
    && b.trip != NONE && HasTrip(q, ride.route, b.trip, b.day)
    && Cost(q, AlightTime(q, ride.route, b.trip, b.day, ride.off)) <= Cost(q, RideEnd(q, ride))
  }

  /** All catchable rides of the route are covered. */
  ghost predicate RouteRelaxed(q: Query, r: nat, prev: Row, best: seq<RTime>) {
    && Valid(q) && |best| == |q.td.stops|
    && forall ride | Catchable(q, prev, r, ride) :: Covered(q, best, RideTo(q, ride), RideEnd(q, ride))
  }

  predicate NoWorse(q: Query, best: seq<RTime>, best': seq<RTime>) {
    |best| == |best'| && forall s | 0 <= s < |best| :: Cost(q, best'[s]) <= Cost(q, best[s])
  }

  /** The labels of the previous round are no earlier than the request and no
      better than the best times. */
  ghost predicate LabelsKnown(q: Query, prev: Row, best: seq<RTime>) {
    && |prev| == |best|
    && forall s | 0 <= s < |prev| && prev[s].walkTime != UNREACHED ::
         Cost(q, q.req.time) <= Cost(q, prev[s].walkTime) && Cost(q, best[s]) <= Cost(q, prev[s].walkTime)
  }

  lemma NoWorseAtAll(q: Query, best: seq<RTime>)
    ensures NoWorse(q, best, best)
  {}

  lemma CoverKeeps(q: Query, r: nat, prev: Row, best: seq<RTime>, best': seq<RTime>)
    requires NoWorse(q, best, best')
    ensures RouteRelaxed(q, r, prev, best) ==> RouteRelaxed(q, r, prev, best')
  {}

  /** A trip that is no later at position m than another trip stays ahead of it. */
  lemma StaysAhead(q: Query, b: Boarding, ride: Ride, m: nat)
    requires Ideal(q) && Permitted(q, ride) && b.trip != NONE
    requires Usable(q, ride.route, b.trip, b.day) && HasStop(q, ride.route, m)
    requires Before(q, m, ride.off)
    requires Cost(q, BoardTime(q, ride.route, b.trip, b.day, m)) <= Cost(q, BoardTime(q, ride.route, ride.trip, ride.day, m))
    ensures NoLater(q, b, ride)
  {
    assert Usable(q, ride.route, ride.trip, ride.day);
    assert NotOvertaken(q, ride.route, b.trip, b.day, ride.trip, ride.day);
  }

  /** A position is handled once every ride that ends here is covered, and every
      ride that has begun and goes on is matched by the trip aboard. */
  lemma Advance(q: Query, r: nat, prev: Row, best: seq<RTime>, b: Boarding, m: int, best': seq<RTime>, b': Boarding)
    requires Scanned(q, r, prev, best, b, m) && NoWorse(q, best, best')
    requires forall ride | Catchable(q, prev, r, ride) && Before(q, ride.on, m) && ride.off == m ::
               Covered(q, best', RideTo(q, ride), RideEnd(q, ride))
    requires forall ride | Catchable(q, prev, r, ride) && !Before(q, m, ride.on) && Before(q, m, ride.off) ::
               NoLater(q, b', ride)
    ensures Scanned(q, r, prev, best', b', Next(q, m))
  {}

  /** A route of another agency offers no permitted ride. */
  lemma WrongAgency(q: Query, r: nat, prev: Row, best: seq<RTime>)
    requires Valid(q) && r < |q.td.routes| && !RouteAllowed(q, r) && |best| == |q.td.stops|
    ensures RouteRelaxed(q, r, prev, best) && NoWorse(q, best, best)
  {}

  lemma ScanStart(q: Query, r: nat, prev: Row, best: seq<RTime>, b: Boarding, on: nat, m: int)
    requires Valid(q) && r < |q.td.routes| && |best| == |q.td.stops| && b.trip == NONE
    requires m == if q.req.arriveBy then |q.td.routes[r].stops| - 1 else 0
    ensures Aboard(q, r, prev, b, on, m) && Scanned(q, r, prev, best, b, m) && NoWorse(q, best, best)
  {}

  lemma KnownKeeps(q: Query, prev: Row, best: seq<RTime>, best': seq<RTime>)
    requires NoWorse(q, best, best')
    ensures LabelsKnown(q, prev, best) ==> LabelsKnown(q, prev, best')
  {}

  lemma PlainSearch(q: Query, r: nat, m: nat)
    requires Ideal(q) && HasStop(q, r, m)
    ensures q.req.via == NONE && q.req.via != StopAt(q, r, m)
    ensures Bounded(q, r) && !HardBanned(q, StopAt(q, r, m))
  {}

  /** Nobody aboard and nobody waiting. */
  lemma PassStop(q: Query, r: nat, prev: Row, best: seq<RTime>, b: Boarding, m: int)
    requires Scanned(q, r, prev, best, b, m) && HasStop(q, r, m) && b.trip == NONE
    requires StopAt(q, r, m) < |prev| && prev[StopAt(q, r, m)].walkTime == UNREACHED
    ensures Scanned(q, r, prev, best, b, Next(q, m))
  {
    Advance(q, r, prev, best, b, m, best, b);
  }

  /** An alighting time no later than that of a catchable ride can be recorded,
      unless it is beyond the target. */
  lemma ArrivalRecordable(q: Query, r: nat, prev: Row, best: seq<RTime>, b: Boarding, on: nat, m: nat, ride: Ride)
    requires Ideal(q) && LabelsKnown(q, prev, best) && b.trip != NONE && Aboard(q, r, prev, b, on, m)
    requires RouteAllowed(q, r) && HasStop(q, r, m)
    requires Catchable(q, prev, r, ride) && ride.off == m
    requires Cost(q, AlightTime(q, r, b.trip, b.day, m)) <= Cost(q, RideEnd(q, ride))
    ensures Recordable(q, AlightTime(q, r, b.trip, b.day, m))
  {
    assert Usable(q, r, b.trip, b.day);
    var mine := Ride(r, b.trip, b.day, on, m);
    assert InBounds(q, mine) && Cost(q, RideStart(q, mine)) <= Cost(q, RideEnd(q, mine));
  }

  /** Aboard, and nobody waiting here could be anywhere sooner; the trip's own
      arrival, if it may be used, is covered. */
  lemma StayAboard(q: Query, r: nat, prev: Row, best: seq<RTime>, b: Boarding, on: nat, m: nat, best': seq<RTime>)
    requires Ideal(q) && Scanned(q, r, prev, best, b, m) && NoWorse(q, best, best') && LabelsKnown(q, prev, best)
    requires HasStop(q, r, m) && b.trip != NONE && Aboard(q, r, prev, b, on, m) && RouteAllowed(q, r)
    requires var w, t := prev[StopAt(q, r, m)].walkTime, BoardTime(q, r, b.trip, b.day, m);
             w == UNREACHED || t == UNREACHED || !Better(q, w, t)
    requires AlightAllowed(q, r, m) && Recordable(q, AlightTime(q, r, b.trip, b.day, m)) ==>
               Covered(q, best', StopAt(q, r, m), AlightTime(q, r, b.trip, b.day, m))
    ensures Scanned(q, r, prev, best', b, Next(q, m))
  {
    forall ride | Catchable(q, prev, r, ride) && !Before(q, m, ride.on) && Before(q, m, ride.off)
      ensures NoLater(q, b, ride)
    {
      if ride.on == m {
        assert Usable(q, r, b.trip, b.day);
        StaysAhead(q, b, ride, m);
      }
    }
    forall ride | Catchable(q, prev, r, ride) && Before(q, ride.on, m) && ride.off == m
      ensures Covered(q, best', RideTo(q, ride), RideEnd(q, ride))
    {
      ArrivalRecordable(q, r, prev, best, b, on, m, ride);
    }
    Advance(q, r, prev, best, b, m, best', b);
  }

  lemma BoardingStopsAlight(q: Query, r: nat, prev: Row, b: Boarding, on: nat, m: nat)
    requires Ideal(q) && HasStop(q, r, m) && b.trip != NONE && Aboard(q, r, prev, b, on, m)
    ensures BoardAllowed(q, r, m) ==> AlightAllowed(q, r, m)
  {}

  /** Re-boarding never gives up the trip aboard for a later one. */
  lemma NewTripNoLater(q: Query, r: nat, prev: Row, b: Boarding, on: nat, m: nat, c: Choosing)
    requires Ideal(q) && HasStop(q, r, m) && RouteAllowed(q, r)
    requires b.trip != NONE && c.trip != NONE && Aboard(q, r, prev, b, on, m)
    requires StopAt(q, r, m) < |prev| && prev[StopAt(q, r, m)].walkTime != UNREACHED
    requires Cost(q, prev[StopAt(q, r, m)].walkTime) < Cost(q, BoardTime(q, r, b.trip, b.day, m))
    requires Chosen(q, r, m, prev[StopAt(q, r, m)].walkTime, c)
    requires BestBefore(q, r, m, prev[StopAt(q, r, m)].walkTime, c, 0, 3)
    ensures Usable(q, r, b.trip, b.day) && Usable(q, r, c.trip, c.day)
    ensures Cost(q, c.time) <= Cost(q, BoardTime(q, r, b.trip, b.day, m))
  {
    var t := BoardTime(q, r, b.trip, b.day, m);
    assert Usable(q, r, b.trip, b.day);
    if Boardable(q, t) {
      assert Choice(q, r, m, prev[StopAt(q, r, m)].walkTime, b.trip, b.day);
    }
  }

  /** Trying to board takes a possible choice whenever there is one. */
  ghost predicate Boards(q: Query, r: nat, m: nat, prevTime: RTime, before: Boarding, after: Boarding)
    requires HasStop(q, r, m)
  {
    exists c :: Chosen(q, r, m, prevTime, c)
                && after == if c.trip == NONE then before else Boarding(c.trip, StopAt(q, r, m), c.time, c.day)
  }

  /** Nothing is ever boarded before the request time. */
  lemma NeverTooEarly(q: Query, r: nat, prev: Row, best: seq<RTime>, m: nat, c: Choosing)
    requires LabelsKnown(q, prev, best) && HasStop(q, r, m)
    requires StopAt(q, r, m) < |prev| && prev[StopAt(q, r, m)].walkTime != UNREACHED
    requires Chosen(q, r, m, prev[StopAt(q, r, m)].walkTime, c)
    ensures c.trip != NONE ==> !Better(q, c.time, q.req.time)
  {}

  /** Boarding here, or failing to because nothing can be boarded. */
  lemma BoardHere(q: Query, r: nat, prev: Row, best: seq<RTime>, b: Boarding, on: nat, m: nat, c: Choosing)
    requires Ideal(q) && Scanned(q, r, prev, best, b, m) && LabelsKnown(q, prev, best)
    requires HasStop(q, r, m) && RouteAllowed(q, r) && Aboard(q, r, prev, b, on, m)
    requires StopAt(q, r, m) < |prev| && prev[StopAt(q, r, m)].walkTime != UNREACHED
    requires b.trip != NONE ==>
               Cost(q, prev[StopAt(q, r, m)].walkTime) < Cost(q, BoardTime(q, r, b.trip, b.day, m))
    requires Chosen(q, r, m, prev[StopAt(q, r, m)].walkTime, c)
    requires BestBefore(q, r, m, prev[StopAt(q, r, m)].walkTime, c, 0, 3)
    ensures Scanned(q, r, prev, best,
                    if c.trip == NONE then b else Boarding(c.trip, StopAt(q, r, m), c.time, c.day), Next(q, m))
  {
    hide TripsAdvance, Bounded, AlightWhereBoard, Triangle, Indexed, Recordable;
    var s := StopAt(q, r, m);
    var b' := if c.trip == NONE then b else Boarding(c.trip, s, c.time, c.day);
    forall ride | Catchable(q, prev, r, ride) && !Before(q, m, ride.on) && Before(q, m, ride.off)
      ensures NoLater(q, b', ride)
    {
      if ride.on == m {
        assert Choice(q, r, m, prev[s].walkTime, ride.trip, ride.day);
        StaysAhead(q, b', ride, m);
      } else {
        assert NoLater(q, b, ride);
        if c.trip != NONE {
          NewTripNoLater(q, r, prev, b, on, m, c);
          assert NotOvertaken(q, r, c.trip, c.day, b.trip, b.day);
        }
      }
    }
    forall ride | Catchable(q, prev, r, ride) && Before(q, ride.on, m) && ride.off == m
      ensures Covered(q, best, RideTo(q, ride), RideEnd(q, ride))
    {
      assert NoLater(q, b, ride) && Usable(q, r, b.trip, b.day);
    }
    Advance(q, r, prev, best, b, m, best, b');
  }

  /** Waiting here for a trip that may not be boarded here. */
  lemma CannotBoard(q: Query, r: nat, prev: Row, best: seq<RTime>, b: Boarding, on: nat, m: nat)
    requires Ideal(q) && Scanned(q, r, prev, best, b, m) && LabelsKnown(q, prev, best)
    requires HasStop(q, r, m) && RouteAllowed(q, r) && Aboard(q, r, prev, b, on, m) && !BoardAllowed(q, r, m)
    requires StopAt(q, r, m) < |prev| && prev[StopAt(q, r, m)].walkTime != UNREACHED
    requires b.trip != NONE ==>
               Cost(q, prev[StopAt(q, r, m)].walkTime) < Cost(q, BoardTime(q, r, b.trip, b.day, m))
    ensures Scanned(q, r, prev, best, b, Next(q, m))
  {
    forall ride | Catchable(q, prev, r, ride) && Before(q, ride.on, m) && ride.off == m
      ensures Covered(q, best, RideTo(q, ride), RideEnd(q, ride))
    {
      assert NoLater(q, b, ride) && Usable(q, r, b.trip, b.day);
    }
    Advance(q, r, prev, best, b, m, best, b);
  }

  /** After the last position, every catchable ride of the route is covered. */
  lemma ScanDone(q: Query, r: nat, prev: Row, best: seq<RTime>, b: Boarding, m: int)
    requires Scanned(q, r, prev, best, b, m) && !HasStop(q, r, m)
    requires if q.req.arriveBy then m < 0 else m >= |q.td.routes[r].stops|
    ensures RouteRelaxed(q, r, prev, best)
  {}

  /** Recording an arrival keeps the riding phase's relation. */
  lemma RecordRide(q: Query, prev: Row, row0: Row, best0: seq<RTime>, row: Row, best: seq<RTime>, updated: set<nat>,
                   r: nat, b: Boarding, on: nat, m: nat, t: RTime)
    requires Rode(q, prev, row0, best0, row, best, updated)
    requires HasStop(q, r, m) && RouteAllowed(q, r) && b.trip != NONE && Aboard(q, r, prev, b, on, m)
    requires AlightAllowed(q, r, m) && !HardBanned(q, StopAt(q, r, m))
    requires t == AlightTime(q, r, b.trip, b.day, m) && Recordable(q, t)
    requires Cost(q, t) < Cost(q, best[StopAt(q, r, m)])
    ensures var s := StopAt(q, r, m);
            Rode(q, prev, row0, best0,
                 row[s := row[s].(time := t, backRoute := r, backTrip := b.trip, backStop := b.stop, boardTime := b.time)],
                 best[s := t], updated + {s})
  {
    var s := StopAt(q, r, m);
    var st := row[s].(time := t, backRoute := r, backTrip := b.trip, backStop := b.stop, boardTime := b.time);
    assert RideLabel(q, prev, s, st, Ride(r, b.trip, b.day, on, m));
  }
}
