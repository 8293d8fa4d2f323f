/** Searching again in the other direction from the best result, to compress the
    waits of an itinerary: nothing is lost by it. */
module Reversals {
  import opened Rtime
  import opened Timetables
  import opened Journeys
  import opened Search
  import opened Ideals
  import opened Scans
  import opened Rounds
  import opened Optimality
  import opened Routers

  /** The request that searches back from a label at the target. */
  function ReversedRequest(req: Request, round: nat, time: RTime): Request {
    req.(maxTransfers := round, timeCutoff := req.time, time := time, arriveBy := !req.arriveBy)
  }

  /** The two requests ask for the same, but for the time, the cutoff, the direction and
      the number of transfers. */
  predicate SameWishes(a: Request, b: Request) {
    && a.from == b.from && a.to == b.to && a.via == b.via
    && a.walkSpeed == b.walkSpeed && a.walkSlack == b.walkSlack
    && a.dayMask == b.dayMask && a.mode == b.mode && a.agency == b.agency && a.tripAttributes == b.tripAttributes
    && a.fewestTransfers == b.fewestTransfers
    && a.nBannedRoutes == b.nBannedRoutes && a.bannedRoute == b.bannedRoute
    && a.nBannedStops == b.nBannedStops && a.bannedStop == b.bannedStop
    && a.nBannedStopsHard == b.nBannedStopsHard && a.bannedStopHard == b.bannedStopHard
  }

  /** The two queries are the same search in opposite directions, the second
      starting at time t where the first ends. */
  predicate Opposite(q: Query, q': Query, round: nat, t: RTime) {
    && Valid(q) && Valid(q') && q'.td == q.td && q'.walks == q.walks
    && q'.req == ReversedRequest(q.req, round, t)
    && q'.days == [q.days[2], q.days[1], q.days[0]]
  }

  /** Every footpath has an equally long one back. */
  ghost predicate Symmetric(q: Query) {
    forall s: nat, i: nat | HasFootpath(q, s, i) :: WayBack(q, PathTarget(q, s, i), s, PathTime(q, s, i))
  }

  ghost predicate WayBack(q: Query, from: nat, to: nat, time: RTime) {
    exists k: nat :: HasFootpath(q, from, k) && PathTarget(q, from, k) == to && PathTime(q, from, k) == time
  }

  /** The walk taken backward, and the ride taken backward. */
  ghost predicate Backward(q: Query, w: Walk, v: Walk) {
    && WalkExists(q, w) && WalkExists(q, v)
    && v.from == WalkTo(q, w) && WalkTo(q, v) == w.from
    && (w.Stay? <==> v.Stay?)
    && (w.Foot? ==> PathTime(q, v.from, v.path) == PathTime(q, w.from, w.path))
  }

  function BackRide(ride: Ride): Ride
    requires ride.day < 3
  { Ride(ride.route, ride.trip, 2 - ride.day, ride.off, ride.on) }

  lemma WalkBack(q: Query, w: Walk) returns (v: Walk)
    requires Symmetric(q) && WalkExists(q, w)
    ensures Backward(q, w, v)
  {
    if w.Stay? {
      v := w;
    } else {
      assert WayBack(q, WalkTo(q, w), w.from, PathTime(q, w.from, w.path));
      var k: nat :| HasFootpath(q, WalkTo(q, w), k) && PathTarget(q, WalkTo(q, w), k) == w.from
                    && PathTime(q, WalkTo(q, w), k) == PathTime(q, w.from, w.path);
      v := Foot(WalkTo(q, w), k);
    }
  }

  /** A ride is seen the same way from both directions, with its ends exchanged. */
  lemma BackRideTimes(q: Query, q': Query, round: nat, t: RTime, ride: Ride)
    requires Opposite(q, q', round, t) && InBounds(q, ride)
    ensures InBounds(q', BackRide(ride))
    ensures RideFrom(q', BackRide(ride)) == RideTo(q, ride) && RideTo(q', BackRide(ride)) == RideFrom(q, ride)
    ensures RideStart(q', BackRide(ride)) == RideEnd(q, ride) && RideEnd(q', BackRide(ride)) == RideStart(q, ride)
  {}

  /** No ride of the journey ends at time 0. */
  ghost predicate NoneToZero(q: Query, j: Journey)
    requires Feasible(q, j)
    decreases j
  {
    j.Access? || (RideEnd(q, j.ride) != 0 && NoneToZero(q, j.prev))
  }

  /** A backward search never boards at time 0, so that a forward journey can only be
      travelled back if it does not alight there. */
  ghost predicate Returnable(q: Query, j: Journey)
    requires Feasible(q, j)
  { q.req.arriveBy || NoneToZero(q, j) }

  /** Only journeys of a search from time 0 alight at time 0. */
  lemma {:induction false} LaterThanZero(q: Query, j: Journey)
    requires Feasible(q, j) && (q.req.arriveBy || q.req.time > 0)
    ensures Returnable(q, j)
    decreases j
  {
    if j.Access? {
    } else {
      LaterThanZero(q, j.prev);
    }
  }

  /** A permitted ride is permitted backward when it lies between the two times. */
  lemma BackRidePermitted(q: Query, q': Query, round: nat, t: RTime, ride: Ride)
    requires Opposite(q, q', round, t) && Permitted(q, ride) && Plain(q) && t != UNREACHED
    requires q.req.arriveBy || RideEnd(q, ride) != 0
    requires Cost(q, q.req.time) <= Cost(q, RideStart(q, ride)) <= Cost(q, RideEnd(q, ride)) <= Cost(q, t)
    ensures Permitted(q', BackRide(ride))
  {
    BackRideTimes(q, q', round, t, ride);
  }

  /* ----- mirroring a journey ----- */

  /** A backward journey that still lacks its last walk: nothing yet, or a journey
      and a ride after it. */
  datatype Stub = Nothing | Riding(prev: Journey, ride: Ride)

  function Finish(stub: Stub, w: Walk): Journey {
    match stub case Nothing => Access(w) case Riding(prev, ride) => Onward(prev, ride, w)
  }

  function StubRides(stub: Stub): nat {
    match stub case Nothing => 0 case Riding(prev, _) => Rides(prev) + 1
  }

  /** The stub is feasible and arrives at stop s at time t. */
  ghost predicate Arrives(q: Query, stub: Stub, s: nat, t: RTime) {
    && Valid(q)
    && match stub
       case Nothing => s == Origin(q.req) && t == q.req.time
       case Riding(prev, ride) =>
         && Feasible(q, prev) && Permitted(q, ride) && RideFrom(q, ride) == EndStop(q, prev)
         && Cost(q, EndTime(q, prev)) <= Cost(q, RideStart(q, ride))
         && s == RideTo(q, ride) && t == RideEnd(q, ride)
  }

  lemma StubRideExists(q: Query, stub: Stub, s: nat, t: RTime)
    requires Arrives(q, stub, s, t)
    ensures stub.Riding? ==> InBounds(q, stub.ride)
  {}

  lemma RidesEndInRange(q: Query, j: Journey)
    requires Feasible(q, j)
    ensures j.Onward? ==> RideEnd(q, j.ride) <= THREE_DAYS
  {}

  /** Walking the last walk of a journey backward, from a time no earlier than its
      end, arrives no earlier than the walk began. */
  lemma FinishBack(q: Query, q': Query, round: nat, t: RTime, j: Journey, stub: Stub, at: RTime) returns (m: Journey)
    requires Opposite(q, q', round, t) && Symmetric(q) && Plain(q) && Feasible(q, j)
    requires Arrives(q', stub, EndStop(q, j), at) && at != UNREACHED && at <= THREE_DAYS
    requires Cost(q, EndTime(q, j)) <= Cost(q, at)
    ensures Feasible(q', m) && EndStop(q', m) == j.walk.from && Rides(m) == StubRides(stub)
    ensures Cost(q, if j.Access? then q.req.time else RideEnd(q, j.ride)) <= Cost(q, EndTime(q', m))
    ensures m == Finish(stub, m.walk) && (stub.Riding? ==> InBounds(q', stub.ride) && RideEnd(q', stub.ride) == at)
  {
    hide Permitted, WellFormed;
    EndsAfterRequest(q, j);
    RidesEndInRange(q, j);
    var v := WalkBack(q, j.walk);
    assert Backward(q, j.walk, v);
    m := Finish(stub, v);
    StubRideExists(q', stub, EndStop(q, j), at);
    assert PathsAgree(q, q', v);
  }

  predicate PathsAgree(q: Query, q': Query, v: Walk) {
    && WalkExists(q, v) && WalkExists(q', v) && WalkTo(q, v) == WalkTo(q', v)
    && (v.Foot? ==> PathTime(q, v.from, v.path) == PathTime(q', v.from, v.path))
  }

  lemma WalkCostsBack(q: Query, j: Journey)
    requires Feasible(q, j)
    ensures j.Onward? ==> Cost(q, RideEnd(q, j.ride)) <= Cost(q, EndTime(q, j))
  {
    if j.Onward? {
      WalkCosts(q, j.walk, RideEnd(q, j.ride));
    }
  }

  /** The ride before the walk just taken back can be taken back too. */
  lemma MetBefore(q: Query, q': Query, round: nat, t: RTime, j: Journey, m: Journey)
    requires Opposite(q, q', round, t) && Plain(q) && RidesAdvance(q)
    requires t != UNREACHED && t <= THREE_DAYS
    requires Feasible(q, j) && j.Onward? && (q.req.arriveBy || RideEnd(q, j.ride) != 0) && Cost(q, RideEnd(q, j.ride)) <= Cost(q, t)
    requires Feasible(q', m) && EndStop(q', m) == j.walk.from && Cost(q, RideEnd(q, j.ride)) <= Cost(q, EndTime(q', m))
    ensures Feasible(q, j.prev)
    ensures Arrives(q', Riding(m, BackRide(j.ride)), EndStop(q, j.prev), RideStart(q, j.ride))
    ensures Cost(q, EndTime(q, j.prev)) <= Cost(q, RideStart(q, j.ride)) <= Cost(q, RideEnd(q, j.ride))
    ensures RideStart(q, j.ride) <= THREE_DAYS && (q.req.arriveBy ==> RideStart(q, j.ride) != 0)
  {
    hide Permitted, WellFormed, Feasible;
    RideParts(q, j);
    EndsAfterRequest(q, j.prev);
    EndsAfterRequest(q', m);
    BackRideTimes(q, q', round, t, j.ride);
    BackRidePermitted(q, q', round, t, j.ride);
  }

  lemma RideParts(q: Query, j: Journey)
    requires Feasible(q, j) && j.Onward? && RidesAdvance(q)
    ensures Feasible(q, j.prev) && Permitted(q, j.ride)
    ensures RideFrom(q, j.ride) == EndStop(q, j.prev) && j.walk.from == RideTo(q, j.ride)
    ensures Cost(q, EndTime(q, j.prev)) <= Cost(q, RideStart(q, j.ride)) <= Cost(q, RideEnd(q, j.ride))
    ensures RideStart(q, j.ride) != UNREACHED && RideEnd(q, j.ride) <= THREE_DAYS
    ensures q.req.arriveBy ==> RideStart(q, j.ride) != 0
  {}

  /** From wherever a journey can be met on its way back, the way back leads to its
      origin and departs there no earlier than the journey's request.  A forward way
      back does not alight at time 0, where nothing was boarded. */
  lemma {:induction false} MirrorFrom(q: Query, q': Query, round: nat, t: RTime, j: Journey, stub: Stub, at: RTime) returns (m: Journey)
    requires Opposite(q, q', round, t) && Symmetric(q) && Plain(q) && RidesAdvance(q)
    requires t != UNREACHED && t <= THREE_DAYS
    requires Feasible(q, j) && Returnable(q, j)
    requires q.req.arriveBy && stub.Riding? ==> Feasible(q', stub.prev) && NoneToZero(q', stub.prev) && at != 0
    requires Arrives(q', stub, EndStop(q, j), at) && at != UNREACHED && at <= THREE_DAYS
    requires Cost(q, EndTime(q, j)) <= Cost(q, at) <= Cost(q, t)
    ensures Feasible(q', m) && EndStop(q', m) == Origin(q.req)
    ensures Rides(m) == StubRides(stub) + Rides(j)
    ensures Cost(q, q.req.time) <= Cost(q, EndTime(q', m)) && Returnable(q', m)
    decreases j
  {
    hide Permitted, WellFormed, RidesAdvance, Symmetric, Arrives;
    WalkCostsBack(q, j);
    m := FinishBack(q, q', round, t, j, stub, at);
    if j.Access? {
    } else {
      MetBefore(q, q', round, t, j, m);
      m := MirrorFrom(q, q', round, t, j.prev, Riding(m, BackRide(j.ride)), RideStart(q, j.ride));
    }
  }

  /** Every feasible journey can be travelled backward, from its end time or later,
      with as many rides, departing from the origin no earlier than requested. */
  lemma Mirror(q: Query, q': Query, round: nat, t: RTime, j: Journey) returns (m: Journey)
    requires Feasible(q, j) && EndStop(q, j) == Target(q.req) && Returnable(q, j)
    requires Opposite(q, q', round, t) && t != UNREACHED && t <= THREE_DAYS && Cost(q, EndTime(q, j)) <= Cost(q, t)
    requires Symmetric(q) && Plain(q) && RidesAdvance(q)
    ensures Feasible(q', m) && EndStop(q', m) == Target(q'.req)
    ensures Rides(m) == Rides(j) && Returnable(q', m)
    ensures Cost(q, q.req.time) <= Cost(q, EndTime(q', m))
  {
    hide Returnable;
    m := MirrorFrom(q, q', round, t, j, Nothing, t);
  }

  /** A journey of a later, and no less cut off, search is one of the earlier search. */
  lemma {:induction false} AlsoEarlier(q: Query, later: Query, j: Journey)
    requires Valid(q) && Plain(q) && later == q.(req := q.req.(time := later.req.time, timeCutoff := later.req.timeCutoff,
                                                               maxTransfers := later.req.maxTransfers))
    requires InRange(later.req.time) && Cost(q, q.req.time) <= Cost(q, later.req.time)
    requires later.req.timeCutoff != UNREACHED && Uncut(q, later.req.timeCutoff)
    requires Feasible(later, j)
    ensures Feasible(q, j) && EndStop(q, j) == EndStop(later, j)
    ensures Cost(q, EndTime(q, j)) <= Cost(q, EndTime(later, j))
    ensures j.Onward? ==> EndTime(q, j) == EndTime(later, j)
    ensures Returnable(later, j) ==> Returnable(q, j)
    decreases j
  {
    hide WellFormed, Permitted;
    EndsAfterRequest(later, j);
    if j.Onward? {
      AlsoEarlier(q, later, j.prev);
      SameRidePermitted(q, later, j.ride);
      assert SameWalk(q, later, j.walk);
    } else {
      assert SameWalk(q, later, j.walk);
    }
  }

  /** The time is within the request's cutoff. */
  predicate Uncut(q: Query, t: RTime) {
    q.req.timeCutoff == UNREACHED || !Better(q, q.req.timeCutoff, t)
  }

  lemma SameRidePermitted(q: Query, later: Query, ride: Ride)
    requires Valid(q) && later == q.(req := q.req.(time := later.req.time, timeCutoff := later.req.timeCutoff,
                                                   maxTransfers := later.req.maxTransfers))
    requires InRange(q.req.time) && InRange(later.req.time) && Cost(q, q.req.time) <= Cost(q, later.req.time)
    requires later.req.timeCutoff != UNREACHED && Uncut(q, later.req.timeCutoff)
    requires Permitted(later, ride)
    ensures Permitted(q, ride)
    ensures RideFrom(q, ride) == RideFrom(later, ride) && RideTo(q, ride) == RideTo(later, ride)
    ensures RideStart(q, ride) == RideStart(later, ride) && RideEnd(q, ride) == RideEnd(later, ride)
  {
    forall m | HasStop(q, ride.route, m) && Before(q, ride.on, m) && !Before(q, ride.off, m)
      ensures !HardBanned(q, StopAt(q, ride.route, m))
    {
      assert HasStop(later, ride.route, m);
    }
  }

  predicate SameWalk(q: Query, later: Query, w: Walk) {
    && (WalkExists(q, w) <==> WalkExists(later, w))
    && (WalkExists(q, w) ==> WalkTo(q, w) == WalkTo(later, w))
    && (WalkExists(q, w) ==> forall t: RTime :: WalkEnd(q, w, t) == WalkEnd(later, w, t))
  }

  /** A way back that departs in time is a way there, with as many rides and no
      later than the search back began. */
  lemma MirrorBack(q: Query, q': Query, round: nat, t: RTime, m: Journey) returns (j: Journey)
    requires Opposite(q, q', round, t) && Plain(q) && Plain(q') && Symmetric(q') && RidesAdvance(q')
    requires Feasible(q', m) && EndStop(q', m) == Target(q'.req) && Returnable(q', m) && Uncut(q, t) && t != UNREACHED
    requires Cost(q, q.req.time) <= Cost(q, EndTime(q', m))
    ensures Feasible(q, j) && EndStop(q, j) == Target(q.req) && Rides(j) == Rides(m) && Returnable(q, j)
    ensures Cost(q, EndTime(q, j)) <= Cost(q, t)
  {
    hide WellFormed, Permitted, Symmetric, RidesAdvance, Returnable;
    EndsAfterRequest(q', m);
    var later := q.(req := q.req.(time := EndTime(q', m), timeCutoff := t, maxTransfers := round));
    assert Opposite(q', later, round, EndTime(q', m));
    j := Mirror(q', later, round, EndTime(q', m), m);
    EndsAfterRequest(later, j);
    AlsoEarlier(q, later, j);
  }

  /* ----- reversing a completed search ----- */

  /** Choose the label to search back from: the last one at the target, or the
      first when fewest transfers are wanted.  Without one the request stays. */
  method RequestReverse(router: Router, request: Request, ghost q: Query) returns (req: Request, ok: bool)
    requires router.Ready(q) && q.req == request
    ensures var max := if q.req.maxTransfers >= MAX_ROUNDS then MAX_ROUNDS - 1 else q.req.maxTransfers;
            var target := Target(q.req);
            if ok then
              var round := req.maxTransfers;
              && round <= max && router.rows[round][target].walkTime != UNREACHED
              && req == ReversedRequest(q.req, round, router.rows[round][target].walkTime)
              && (forall r | 0 <= r <= max && (if q.req.fewestTransfers then r < round else r > round) ::
                    router.rows[r][target].walkTime == UNREACHED)
            else
              req == q.req && forall r | 0 <= r <= max :: router.rows[r][target].walkTime == UNREACHED
    ensures SameWishes(req, request)
    ensures if ok then req.arriveBy != request.arriveBy && req.timeCutoff == request.time && req.maxTransfers < 6
                       && req.time == router.rows[req.maxTransfers][if request.arriveBy then request.from else request.to].walkTime
            else req == request
  {
    req, ok := request, false;
    var stop := Target(request);
    var maxTransfers := if request.maxTransfers >= MAX_ROUNDS then MAX_ROUNDS - 1 else request.maxTransfers;
    var found: nat := NONE;
    for r := 0 to maxTransfers + 1
      invariant found == NONE || found < r
      invariant found != NONE ==> router.rows[found][stop].walkTime != UNREACHED
      invariant forall r' | 0 <= r' < r && (found == NONE || r' > found) :: router.rows[r'][stop].walkTime == UNREACHED
      invariant request.fewestTransfers ==> found == NONE
    {
      if router.states[r, stop].walkTime != UNREACHED {
        found := r;
        if request.fewestTransfers { break; }
      }
    }
    if found == NONE { return; }
    req := ReversedRequest(request, found, router.states[found, stop].walkTime);
    ok := true;
  }

  /** Round i left the last label at stop s. */
  predicate LastLabel(rows: seq<Row>, n: nat, s: nat, i: nat) {
    && i < n <= |rows| && (forall r | i <= r < n :: s < |rows[r]|)
    && rows[i][s].walkTime != UNREACHED
    && forall r | i < r < n :: rows[r][s].walkTime == UNREACHED
  }

  lemma {:induction false} TrailImproves(q: Query, n: nat, rows: seq<Row>, trail: seq<seq<RTime>>, i: nat, k: nat, s: nat)
    requires Recorded(q, n, rows, trail) && i <= k <= n && s < |trail[i]|
    ensures s < |trail[k]| && Cost(q, trail[k][s]) <= Cost(q, trail[i][s])
  {
    hide RoundResult;
    if i == k {
    } else {
      TrailImproves(q, n, rows, trail, i, k - 1, s);
      assert RoundBetter(q, trail[k - 1], rows[k - 1], trail[k - 1 + 1]);
    }
  }

  lemma RecordedPrefix(q: Query, n: nat, rows: seq<Row>, trail: seq<seq<RTime>>)
    requires Recorded(q, n, rows, trail) && n > 0
    ensures Recorded(q, n - 1, rows, trail[..n])
  {
    hide RoundResult, RoundBetter;
    forall i | 0 <= i < n - 1 ensures RoundBetter(q, trail[..n][i], rows[i], trail[..n][i + 1]) {
      assert RoundBetter(q, trail[i], rows[i], trail[i + 1]);
    }
    forall i | 0 <= i <= n - 1 ensures RoundResult(q, i, trail[..n][i]) {
      assert RoundResult(q, i, trail[i]);
    }
  }

  /** A best time that changed over the rounds is the last label. */
  lemma {:induction false} ChangeIsLabelled(q: Query, n: nat, rows: seq<Row>, trail: seq<seq<RTime>>, s: nat) returns (i: nat)
    requires Recorded(q, n, rows, trail) && q.req.nBannedStops == 0
    requires s < |trail[0]| && (s < |trail[n]| ==> trail[n][s] != trail[0][s])
    ensures LastLabel(rows, n, s, i) && s < |trail[n]| && rows[i][s].walkTime == trail[n][s]
  {
    hide RoundResult;
    if n == 0 {
    } else {
      assert RoundBetter(q, trail[n - 1], rows[n - 1], trail[n - 1 + 1]);
      TrailImproves(q, n, rows, trail, 0, n - 1, s);
      if trail[n][s] == trail[n - 1][s] {
        RecordedPrefix(q, n, rows, trail);
        assert rows[n - 1][s].walkTime == UNREACHED;
        i := ChangeIsLabelled(q, n - 1, rows, trail[..n], s);
      } else {
        i := n - 1;
      }
    }
  }

  /** Walking alone does not explain why the way back succeeds: had it sufficed,
      riding would not have improved on walking in the first place. */
  lemma WalkingWouldLose(q: Query, q': Query, round: nat, t: RTime, best: seq<RTime>, j: Journey)
    requires Opposite(q, q', round, t) && Symmetric(q) && Plain(q)
    requires Optimal(q, 0, best) && t != UNREACHED && t <= THREE_DAYS
    requires Feasible(q', j) && j.Access? && EndStop(q', j) == Target(q'.req)
    requires Cost(q, q.req.time) <= Cost(q, EndTime(q', j))
    ensures Cost(q, best[Target(q.req)]) <= Cost(q, t)
  {
    hide WellFormed;
    assert PathsAgree(q, q', j.walk);
    var v := WalkBack(q, j.walk);
    assert Feasible(q, Access(v)) && Rides(Access(v)) == 0;
    assert Covered(q, best, EndStop(q, Access(v)), EndTime(q, Access(v)));
  }

  /** A journey to the target with at most n rides, arriving by time t, that can be
      travelled back. */
  ghost predicate WayThere(q: Query, n: nat, t: RTime, j: Journey) {
    && Feasible(q, j) && EndStop(q, j) == Target(q.req) && Rides(j) <= n
    && Cost(q, EndTime(q, j)) <= Cost(q, t) && Returnable(q, j)
  }

  ghost predicate Returns(q: Query, n: nat, t: RTime) { exists j :: WayThere(q, n, t, j) }

  /** The search back left its last label at stop s in round i, in time for q. */
  predicate InTime(q: Query, rows: seq<Row>, n: nat, s: nat, i: nat) {
    LastLabel(rows, n, s, i) && Cost(q, q.req.time) <= Cost(q, rows[i][s].walkTime)
  }

  predicate AnyInTime(q: Query, rows: seq<Row>, n: nat, s: nat) { exists i | 0 <= i < |rows| :: InTime(q, rows, n, s, i) }

  /** Reversing loses nothing that can be travelled back: from a label at the target,
      the search back reaches the origin at or beyond the time that was asked for,
      and says so in a label, if some journey is there by the time of the label that
      can be travelled back; and if the label is within the cutoff, only then.  All
      journeys can be unless a forward search begins at time 0. */
  lemma ReversalNeverLoses(q: Query, n: nat, rows: seq<Row>, best: seq<RTime>, trail: seq<seq<RTime>>, round: nat,
                           q': Query, rows': seq<Row>, best': seq<RTime>, trail': seq<seq<RTime>>)
    requires Ideal(q) && Ideal(q') && Symmetric(q)
    requires Settled(q, n, rows, best) && Recorded(q, n, rows, trail) && round < n
    requires rows[round][Target(q.req)].walkTime != UNREACHED
    requires Opposite(q, q', round, rows[round][Target(q.req)].walkTime)
    requires Settled(q', round + 1, rows', best') && Recorded(q', round + 1, rows', trail')
    ensures var t := rows[round][Target(q.req)].walkTime;
            && (Returns(q, round + 1, t) ==> AnyInTime(q, rows', round + 1, Target(q'.req)))
            && (Uncut(q, t) ==>
                  (Returns(q, round + 1, t) <==> AnyInTime(q, rows', round + 1, Target(q'.req))))
            && (q.req.arriveBy || q.req.time > 0 ==> Returns(q, round + 1, t))
  {
    hide Ideal, WellFormed, Symmetric, Traced, Ordered, Recorded, WayThere, Opposite;
    var t := rows[round][Target(q.req)].walkTime;
    if q.req.arriveBy || q.req.time > 0 {
      LaterReturns(q, n, rows, best, trail, round);
    }
    if Returns(q, round + 1, t) {
      var j :| WayThere(q, round + 1, t, j);
      var i := WayBackLabelled(q, n, rows, best, trail, round, q', rows', trail', j);
    }
    if Uncut(q, t) && AnyInTime(q, rows', round + 1, Target(q'.req)) {
      var i :| InTime(q, rows', round + 1, Target(q'.req), i);
      LabelComesFromWay(q, n, rows, best, trail, round, q', rows', best', i);
    }
  }

  lemma LaterReturns(q: Query, n: nat, rows: seq<Row>, best: seq<RTime>, trail: seq<seq<RTime>>, round: nat)
    requires Ideal(q) && Settled(q, n, rows, best) && Recorded(q, n, rows, trail) && round < n
    requires rows[round][Target(q.req)].walkTime != UNREACHED && (q.req.arriveBy || q.req.time > 0)
    ensures Returns(q, round + 1, rows[round][Target(q.req)].walkTime)
  {
    hide Ideal, WellFormed, Returnable, Feasible;
    LabelFacts(q, n, rows, best, trail, round);
    var j :| Explains(q, rows[..round + 1], Target(q.req), rows[round][Target(q.req)].walkTime, j);
    DecodedRides(q, rows[..round + 1], Target(q.req), j);
    LaterThanZero(q, j);
    assert WayThere(q, round + 1, rows[round][Target(q.req)].walkTime, j);
  }

  /** The way there, travelled back, shows in a label of the search back. */
  lemma WayBackLabelled(q: Query, n: nat, rows: seq<Row>, best: seq<RTime>, trail: seq<seq<RTime>>, round: nat,
                        q': Query, rows': seq<Row>, trail': seq<seq<RTime>>, j: Journey)
    returns (i: nat)
    requires Ideal(q) && Ideal(q') && Symmetric(q)
    requires Settled(q, n, rows, best) && Recorded(q, n, rows, trail) && round < n
    requires rows[round][Target(q.req)].walkTime != UNREACHED
    requires Opposite(q, q', round, rows[round][Target(q.req)].walkTime)
    requires Recorded(q', round + 1, rows', trail')
    requires WayThere(q, round + 1, rows[round][Target(q.req)].walkTime, j)
    ensures InTime(q, rows', round + 1, Target(q'.req), i)
  {
    hide Ideal, WellFormed, Symmetric, RidesAdvance, Returnable, Feasible, Decodes, RoundBetter, Minimum, Covered;
    var target, t := Target(q.req), rows[round][Target(q.req)].walkTime;
    IdealParts(q);
    IdealParts(q');
    LabelFacts(q, n, rows, best, trail, round);
    LabelInDays(q, rows[..round + 1], rows[round], target);
    RequestInRange(q, j);
    var m := Mirror(q, q', round, t, j);
    TargetIsMinimum(q', round + 1, trail'[round + 1]);
    BackTime(q, q', round, t, trail'[round + 1], m);
    assert RoundResult(q', 0, trail'[0]);
    if trail'[0][Target(q'.req)] == trail'[round + 1][Target(q'.req)] {
      var walk :| Reaches(q', 0, Target(q'.req), trail'[0][Target(q'.req)], walk);
      WalkingWouldLose(q, q', round, t, trail[0], walk);
    }
    i := ChangeIsLabelled(q', round + 1, rows', trail', Target(q'.req));
  }

  lemma LabelInDays(q: Query, rows: seq<Row>, row: Row, s: nat)
    requires RowSound(q, rows, row) && s < |row| && row[s].walkTime != UNREACHED && Plain(q)
    ensures row[s].walkTime <= THREE_DAYS
  {
    var j :| Explains(q, rows, s, row[s].walkTime, j);
    EndsAfterRequest(q, j);
  }

  lemma RequestInRange(q: Query, j: Journey)
    requires Plain(q) && Feasible(q, j)
    ensures q.req.time != UNREACHED
  {}

  /** A label of the search back that is in time shows a way there. */
  lemma LabelComesFromWay(q: Query, n: nat, rows: seq<Row>, best: seq<RTime>, trail: seq<seq<RTime>>, round: nat,
                          q': Query, rows': seq<Row>, best': seq<RTime>, i: nat)
    requires Ideal(q) && Ideal(q') && Symmetric(q)
    requires Settled(q, n, rows, best) && Recorded(q, n, rows, trail) && round < n
    requires rows[round][Target(q.req)].walkTime != UNREACHED
    requires Opposite(q, q', round, rows[round][Target(q.req)].walkTime)
    requires Settled(q', round + 1, rows', best') && InTime(q, rows', round + 1, Target(q'.req), i)
    requires Uncut(q, rows[round][Target(q.req)].walkTime)
    ensures Returns(q, round + 1, rows[round][Target(q.req)].walkTime)
  {
    hide Ideal, WellFormed, Symmetric, RidesAdvance, Returnable, Feasible, Ordered, Uncut;
    if q.req.arriveBy {
      LaterReturns(q, n, rows, best, trail, round);
    } else {
      var t := rows[round][Target(q.req)].walkTime;
      IdealParts(q);
      IdealParts(q');
      SymmetricBoth(q, q', round, t);
      assert RowSound(q', rows'[..i + 1], rows'[i]);
      var m :| Explains(q', rows'[..i + 1], Target(q'.req), rows'[i][Target(q'.req)].walkTime, m);
      DecodedRides(q', rows'[..i + 1], Target(q'.req), m);
      LaterThanZero(q', m);
      var j := MirrorBack(q, q', round, t, m);
      assert WayThere(q, round + 1, t, j);
    }
  }

  lemma SymmetricBoth(q: Query, q': Query, round: nat, t: RTime)
    requires Opposite(q, q', round, t) && Symmetric(q)
    ensures Symmetric(q')
  {
    forall s: nat, i: nat | HasFootpath(q', s, i) ensures WayBack(q', PathTarget(q', s, i), s, PathTime(q', s, i)) {
      assert WayBack(q, PathTarget(q, s, i), s, PathTime(q, s, i));
      var k: nat :| HasFootpath(q, PathTarget(q, s, i), k) && PathTarget(q, PathTarget(q, s, i), k) == s
                    && PathTime(q, PathTarget(q, s, i), k) == PathTime(q, s, i);
      assert HasFootpath(q', PathTarget(q', s, i), k);
    }
  }

  lemma IdealParts(q: Query)
    requires Ideal(q)
    ensures Plain(q) && RidesAdvance(q)
  {
    TripsAdvanceRidesAdvance(q);
  }

  /** A label at the target is explained, and strictly beats walking alone. */
  lemma LabelFacts(q: Query, n: nat, rows: seq<Row>, best: seq<RTime>, trail: seq<seq<RTime>>, round: nat)
    requires Ideal(q) && Settled(q, n, rows, best) && Recorded(q, n, rows, trail) && round < n
    requires rows[round][Target(q.req)].walkTime != UNREACHED
    ensures RowSound(q, rows[..round + 1], rows[round])
    ensures Optimal(q, 0, trail[0])
    ensures Cost(q, rows[round][Target(q.req)].walkTime) < Cost(q, trail[0][Target(q.req)])
  {
    hide Ideal, WellFormed, Ordered, RowSound, Optimal, Attained;
    assert RoundResult(q, 0, trail[0]);
    OptimalSize(q, 0, trail[0]);
    TrailImproves(q, n, rows, trail, 0, round, Target(q.req));
    assert RoundBetter(q, trail[round], rows[round], trail[round + 1]);
  }

  lemma OptimalSize(q: Query, k: nat, best: seq<RTime>)
    requires Optimal(q, k, best)
    ensures Valid(q) && |best| == |q.td.stops|
  {}

  lemma BackTime(q: Query, q': Query, round: nat, t: RTime, best': seq<RTime>, m: Journey)
    requires Opposite(q, q', round, t) && |best'| == |q.td.stops| && Minimum(q', round + 1, best'[Target(q'.req)])
    requires Feasible(q', m) && EndStop(q', m) == Target(q'.req) && Rides(m) <= round + 1
    requires Cost(q, q.req.time) <= Cost(q, EndTime(q', m)) && q.req.time != UNREACHED
    ensures best'[Target(q'.req)] != UNREACHED && Cost(q, q.req.time) <= Cost(q, best'[Target(q'.req)])
  {
    EndsAfterRequest(q', m);
    hide WellFormed, Feasible;
    assert Cost(q', best'[Target(q'.req)]) <= Cost(q', EndTime(q', m));
  }

  /* ----- the search-reverse-search driver ----- */

  /** A finished search: its query, its tables, and its best times round by round. */
  datatype Run = Run(q: Query, rows: seq<Row>, best: seq<RTime>, trail: seq<seq<RTime>>)

  ghost predicate Finished(run: Run, td: Timetable, realtimeMask: Mask) {
    && run.q.req.walkSpeed > 0.0 && run.q == QueryFor(td, run.q.req, realtimeMask)
    && Settled(run.q, RoundCount(run.q.req), run.rows, run.best)
    && Recorded(run.q, RoundCount(run.q.req), run.rows, run.trail)
  }

  /** The label that a reversal of this run starts from. */
  predicate ChosenLabel(run: Run, round: nat) {
    var max := if run.q.req.maxTransfers >= MAX_ROUNDS then MAX_ROUNDS - 1 else run.q.req.maxTransfers;
    && |run.rows| == MAX_ROUNDS && round <= max
    && (forall r | 0 <= r < MAX_ROUNDS :: Target(run.q.req) < |run.rows[r]|)
    && run.rows[round][Target(run.q.req)].walkTime != UNREACHED
    && forall r | 0 <= r <= max && (if run.q.req.fewestTransfers then r < round else r > round) ::
         run.rows[r][Target(run.q.req)].walkTime == UNREACHED
  }

  /** Run b is the reversal of run a; without a label the request is unchanged. */
  ghost predicate ReversalOf(a: Run, b: Run) {
    if exists round: nat :: ChosenLabel(a, round) then
      exists round: nat :: ChosenLabel(a, round)
        && b.q.req == ReversedRequest(a.q.req, round, a.rows[round][Target(a.q.req)].walkTime)
    else b.q.req == a.q.req
  }

  /** Run b searches in the other direction from a label of run a at its target, back to
      the time of a. */
  predicate TurnsAround(a: Run, b: Run) {
    var from, to, round := a.q.req, b.q.req, b.q.req.maxTransfers;
    var target := if from.arriveBy then from.from else from.to;
    && to.arriveBy != from.arriveBy && to.timeCutoff == from.time
    && round < 6 && round < |a.rows| && target < |a.rows[round]| && to.time == a.rows[round][target].walkTime != 65535
  }

  /** Every run searches the same timetable for the same wishes, and each after the first
      turns around the one before, or repeats it. */
  ghost predicate RunsFollow(runs: seq<Run>, td: Timetable, request: Request, realtimeMask: Mask) {
    && (forall i | 0 <= i < |runs| :: Finished(runs[i], td, realtimeMask) && SameWishes(runs[i].q.req, request))
    && (forall i, k | 0 <= i < |runs| && k == i + 1 < |runs| ::
          ReversalOf(runs[i], runs[k]) && (runs[k].q.req == runs[i].q.req || TurnsAround(runs[i], runs[k])))
  }

  /** One more run follows when its request was chosen from the last one's labels. */
  lemma NextRun(runs: seq<Run>, next: Run, td: Timetable, request: Request, realtimeMask: Mask, ok: bool)
    requires runs != [] && RunsFollow(runs, td, request, realtimeMask) && Finished(next, td, realtimeMask)
    requires var last := runs[|runs| - 1];
             && SameWishes(next.q.req, last.q.req)
             && if ok
                then var round := next.q.req.maxTransfers;
                     && ChosenLabel(last, round) && round < MAX_ROUNDS
                     && next.q.req == ReversedRequest(last.q.req, round, last.rows[round][Target(last.q.req)].walkTime)
                else next.q.req == last.q.req && forall round: nat :: !ChosenLabel(last, round)
    ensures RunsFollow(runs + [next], td, request, realtimeMask)
  {
    hide Finished;
    var last, all := runs[|runs| - 1], runs + [next];
    assert ReversalOf(last, next);
    assert ok ==> TurnsAround(last, next);
    forall i, k | 0 <= i < |all| && k == i + 1 < |all|
      ensures ReversalOf(all[i], all[k]) && (all[k].q.req == all[i].q.req || TurnsAround(all[i], all[k]))
    {
      if k < |runs| { assert all[i] == runs[i] && all[k] == runs[k]; }
    }
  }

  /** Route, then reverse and route again: twice for a forward request, so that
      the result has the direction asked for, and once for an arrive-by request. */
  method Reversal(router: Router, request: Request, realtimeMask: Mask) returns (req: Request, ghost runs: seq<Run>)
    requires WellFormed(router.td) && router.Sized()
    requires request.from < |router.td.stops| && request.to < |router.td.stops| && request.walkSpeed > 0.0
    modifies router, router.bestTime, router.states
    ensures |runs| == if request.arriveBy then 2 else 3
    ensures runs[0].q.req == request && runs[|runs| - 1].q.req == req
    ensures router.Ready(runs[|runs| - 1].q)
    ensures runs[|runs| - 1].rows == router.rows && runs[|runs| - 1].best == router.best
    ensures RunsFollow(runs, router.td, request, realtimeMask)
  {
    hide Settled, Recorded, Best, Attained, Ideal, RunsFollow, WalksLast;
    req := request;
    ghost var q, trail := router.Route(req, realtimeMask);
    runs := [Run(q, router.rows, router.best, trail)];
    assert RunsFollow(runs, router.td, request, realtimeMask) by { FirstRun(runs[0], router.td, request, realtimeMask); }
    var nReversals := if request.arriveBy then 1 else 2;
    for i := 0 to nReversals
      invariant |runs| == i + 1 && runs[0].q.req == request
      invariant router.Ready(q) && q.req == req && runs[i].q == q && runs[i].rows == router.rows && runs[i].best == router.best
      invariant req.walkSpeed > 0.0 && RunsFollow(runs, router.td, request, realtimeMask)
    {
      ghost var run := runs[i];
      var ok;
      req, ok := RequestReverse(router, req, q);
      q, trail := router.Route(req, realtimeMask);
      ghost var next := Run(q, router.rows, router.best, trail);
      NextRun(runs, next, router.td, request, realtimeMask, ok);
      runs := runs + [next];
    }
  }

  lemma FirstRun(run: Run, td: Timetable, request: Request, realtimeMask: Mask)
    requires Finished(run, td, realtimeMask) && run.q.req == request
    ensures RunsFollow([run], td, request, realtimeMask)
  {
    hide Finished;
  }

  /** The reversed query is the opposite search over the same days and walks. */
  lemma ReversedIsOpposite(a: Run, b: Run, td: Timetable, realtimeMask: Mask, round: nat)
    requires Finished(a, td, realtimeMask) && Finished(b, td, realtimeMask) && ChosenLabel(a, round)
    requires b.q.req == ReversedRequest(a.q.req, round, a.rows[round][Target(a.q.req)].walkTime)
    ensures Opposite(a.q, b.q, round, a.rows[round][Target(a.q.req)].walkTime)
    ensures RoundCount(b.q.req) == round + 1
  {
    hide WalkTimes, Traced, Ordered, Recorded, WellFormed;
    DaysReversed(a.q.req, b.q.req, realtimeMask);
    assert round + 1 < 0x1_0000_0000;
  }

  lemma DaysReversed(req: Request, req': Request, realtimeMask: Mask)
    requires req'.dayMask == req.dayMask && req'.arriveBy == !req.arriveBy
    ensures var days := ServiceDays(req, realtimeMask);
            ServiceDays(req', realtimeMask) == [days[2], days[1], days[0]]
  {}

  lemma FinishedShape(run: Run, td: Timetable, realtimeMask: Mask)
    requires Finished(run, td, realtimeMask)
    ensures |run.rows| == MAX_ROUNDS && forall r | 0 <= r < MAX_ROUNDS :: Target(run.q.req) < |run.rows[r]|
  {}

  /** A forward search whose chosen label shows a journey that can be travelled back,
      compressed by two reversals, still arrives no later than the first search
      found.  It departs no earlier than asked when the second search kept the number
      of rides of the first; provided the first result was within the cutoff, that is
      the only case.  Unless fewest transfers are wanted, it always departs in time. */
  lemma Compression(runs: seq<Run>, td: Timetable, realtimeMask: Mask, r0: nat)
    returns (k: nat, i: nat)
    requires |runs| == 3 && forall k | 0 <= k < 3 :: Finished(runs[k], td, realtimeMask) && Ideal(runs[k].q) && Symmetric(runs[k].q)
    requires ReversalOf(runs[0], runs[1]) && ReversalOf(runs[1], runs[2])
    requires !runs[0].q.req.arriveBy && RoundCount(runs[0].q.req) > 0 && ChosenLabel(runs[0], r0)
    requires Returns(runs[0].q, r0 + 1, runs[0].rows[r0][runs[0].q.req.to].walkTime)
    ensures runs[2].q.req.from == runs[0].q.req.from && runs[2].q.req.to == runs[0].q.req.to && !runs[2].q.req.arriveBy
    ensures runs[1].q.req.maxTransfers == r0 && ChosenLabel(runs[1], k) && runs[2].q.req.maxTransfers == k <= r0
    ensures LastLabel(runs[2].rows, RoundCount(runs[2].q.req), runs[0].q.req.to, i)
    ensures runs[2].rows[i][runs[0].q.req.to].walkTime <= runs[0].rows[r0][runs[0].q.req.to].walkTime
    ensures runs[2].q.req.maxTransfers == runs[1].q.req.maxTransfers || !runs[0].q.req.fewestTransfers ==>
              runs[0].q.req.time <= runs[2].q.req.time
    ensures Uncut(runs[0].q, runs[0].rows[r0][runs[0].q.req.to].walkTime) ==>
              (runs[0].q.req.time <= runs[2].q.req.time <==> runs[2].q.req.maxTransfers == runs[1].q.req.maxTransfers)
  {
    hide Ideal, Symmetric, Settled, Recorded, WellFormed, RoundCount, Uncut, Returns;
    var a, b, c := runs[0], runs[1], runs[2];
    OneChosenLabel(a);
    FinishedShape(a, td, realtimeMask);
    ReversedIsOpposite(a, b, td, realtimeMask, r0);
    var last := OnceReversed(a, b, td, realtimeMask, r0);
    FinishedShape(b, td, realtimeMask);
    k := SomeChosenLabel(b, r0, last);
    OneChosenLabel(b);
    ReversedIsOpposite(b, c, td, realtimeMask, k);
    BackwardReturns(b, td, realtimeMask, k);
    i := OnceReversed(b, c, td, realtimeMask, k);
    if Uncut(a.q, a.rows[r0][Target(a.q.req)].walkTime) && a.q.req.time <= c.q.req.time && k < r0 {
      FewerRidesTooLate(a, b, td, realtimeMask, r0, k);
    }
  }

  lemma BackwardReturns(run: Run, td: Timetable, realtimeMask: Mask, k: nat)
    requires Finished(run, td, realtimeMask) && ChosenLabel(run, k) && Ideal(run.q) && RoundCount(run.q.req) > 0
    requires run.q.req.arriveBy || run.q.req.time > 0
    ensures Returns(run.q, k + 1, run.rows[k][Target(run.q.req)].walkTime)
  {
    hide Ideal, Settled, Recorded, WellFormed;
    LabelledInTime(run, td, realtimeMask, k);
    LaterReturns(run.q, RoundCount(run.q.req), run.rows, run.best, run.trail, k);
  }

  /** Without such a journey, and within the cutoff, the search back labels nothing:
      the answer is lost.  So it is found exactly when there is such a journey. */
  lemma CompressionLoses(runs: seq<Run>, td: Timetable, realtimeMask: Mask, r0: nat)
    requires |runs| >= 2 && Finished(runs[0], td, realtimeMask) && Finished(runs[1], td, realtimeMask)
    requires Ideal(runs[0].q) && Ideal(runs[1].q) && Symmetric(runs[0].q) && ReversalOf(runs[0], runs[1])
    requires RoundCount(runs[0].q.req) > 0 && ChosenLabel(runs[0], r0)
    requires Uncut(runs[0].q, runs[0].rows[r0][Target(runs[0].q.req)].walkTime)
    ensures (exists k: nat :: ChosenLabel(runs[1], k)) <==>
              Returns(runs[0].q, r0 + 1, runs[0].rows[r0][Target(runs[0].q.req)].walkTime)
  {
    hide Ideal, Symmetric, Settled, Recorded, WellFormed, Uncut, Returns, Opposite;
    var a, b := runs[0], runs[1];
    var t := a.rows[r0][Target(a.q.req)].walkTime;
    OneChosenLabel(a);
    FinishedShape(b, td, realtimeMask);
    ReversedIsOpposite(a, b, td, realtimeMask, r0);
    LabelledInTime(a, td, realtimeMask, r0);
    if Returns(a.q, r0 + 1, t) {
      var last := OnceReversed(a, b, td, realtimeMask, r0);
      var k := SomeChosenLabel(b, r0, last);
    }
    if exists k: nat :: ChosenLabel(b, k) {
      var k: nat :| ChosenLabel(b, k);
      if a.q.req.arriveBy || a.q.req.time > 0 {
        BackwardReturns(a, td, realtimeMask, r0);
      } else {
        var i := SomeLastLabel(b.rows, r0 + 1, Target(b.q.req), k);
        assert InTime(a.q, b.rows, r0 + 1, Target(b.q.req), i);
        LabelComesFromWay(a.q, RoundCount(a.q.req), a.rows, a.best, a.trail, r0, b.q, b.rows, b.best, i);
      }
    }
  }

  lemma SomeLastLabel(rows: seq<Row>, n: nat, s: nat, k: nat) returns (i: nat)
    requires k < n <= |rows| && (forall r | 0 <= r < n :: s < |rows[r]|) && rows[k][s].walkTime != UNREACHED
    ensures LastLabel(rows, n, s, i) && k <= i
  {
    i := n - 1;
    while rows[i][s].walkTime == UNREACHED
      invariant k <= i < n && forall r | i < r < n :: rows[r][s].walkTime == UNREACHED
      decreases i
    {
      i := i - 1;
    }
  }

  /** Given the last label at the target, the label to go on from. */
  lemma SomeChosenLabel(run: Run, max: nat, last: nat) returns (k: nat)
    requires |run.rows| == MAX_ROUNDS && forall r | 0 <= r < MAX_ROUNDS :: Target(run.q.req) < |run.rows[r]|
    requires run.q.req.maxTransfers == max < MAX_ROUNDS && LastLabel(run.rows, max + 1, Target(run.q.req), last)
    ensures ChosenLabel(run, k) && k <= last && (!run.q.req.fewestTransfers ==> k == last)
  {
    k := last;
    if run.q.req.fewestTransfers {
      k := 0;
      while run.rows[k][Target(run.q.req)].walkTime == UNREACHED
        invariant k <= last && forall r | 0 <= r < k :: run.rows[r][Target(run.q.req)].walkTime == UNREACHED
        decreases last - k
      {
        k := k + 1;
      }
    }
  }

  /** A way back with fewer rides cannot depart in time: with so few rides there was
      no way there to arrive as early. */
  lemma FewerRidesTooLate(a: Run, b: Run, td: Timetable, realtimeMask: Mask, r0: nat, k: nat)
    requires Finished(a, td, realtimeMask) && Finished(b, td, realtimeMask) && ChosenLabel(a, r0) && ChosenLabel(b, k)
    requires b.q.req == ReversedRequest(a.q.req, r0, a.rows[r0][Target(a.q.req)].walkTime)
    requires Ideal(a.q) && Ideal(b.q) && Symmetric(b.q) && !a.q.req.arriveBy && RoundCount(a.q.req) > 0 && k < r0
    requires Uncut(a.q, a.rows[r0][Target(a.q.req)].walkTime)
    ensures b.rows[k][Target(b.q.req)].walkTime < a.q.req.time
  {
    hide Ideal, Symmetric, Settled, Recorded, WellFormed, Returnable, RoundCount, Uncut, RidesAdvance, Covered;
    var t, t' := a.rows[r0][Target(a.q.req)].walkTime, b.rows[k][Target(b.q.req)].walkTime;
    if t' >= a.q.req.time {
      ReversedIsOpposite(a, b, td, realtimeMask, r0);
      IdealParts(a.q);
      IdealParts(b.q);
      LabelledInTime(a, td, realtimeMask, r0);
      var m := ReadyLabel(b, td, realtimeMask, k);
      LaterThanZero(b.q, m);
      var j := MirrorBack(a.q, b.q, r0, t, m);
      NotSoEarly(a, td, realtimeMask, r0, k + 1, j);
    }
  }

  /** The journey behind a chosen label. */
  lemma ReadyLabel(run: Run, td: Timetable, realtimeMask: Mask, k: nat) returns (m: Journey)
    requires Finished(run, td, realtimeMask) && ChosenLabel(run, k) && k < RoundCount(run.q.req)
    ensures Feasible(run.q, m) && Rides(m) == k + 1 && EndStop(run.q, m) == Target(run.q.req)
    ensures EndTime(run.q, m) == run.rows[k][Target(run.q.req)].walkTime
  {
    hide Ordered, WellFormed, Recorded, Feasible;
    assert RowSound(run.q, run.rows[..k + 1], run.rows[k]);
    m :| Explains(run.q, run.rows[..k + 1], Target(run.q.req), run.rows[k][Target(run.q.req)].walkTime, m);
    DecodedRides(run.q, run.rows[..k + 1], Target(run.q.req), m);
  }

  /** No journey with at most n rides arrives by the time of a label of round n or later. */
  lemma NotSoEarly(run: Run, td: Timetable, realtimeMask: Mask, r: nat, n: nat, j: Journey)
    requires Finished(run, td, realtimeMask) && ChosenLabel(run, r) && Ideal(run.q) && n <= r < RoundCount(run.q.req)
    requires Feasible(run.q, j) && EndStop(run.q, j) == Target(run.q.req) && Rides(j) <= n
    ensures Cost(run.q, run.rows[r][Target(run.q.req)].walkTime) < Cost(run.q, EndTime(run.q, j))
  {
    hide Ideal, Settled, WellFormed, Permitted, Attained, NoWorse;
    var q, s := run.q, Target(run.q.req);
    assert RoundResult(q, n, run.trail[n]);
    TrailImproves(q, RoundCount(q.req), run.rows, run.trail, n, r, s);
    assert RoundBetter(q, run.trail[r], run.rows[r], run.trail[r + 1]);
    assert Covered(q, run.trail[n], s, EndTime(q, j));
  }

  lemma OneChosenLabel(run: Run)
    ensures forall r: nat, r': nat | ChosenLabel(run, r) && ChosenLabel(run, r') :: r == r'
  {}

  lemma OnceReversed(a: Run, b: Run, td: Timetable, realtimeMask: Mask, round: nat) returns (i: nat)
    requires Finished(a, td, realtimeMask) && Finished(b, td, realtimeMask) && ChosenLabel(a, round)
    requires b.q.req == ReversedRequest(a.q.req, round, a.rows[round][Target(a.q.req)].walkTime)
    requires Ideal(a.q) && Ideal(b.q) && Symmetric(a.q) && RoundCount(a.q.req) > 0
    requires Returns(a.q, round + 1, a.rows[round][Target(a.q.req)].walkTime)
    ensures LastLabel(b.rows, round + 1, Target(b.q.req), i) && RoundCount(b.q.req) == round + 1
    ensures Cost(a.q, a.q.req.time) <= Cost(a.q, b.q.req.time)
    ensures Cost(a.q, a.q.req.time) <= Cost(a.q, b.rows[i][Target(b.q.req)].walkTime)
  {
    hide Ideal, Symmetric, Recorded, WellFormed, Traced, Ordered, WayThere;
    ReversedIsOpposite(a, b, td, realtimeMask, round);
    LabelledInTime(a, td, realtimeMask, round);
    var t := a.rows[round][Target(a.q.req)].walkTime;
    var j :| WayThere(a.q, round + 1, t, j);
    i := WayBackLabelled(a.q, RoundCount(a.q.req), a.rows, a.best, a.trail, round, b.q, b.rows, b.trail, j);
  }

  lemma LabelledInTime(a: Run, td: Timetable, realtimeMask: Mask, round: nat)
    requires Finished(a, td, realtimeMask) && ChosenLabel(a, round) && RoundCount(a.q.req) > 0
    ensures round < RoundCount(a.q.req)
    ensures Cost(a.q, a.q.req.time) <= Cost(a.q, a.rows[round][Target(a.q.req)].walkTime)
  {
    hide RowSound, Improves, WithinDays, Recorded, WellFormed;
    assert RowSound(a.q, a.rows[..round + 1], a.rows[round]);
    SoundLabelsKnown(a.q, a.rows[..round + 1], a.rows[round], a.best);
  }
}
