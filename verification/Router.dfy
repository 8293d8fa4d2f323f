/** The RAPTOR router: rounds of riding and walking over per-round, per-stop labels. */
module Routers {
  import opened Rtime
  import opened Timetables
  import opened Journeys
  import opened Search
  import opened Bitsets
  import opened Ideals
  import opened Boardings
  import opened Scans
  import opened Rounds
  import opened Optimality

  class Router {
    const td: Timetable
    const bestTime: array<RTime>
    const states: array2<State>
    var updatedStops: set<nat>
    var updatedRoutes: set<nat>
    var serviceDays: seq<ServiceDay>

    // The contents of bestTime and states.
    ghost var best: seq<RTime>
    ghost var rows: seq<Row>

    /** Set up a router for a timetable. */
    constructor (td: Timetable)
      ensures this.td == td && Sized() && fresh(bestTime) && fresh(states)
    {
      this.td := td;
      bestTime := new RTime[|td.stops|];
      states := new State[MAX_ROUNDS, |td.stops|]((round, stop) => State(0, 0, 0, 0, 0, 0, 0));
      updatedStops, updatedRoutes, serviceDays := {}, {}, [];
      best, rows := [], [];
    }

    /** The tables have the size of the timetable. */
    predicate Sized() {
      bestTime.Length == |td.stops| && states.Length0 == MAX_ROUNDS && states.Length1 == |td.stops|
    }

    ghost predicate Consistent()
      reads this, bestTime, states
    {
      && bestTime[..] == best
      && |rows| == states.Length0
      && forall k, s | 0 <= k < states.Length0 && 0 <= s < states.Length1 ::
           |rows[k]| == states.Length1 && states[k, s] == rows[k][s]
    }

    /** The query is against this router's timetable, and the tables fit it. */
    ghost predicate Ready(q: Query)
      reads this, bestTime, states
    {
      && Valid(q) && q.td == td && Sized()
      && |best| == |td.stops| && |rows| == MAX_ROUNDS
      && (forall k | 0 <= k < MAX_ROUNDS :: |rows[k]| == |td.stops|)
      && Consistent()
    }

    method SetState(q: Query, round: nat, s: nat, st: State)
      requires Ready(q) && round < MAX_ROUNDS && s < |td.stops|
      modifies states, this`rows
      ensures Ready(q) && rows == old(rows)[round := old(rows)[round][s := st]]
    {
      states[round, s] := st;
      rows := rows[round := rows[round][s := st]];
    }

    method SetBest(q: Query, s: nat, t: RTime)
      requires Ready(q) && s < |td.stops|
      modifies bestTime, this`best
      ensures Ready(q) && best == old(best)[s := t]
    {
      bestTime[s] := t;
      best := best[s := t];
    }

    /** Mark for the next round all running routes that serve a stop. */
    method FlagRoutesForStop(q: Query, s: nat)
      requires Ready(q) && s < |td.stops|
      modifies this`updatedRoutes
      ensures Ready(q)
      ensures forall r :: r in updatedRoutes <==>
                r in old(updatedRoutes) || (r in td.stops[s].routes && RouteRuns(q, td.routes[r]) && ModeAllowed(q.req, td.routes[r]))
    {
      var routes := td.stops[s].routes;
      assert StopInBounds(td, td.stops[s]);
      for i := 0 to |routes|
        invariant forall r :: r in updatedRoutes <==>
                    r in old(updatedRoutes) || (r in routes[..i] && RouteRuns(q, td.routes[r]) && ModeAllowed(q.req, td.routes[r]))
      {
        if RouteRuns(q, td.routes[routes[i]]) && ModeAllowed(q.req, td.routes[routes[i]]) {
          updatedRoutes := updatedRoutes + {routes[i]};
        }
      }
      assert routes[..|routes|] == routes;
    }

    method UnflagBannedRoutes(q: Query)
      requires Ready(q)
      modifies this`updatedRoutes
      ensures Ready(q)
      ensures updatedRoutes == set r | r in old(updatedRoutes) && !(q.req.nBannedRoutes > 0 && r == q.req.bannedRoute)
    {
      if q.req.nBannedRoutes > 0 {
        updatedRoutes := updatedRoutes - {q.req.bannedRoute};
      }
    }

    method UnflagBannedStops(q: Query)
      requires Ready(q)
      modifies this`updatedStops
      ensures Ready(q)
      ensures updatedStops == set s | s in old(updatedStops) && !Banned(q, s)
    {
      if q.req.nBannedStops > 0 {
        updatedStops := updatedStops - {q.req.bannedStop};
      }
    }

    /** Flag what may be flagged at a stop that was just touched. */
    method FlagStop(q: Query, s: nat, ghost updated: set<nat>, ghost row0: Row, ghost best0: seq<RTime>,
                    ghost updated0: set<nat>, ghost best1: seq<RTime>)
      requires Ready(q) && s < |td.stops|
      requires FlagsFollow(q, updated0, row0, best0, best1, updatedRoutes)
      requires |best1| == |best| && best == best1[s := best[s]] && updated <= updated0 + {s}
      modifies this`updatedRoutes
      ensures Ready(q) && FlagsFollow(q, updated, row0, best0, best, updatedRoutes)
    {
      assert StopInBounds(td, td.stops[s]);
      FlagRoutesForStop(q, s);
      UnflagBannedRoutes(q);
      FlagStep(q, updated0, row0, best0, best1, old(updatedRoutes), updated, best, updatedRoutes, s);
    }

    /** Take one footpath and record it if it improves on the best time. */
    method TakeFootpath(q: Query, round: nat, from: nat, tr: nat, timeFrom: RTime,
                        ghost updated: set<nat>, ghost row0: Row, ghost best0: seq<RTime>)
      requires Ready(q) && round < MAX_ROUNDS && HasFootpath(q, from, tr) && from in updated
      requires timeFrom == rows[round][from].time != UNREACHED
      requires Walked(q, updated, row0, best0, rows[round], best)
      requires FlagsFollow(q, updated, row0, best0, best, updatedRoutes)
      modifies bestTime, states, this`best, this`rows, this`updatedRoutes
      ensures Ready(q) && rows == old(rows)[round := rows[round]]
      ensures Walked(q, updated, row0, best0, rows[round], best)
      ensures FlagsFollow(q, updated, row0, best0, best, updatedRoutes)
      ensures forall s | 0 <= s < |best| :: Cost(q, best[s]) <= Cost(q, old(best)[s])
      ensures InRange(WalkEnd(q, Foot(from, tr), timeFrom)) ==>
                Cost(q, best[PathTarget(q, from, tr)]) <= Cost(q, WalkEnd(q, Foot(from, tr), timeFrom))
    {
      hide Walked, FlagsFollow;
      assert StopInBounds(td, td.stops[from]);
      var to := td.stops[from].transfers[tr].target;
      var duration := q.walks[td.stops[from].transfers[tr].distance];
      var timeTo := WrappedShift(q.req.arriveBy, timeFrom, duration);
      WalkTestsAreExact(q.req.arriveBy, timeFrom, duration);
      if Rejected(q.req.arriveBy, timeFrom, timeTo) { return; }
      if bestTime[to] == UNREACHED || (if q.req.arriveBy then timeTo > bestTime[to] else timeTo < bestTime[to]) {
        FootStep(q, updated, row0, best0, rows[round], best, Foot(from, tr), timeTo);
        SetState(q, round, to, states[round, to].(walkTime := timeTo, walkFrom := from));
        SetBest(q, to, timeTo);
        FlagStop(q, to, updated, row0, best0, updated, old(best));
      }
    }

    /** Walk from one updated stop: to itself, then along its footpaths. */
    method WalkFrom(q: Query, round: nat, from: nat,
                    ghost done: set<nat>, ghost row0: Row, ghost best0: seq<RTime>)
      requires Ready(q) && round < MAX_ROUNDS && from < |td.stops|
      requires SameSize(q, row0, best0) && row0[from].time == best0[from]
      requires Walked(q, done, row0, best0, rows[round], best)
      requires WalksRelaxed(q, done, row0, best)
      requires FlagsFollow(q, done, row0, best0, best, updatedRoutes)
      modifies bestTime, states, this`best, this`rows, this`updatedRoutes
      ensures Ready(q) && rows == old(rows)[round := rows[round]]
      ensures Walked(q, done + {from}, row0, best0, rows[round], best)
      ensures WalksRelaxed(q, done + {from}, row0, best)
      ensures FlagsFollow(q, done + {from}, row0, best0, best, updatedRoutes)
    {
      hide Walked, FlagsFollow, WalksRelaxed;
      WalkKeeps(q, done, row0, best0, rows[round], best, from);
      var timeFrom := states[round, from].time;
      if timeFrom == UNREACHED {
        UnreachedStep(q, done, row0, best0, rows[round], best, updatedRoutes, from);
        return;
      }
      StayStep(q, done, row0, best0, rows[round], best, from);
      if timeFrom == bestTime[from] {
        SetState(q, round, from, states[round, from].(walkTime := timeFrom, walkFrom := from));
        FlagStop(q, from, done + {from}, row0, best0, done, best);
      } else {
        StayedFlags(q, done, row0, best0, best, updatedRoutes, from);
      }
      for tr := 0 to |td.stops[from].transfers|
        invariant Ready(q) && rows == old(rows)[round := rows[round]]
        invariant Walked(q, done + {from}, row0, best0, rows[round], best)
        invariant FlagsFollow(q, done + {from}, row0, best0, best, updatedRoutes)
        invariant forall s | 0 <= s < |best| :: Cost(q, best[s]) <= Cost(q, old(best)[s])
        invariant forall i | 0 <= i < tr && InRange(WalkEnd(q, Foot(from, i), timeFrom)) ::
                    Cost(q, best[PathTarget(q, from, i)]) <= Cost(q, WalkEnd(q, Foot(from, i), timeFrom))
      {
        WalkKeeps(q, done + {from}, row0, best0, rows[round], best, from);
        TakeFootpath(q, round, from, tr, timeFrom, done + {from}, row0, best0);
      }
      WalkKeeps(q, done + {from}, row0, best0, rows[round], best, from);
      RelaxStep(q, done, row0, old(best), best, from);
    }

    /** The walking phase of a round: from every updated stop take every footpath,
        keep the improvements, and flag the routes at the stops reached. */
    method ApplyTransfers(q: Query, round: nat)
      requires Ready(q) && round < MAX_ROUNDS
      requires forall s | s in updatedStops :: s < |td.stops| && rows[round][s].time == best[s]
      modifies bestTime, states, this`best, this`rows, this`updatedStops, this`updatedRoutes
      ensures Ready(q) && rows == old(rows)[round := rows[round]]
      ensures Walked(q, old(updatedStops), old(rows[round]), old(best), rows[round], best)
      ensures WalksRelaxed(q, old(updatedStops), old(rows[round]), best)
      ensures LeastWalks(q, old(updatedStops), old(rows[round]), old(best), best)
      ensures FlagsFollow(q, old(updatedStops), old(rows[round]), old(best), best, updatedRoutes)
      ensures updatedStops == {}
    {
      hide Walked, FlagsFollow, WalksRelaxed, LeastWalks;
      ghost var row0, best0, done := rows[round], best, {};
      WalkStart(q, row0, best0);
      updatedRoutes := {};
      var from := NextMember(updatedStops, 0, |td.stops|);
      while from != BITSET_NONE
        invariant from != BITSET_NONE ==> from < |td.stops| && from in updatedStops
        invariant done == set s | s in updatedStops && (from == BITSET_NONE || s < from)
        invariant updatedStops == old(updatedStops)
        invariant Ready(q) && rows == old(rows)[round := rows[round]]
        invariant Walked(q, done, row0, best0, rows[round], best)
        invariant WalksRelaxed(q, done, row0, best)
        invariant FlagsFollow(q, done, row0, best0, best, updatedRoutes)
        decreases if from == BITSET_NONE then 0 else |td.stops| - from + 1
      {
        WalkFrom(q, round, from, done, row0, best0);
        done := done + {from};
        from := NextMember(updatedStops, from + 1, |td.stops|);
      }
      assert done == updatedStops;
      WalkedIsLeast(q, done, row0, best0, rows[round], best);
      updatedStops := {};
    }

    /** Alight from the trip aboard at position m, unless pruned or no improvement. */
    method Alight(q: Query, round: nat, r: nat, m: nat, b: Boarding, ghost on: nat, ghost prev: Row,
                  ghost row0: Row, ghost best0: seq<RTime>)
      requires Ready(q) && round < MAX_ROUNDS && HasStop(q, r, m) && RouteAllowed(q, r)
      requires b.trip != NONE && HasTrip(q, r, b.trip, b.day) && Aboard(q, r, prev, b, on, m)
      requires AlightAllowed(q, r, m) && !HardBanned(q, StopAt(q, r, m))
      requires Rode(q, prev, row0, best0, rows[round], best, updatedStops)
      modifies bestTime, states, this`best, this`rows, this`updatedStops
      ensures Ready(q) && rows == old(rows)[round := rows[round]]
      ensures Rode(q, prev, row0, best0, rows[round], best, updatedStops)
      ensures NoWorse(q, old(best), best)
      ensures Recordable(q, AlightTime(q, r, b.trip, b.day, m)) ==>
                Covered(q, best, StopAt(q, r, m), AlightTime(q, r, b.trip, b.day, m))
    {
      hide Rode, Aboard;
      var s := StopAt(q, r, m);
      var time := AlightTime(q, r, b.trip, b.day, m);
      if time == UNREACHED { return; }
      var target := Target(q.req);
      if bestTime[target] != UNREACHED && Better(q, bestTime[target], time) { return; }
      if q.req.timeCutoff != UNREACHED && Better(q, q.req.timeCutoff, time) { return; }
      var improved := bestTime[s] == UNREACHED || Better(q, time, bestTime[s]);
      if !improved { return; }
      if time > THREE_DAYS || Better(q, time, q.req.time) { return; }
      RecordRide(q, prev, row0, best0, rows[round], best, updatedStops, r, b, on, m, time);
      SetBest(q, s, time);
      SetState(q, round, s, states[round, s].(time := time, backRoute := r, backTrip := b.trip,
                                              backStop := b.stop, boardTime := b.time));
      updatedStops := updatedStops + {s};
    }

    /** Handle one position of a route: board, stay aboard, or alight. */
    method VisitStop(q: Query, round: nat, lastRound: nat, r: nat, m: nat, aboard: Boarding, ghost aboardOn: nat,
                     ghost row0: Row, ghost best0: seq<RTime>)
      returns (b: Boarding, ghost on: nat)
      requires Ready(q) && round < MAX_ROUNDS && lastRound < MAX_ROUNDS && round != lastRound
      requires HasStop(q, r, m) && RouteAllowed(q, r)
      requires Aboard(q, r, rows[lastRound], aboard, aboardOn, m)
      requires Rode(q, rows[lastRound], row0, best0, rows[round], best, updatedStops)
      requires LabelsKnown(q, rows[lastRound], best)
      requires Ideal(q) ==> Scanned(q, r, rows[lastRound], best, aboard, m)
      modifies bestTime, states, this`best, this`rows, this`updatedStops
      ensures Ready(q) && rows == old(rows)[round := rows[round]]
      ensures Aboard(q, r, rows[lastRound], b, on, Next(q, m))
      ensures Rode(q, rows[lastRound], row0, best0, rows[round], best, updatedStops)
      ensures NoWorse(q, old(best), best)
      ensures Ideal(q) ==> Scanned(q, r, rows[lastRound], best, b, Next(q, m))
      ensures var s := StopAt(q, r, m);
              if AttemptBoard(q, r, m, old(rows)[lastRound][s].walkTime, Remaining(q, s, aboard)) then
                && rows == old(rows) && best == old(best)
                && (BoardAllowed(q, r, m) && (AlightAllowed(q, r, m) || Remaining(q, s, aboard).trip == NONE) ==>
                      Boards(q, r, m, old(rows)[lastRound][s].walkTime, Remaining(q, s, aboard), b))
              else
                Remaining(q, s, aboard).trip != NONE && AlightAllowed(q, r, m)
                && Recordable(q, AlightTime(q, r, aboard.trip, aboard.day, m)) ==>
                  Covered(q, best, s, AlightTime(q, r, aboard.trip, aboard.day, m))
    {
      hide Rode, Ideal, Scanned, LabelsKnown, Aboard, NoWorse, WellFormed, Chosen, BestBefore, Bounded, Covered, Recordable;
      NoWorseAtAll(q, best);
      var s := StopAt(q, r, m);
      b, on := Remaining(q, s, aboard), aboardOn;
      RideOn(q, r, rows[lastRound], b, on, m);
      var prevTime := states[lastRound, s].walkTime;
      var attempt := AttemptBoard(q, r, m, prevTime, b);
      ghost var prev, best1 := rows[lastRound], best;
      if Ideal(q) {
        PlainSearch(q, r, m);
      }
      if !BoardAllowed(q, r, m) && attempt {
        if Ideal(q) {
          CannotBoard(q, r, prev, best, b, on, m);
        }
        return;
      }
      if !AlightAllowed(q, r, m) && b.trip != NONE {
        if Ideal(q) {
          BoardingStopsAlight(q, r, prev, b, on, m);
          StayAboard(q, r, prev, best, b, on, m, best);
        }
        return;
      }
      if attempt {
        var c := FindTrip(q, r, m, prevTime);
        NeverTooEarly(q, r, prev, best, m, c);
        if Ideal(q) {
          BoardHere(q, r, prev, best, b, on, m, c);
        }
        if c.trip != NONE && !Better(q, c.time, q.req.time) {
          b, on := Boarding(c.trip, s, c.time, c.day), m;
          GetOn(q, r, prev, m, c);
        }
      } else if b.trip != NONE {
        Alight(q, round, r, m, b, on, prev, row0, best0);
        if Ideal(q) {
          StayAboard(q, r, prev, best1, b, on, m, best);
        }
      } else if Ideal(q) {
        PassStop(q, r, prev, best, b, m);
      }
    }

    /** Scan all positions of one route, in the direction of the search. */
    method ScanRoute(q: Query, round: nat, lastRound: nat, r: nat, ghost row0: Row, ghost best0: seq<RTime>)
      requires Ready(q) && round < MAX_ROUNDS && lastRound < MAX_ROUNDS && round != lastRound
      requires Flaggable(q, r)
      requires Rode(q, rows[lastRound], row0, best0, rows[round], best, updatedStops)
      requires LabelsKnown(q, rows[lastRound], best)
      modifies bestTime, states, this`best, this`rows, this`updatedStops
      ensures Ready(q) && rows == old(rows)[round := rows[round]]
      ensures Rode(q, rows[lastRound], row0, best0, rows[round], best, updatedStops)
      ensures NoWorse(q, old(best), best)
      ensures LabelsKnown(q, rows[lastRound], best)
      ensures Ideal(q) ==> RouteRelaxed(q, r, rows[lastRound], best)
    {
      hide Rode, Ideal, Aboard, Scanned, LabelsKnown, RouteRelaxed;
      ghost var prev := rows[lastRound];
      if q.req.agency != AGENCY_UNFILTERED && q.req.agency != td.routes[r].agency {
        WrongAgency(q, r, prev, best);
        return;
      }
      var n := |td.routes[r].stops|;
      var m := if q.req.arriveBy then n - 1 else 0;
      var b := Boarding(NONE, 0, 0, 0);
      ghost var on: nat := 0;
      ScanStart(q, r, prev, best, b, on, m);
      while if q.req.arriveBy then m >= 0 else m < n
        invariant -1 <= m <= n
        invariant Ready(q) && rows == old(rows)[round := rows[round]]
        invariant Aboard(q, r, prev, b, on, m)
        invariant Rode(q, prev, row0, best0, rows[round], best, updatedStops)
        invariant NoWorse(q, old(best), best)
        invariant LabelsKnown(q, prev, best) && (Ideal(q) ==> Scanned(q, r, prev, best, b, m))
        decreases if q.req.arriveBy then m + 1 else n - m
      {
        ghost var best1 := best;
        b, on := VisitStop(q, round, lastRound, r, m, b, on, row0, best0);
        KnownKeeps(q, prev, best1, best);
        m := Next(q, m);
      }
      if Ideal(q) {
        ScanDone(q, r, prev, best, b, m);
      }
    }

    /** Undo the borrowing of a row for the initial state: clear the walks of the
        origin and of its footpath targets. */
    method InitializeTransfers(q: Query, round: nat, from: nat)
      requires Ready(q) && round < MAX_ROUNDS && from < |td.stops|
      modifies states, this`rows
      ensures Ready(q) && rows == old(rows)[round := rows[round]]
      ensures forall s | 0 <= s < |td.stops| ::
                if s == from || exists i: nat :: HasFootpath(q, from, i) && PathTarget(q, from, i) == s
                then rows[round][s] == old(rows)[round][s].(walkTime := UNREACHED)
                else rows[round][s] == old(rows)[round][s]
    {
      SetState(q, round, from, states[round, from].(walkTime := UNREACHED));
      for t := 0 to |td.stops[from].transfers|
        invariant Ready(q) && rows == old(rows)[round := rows[round]]
        invariant forall s | 0 <= s < |td.stops| ::
                    if s == from || exists i: nat :: i < t && HasFootpath(q, from, i) && PathTarget(q, from, i) == s
                    then rows[round][s] == old(rows)[round][s].(walkTime := UNREACHED)
                    else rows[round][s] == old(rows)[round][s]
      {
        assert HasFootpath(q, from, t);
        var to := td.stops[from].transfers[t].target;
        assert to == PathTarget(q, from, t);
        SetState(q, round, to, states[round, to].(walkTime := UNREACHED));
      }
    }

    /** k rounds are complete and the next round's routes are flagged. */
    ghost predicate Between(q: Query, k: nat)
      reads this, bestTime, states
    {
      && Ready(q) && Settled(q, k, rows, best)
      && updatedStops == {} && (forall r | r in updatedRoutes :: Flaggable(q, r))
      && (q.req.nBannedStops == 0 ==> Attained(q, k, best))
      && (Ideal(q) ==> Best(q, k, LastRow(rows, k), best, updatedRoutes))
    }

    /** The riding phase: scan every flagged route. */
    method RideRoutes(q: Query, round: nat, lastRound: nat)
      requires Ready(q) && round < MAX_ROUNDS && lastRound < MAX_ROUNDS && round != lastRound
      requires updatedStops == {} && forall r | r in updatedRoutes :: Flaggable(q, r)
      requires LabelsKnown(q, rows[lastRound], best)
      modifies bestTime, states, this`best, this`rows, this`updatedStops
      ensures Ready(q) && rows == old(rows)[round := rows[round]]
      ensures Rode(q, rows[lastRound], old(rows)[round], old(best), rows[round], best, updatedStops)
      ensures Ideal(q) ==> forall r | r in updatedRoutes :: RouteRelaxed(q, r, rows[lastRound], best)
    {
      hide Rode, Ideal, LabelsKnown, RouteRelaxed;
      ghost var prev, row0, best0 := rows[lastRound], rows[round], best;
      ghost var done: set<nat> := {};
      RideStarts(q, prev, row0, best0);
      var route := NextMember(updatedRoutes, 0, |td.routes|);
      while route != BITSET_NONE
        invariant route != BITSET_NONE ==> route < |td.routes| && route in updatedRoutes
        invariant done == set r | r in updatedRoutes && (route == BITSET_NONE || r < route)
        invariant Ready(q) && rows == old(rows)[round := rows[round]]
        invariant Rode(q, prev, row0, best0, rows[round], best, updatedStops)
        invariant LabelsKnown(q, prev, best) && (Ideal(q) ==> forall r | r in done :: RouteRelaxed(q, r, prev, best))
        decreases if route == BITSET_NONE then 0 else |td.routes| - route + 1
      {
        ghost var best1 := best;
        ScanRoute(q, round, lastRound, route, row0, best0);
        forall r | r in done ensures RouteRelaxed(q, r, prev, best1) ==> RouteRelaxed(q, r, prev, best) {
          CoverKeeps(q, r, prev, best1, best);
        }
        done := done + {route};
        route := NextMember(updatedRoutes, route + 1, |td.routes|);
      }
      assert done == updatedRoutes;
    }

    /** One round: ride the flagged routes, then walk and flag the next ones. */
    method Round(q: Query, round: nat)
      requires round < MAX_ROUNDS && Between(q, round)
      modifies this`updatedStops, this`updatedRoutes, this`best, this`rows, bestTime, states
      ensures Between(q, round + 1)
      ensures forall i | 0 <= i < round :: rows[i] == old(rows)[i]
      ensures RoundBetter(q, old(best), rows[round], best)
    {
      hide Rode, Ideal, LabelsKnown, RouteRelaxed, Walked, WalksRelaxed, FlagsFollow, Traced, Ordered, Attained,
           Best, Phases, WellFormed, Flaggable, Touched, SameRide, Banned;
      var lastRound := if round == 0 then 1 else round - 1;
      ghost var rows0, prev, best0, routes := rows, rows[lastRound], best, updatedRoutes;
      BetweenKnown(q, round, rows, best);
      RideRoutes(q, round, lastRound);
      ghost var row1, best1, updated := rows[round], best, updatedStops;
      forall s | s in updated ensures s < |row1| == |best1| && row1[s].time == best1[s] {
        RodeTimes(q, prev, rows0[round], best0, row1, best1, updated, s);
      }
      UnflagBannedStops(q);
      ghost var walking := updatedStops;
      ApplyTransfers(q, round);
      ghost var row2 := rows[round];
      if round == 0 {
        InitializeTransfers(q, 1, Origin(q.req));
        InitialCleared(q, rows0[1], rows[1]);
      }
      RoundComplete(q, round, rows0, best0, routes, row1, best1, updated, walking, row2, best, updatedRoutes, rows);
      OnlyFlaggable(q, walking, row1, best1, best, updatedRoutes);
    }

    /** Clear all tables and enter the origin: its time goes into row 1, which is
        borrowed for the initial state, and into row 0 for rendering. */
    method Reset(q: Query)
      requires Valid(q) && q.td == td && Sized()
      modifies this`best, this`rows, bestTime, states
      ensures Ready(q) && Blank(q, rows[1], best)
      ensures forall k | 0 <= k < MAX_ROUNDS :: Unwalked(rows[k])
      ensures rows[0][Origin(q.req)].time == q.req.time
    {
      var n := |td.stops|;
      forall k, s | 0 <= k < MAX_ROUNDS && 0 <= s < n {
        states[k, s] := states[k, s].(time := UNREACHED, walkTime := UNREACHED);
      }
      forall s | 0 <= s < n {
        bestTime[s] := UNREACHED;
      }
      best := bestTime[..];
      rows := seq(MAX_ROUNDS, k requires 0 <= k < MAX_ROUNDS reads states =>
                seq(n, s requires 0 <= s < n reads states => states[k, s]));
      var origin := Origin(q.req);
      SetBest(q, origin, q.req.time);
      SetState(q, 1, origin, states[1, origin].(time := q.req.time, backStop := NONE, backRoute := NONE,
                                                backTrip := NONE, boardTime := UNREACHED));
      SetState(q, 0, origin, states[0, origin].(time := q.req.time));
    }

    lemma Progress(q: Query, k: nat)
      requires Between(q, k)
      ensures RoundResult(q, k, best)
    {
      if Ideal(q) {
        BestIsOptimal(q, k, LastRow(rows, k), best, updatedRoutes);
      }
    }

    /** Enter the origin and walk out of it. */
    method Begin(q: Query)
      requires Valid(q) && q.td == td && Sized()
      modifies this`updatedStops, this`updatedRoutes, this`best, this`rows, bestTime, states
      ensures Between(q, 0)
    {
      hide Ideal, Settled, Attained, Best, Blank, Walked, WalksRelaxed, FlagsFollow, WellFormed, LeastWalks, Unwalked;
      Reset(q);
      updatedStops := {Origin(q.req)};
      UnflagBannedStops(q);
      ghost var walking, row0, best0 := updatedStops, rows[1], best;
      BlankOrigin(q, row0, best0);
      ApplyTransfers(q, 1);
      InitialComplete(q, walking, row0, best0, rows, best, updatedRoutes);
      OnlyFlaggable(q, walking, row0, best0, best, updatedRoutes);
    }

    /** Search from the request's origin for as many rounds as it allows.  The
        ghost result records the best times after each round. */
    method Route(req: Request, realtimeMask: Mask) returns (ghost q: Query, ghost trail: seq<seq<RTime>>)
      requires WellFormed(td) && Sized()
      requires req.from < |td.stops| && req.to < |td.stops| && req.walkSpeed > 0.0
      modifies this, bestTime, states
      ensures q == QueryFor(td, req, realtimeMask) && Valid(q)
      ensures WalksLast(q.walks, req.walkSpeed, req.walkSlack)
      ensures Between(q, RoundCount(req))
      ensures Recorded(q, RoundCount(req), rows, trail) && trail[RoundCount(req)] == best
    {
      hide Ideal, Settled, Attained, Best, RoundBetter, WellFormed, RoundResult, Recorded, WalksLast;
      serviceDays := ServiceDays(req, realtimeMask);
      var walks := WalkTimes(req.walkSpeed, req.walkSlack);
      var query := Query(td, req, serviceDays, walks);
      q := query;
      WalkTimesLast(req.walkSpeed, req.walkSlack);
      Begin(query);
      trail := [best];
      Progress(q, 0);
      NothingRecorded(q, rows, best);
      var n := RoundCount(req);
      for round := 0 to n
        invariant Between(q, round)
        invariant Recorded(q, round, rows, trail) && |trail| == round + 1 && trail[round] == best
      {
        ghost var rows0 := rows;
        Round(query, round);
        Progress(q, round + 1);
        RoundRecorded(q, round, rows0, rows, trail, best);
        trail := trail + [best];
      }
    }
  }
}
