/** What a search records, and the relations between its tables that every phase
    keeps: the labels can be traced back, and no better label was missed. */
module Search {
  import opened Rtime
  import opened Timetables
  import opened Journeys

  /** How a stop was reached in one round: first by riding, then by walking. */
  datatype State = State(
    backStop: nat, backRoute: nat, backTrip: nat,
    time: RTime, boardTime: RTime, walkFrom: nat, walkTime: RTime)

  type Row = seq<State>

  /* ----- the walking phase ----- */

  /** A walk that can follow a ride recorded in this row. */
  predicate WalkOut(q: Query, row: Row, w: Walk) {
    w.from < |row| && WalkFits(q, w, row[w.from].time)
  }

  /** A walk that explains the walk fields of stop s. */
  predicate WalkLabel(q: Query, row: Row, s: nat, w: Walk) {
    && s < |row| && WalkOut(q, row, w)
    && WalkTo(q, w) == s && w.from == row[s].walkFrom
    && WalkEnd(q, w, row[w.from].time) == row[s].walkTime
  }

  predicate SameRide(a: State, b: State) {
    a == b.(walkFrom := a.walkFrom, walkTime := a.walkTime)
  }

  /** Stop s received a walk label: it was itself updated, or a walk improved it. */
  predicate Touched(updated: set<nat>, row0: Row, best0: seq<RTime>, best: seq<RTime>, s: nat)
    requires s < |row0| && s < |best0| && s < |best|
  {
    (s in updated && row0[s].time != UNREACHED) || best[s] != best0[s]
  }

  predicate SameSize(q: Query, row: Row, best: seq<RTime>) {
    |row| == |best| == |q.td.stops|
  }

  /** `best` and the walk fields of `row` after walking from every updated stop. */
  ghost predicate Walked(q: Query, updated: set<nat>, row0: Row, best0: seq<RTime>,
                         row: Row, best: seq<RTime>) {
    && Valid(q) && SameSize(q, row0, best0) && SameSize(q, row, best)
    && (forall s | 0 <= s < |row| :: SameRide(row[s], row0[s]))
    && (forall s | 0 <= s < |best| :: best[s] != best0[s] ==> Cost(q, best[s]) < Cost(q, best0[s]))
    && (forall s | 0 <= s < |row| :: if Touched(updated, row0, best0, best, s)
          then row[s].walkTime == best[s] && exists w :: WalkLabel(q, row, s, w) && w.from in updated
          else row[s] == row0[s])
  }

  /** No walk from an updated stop leads anywhere earlier than recorded. */
  ghost predicate WalksRelaxed(q: Query, updated: set<nat>, row: Row, best: seq<RTime>) {
    && Valid(q) && SameSize(q, row, best)
    && forall w: Walk | WalkOut(q, row, w) && w.from in updated ::
         Cost(q, best[WalkTo(q, w)]) <= Cost(q, WalkEnd(q, w, row[w.from].time))
  }

  /** Each best time is the least among the old one and the ends of all walks to the
      stop from updated stops. */
  ghost predicate LeastWalks(q: Query, updated: set<nat>, row: Row, best0: seq<RTime>, best: seq<RTime>) {
    && Valid(q) && |best0| == |best| == |row| == |q.td.stops|
    && (forall s | 0 <= s < |best| :: Cost(q, best[s]) <= Cost(q, best0[s]))
    && (forall w: Walk | WalkOut(q, row, w) && w.from in updated ::
          Cost(q, best[WalkTo(q, w)]) <= Cost(q, WalkEnd(q, w, row[w.from].time)))
    && (forall s | 0 <= s < |best| && best[s] != best0[s] :: exists w :: EndsAt(q, updated, row, w, s, best[s]))
  }

  predicate EndsAt(q: Query, updated: set<nat>, row: Row, w: Walk, s: nat, t: RTime) {
    WalkOut(q, row, w) && w.from in updated && WalkTo(q, w) == s && WalkEnd(q, w, row[w.from].time) == t
  }

  /** The walking phase computes that minimum. */
  lemma WalkedIsLeast(q: Query, updated: set<nat>, row0: Row, best0: seq<RTime>, row: Row, best: seq<RTime>)
    requires Walked(q, updated, row0, best0, row, best) && WalksRelaxed(q, updated, row0, best)
    ensures LeastWalks(q, updated, row0, best0, best)
  {
    hide WellFormed;
    forall s | 0 <= s < |best| && best[s] != best0[s] ensures exists w :: EndsAt(q, updated, row0, w, s, best[s]) {
      assert Touched(updated, row0, best0, best, s);
      var w :| WalkLabel(q, row, s, w) && w.from in updated;
      assert SameRide(row[w.from], row0[w.from]);
      assert EndsAt(q, updated, row0, w, s, best[s]);
    }
  }

  lemma LeastIsUnique(q: Query, updated: set<nat>, row: Row, best0: seq<RTime>, best: seq<RTime>, best': seq<RTime>)
    requires LeastWalks(q, updated, row, best0, best) && LeastWalks(q, updated, row, best0, best')
    ensures best == best'
  {
    hide WellFormed;
    forall s | 0 <= s < |best| ensures best[s] == best'[s] {
      if best[s] != best0[s] {
        var w :| EndsAt(q, updated, row, w, s, best[s]);
        assert Cost(q, best'[s]) <= Cost(q, best[s]);
      }
      if best'[s] != best0[s] {
        var w :| EndsAt(q, updated, row, w, s, best'[s]);
        assert Cost(q, best[s]) <= Cost(q, best'[s]);
      }
    }
  }

  /** The order in which stops and footpaths are taken does not matter: any two
      results of the walking phase agree on best and walk times.  A walk time is the
      best time, and no later than the time of a ride that was a best time. */
  lemma WalkingHasOneResult(q: Query, updated: set<nat>, row0: Row, best0: seq<RTime>, row: Row, best: seq<RTime>,
                            row': Row, best': seq<RTime>)
    requires Walked(q, updated, row0, best0, row, best) && WalksRelaxed(q, updated, row0, best)
    requires Walked(q, updated, row0, best0, row', best') && WalksRelaxed(q, updated, row0, best')
    ensures best == best' && |row| == |row'| && forall s | 0 <= s < |row| :: row[s].walkTime == row'[s].walkTime
    ensures forall s | 0 <= s < |row| && Touched(updated, row0, best0, best, s) :: row[s].walkTime == best[s]
    ensures forall s | 0 <= s < |row| && Touched(updated, row0, best0, best, s) && Cost(q, best0[s]) <= Cost(q, row0[s].time) ::
              Cost(q, row[s].walkTime) <= Cost(q, row[s].time)
  {
    hide WellFormed, WalksRelaxed, WalkLabel;
    WalkedIsLeast(q, updated, row0, best0, row, best);
    WalkedIsLeast(q, updated, row0, best0, row', best');
    LeastIsUnique(q, updated, row0, best0, best, best');
  }

  /** A route that the walking phase may flag for the next round. */
  predicate Flaggable(q: Query, r: nat) {
    Valid(q) && r < |q.td.routes| && RouteRuns(q, q.td.routes[r]) && ModeAllowed(q.req, q.td.routes[r])
    && (q.req.nBannedRoutes > 0 ==> r != q.req.bannedRoute)
  }

  /** Every route at stop s that may be flagged is flagged. */
  ghost predicate Flagged(q: Query, routes: set<nat>, s: nat) {
    s < |q.td.stops| && forall r | r in q.td.stops[s].routes && Flaggable(q, r) :: r in routes
  }

  /** Exactly flaggable routes are flagged, among them all those at touched stops. */
  ghost predicate FlagsFollow(q: Query, updated: set<nat>, row0: Row, best0: seq<RTime>, best: seq<RTime>, routes: set<nat>) {
    && Valid(q) && SameSize(q, row0, best0) && |best| == |best0|
    && (forall r | r in routes :: Flaggable(q, r))
    && (forall s | 0 <= s < |best| && Touched(updated, row0, best0, best, s) :: Flagged(q, routes, s))
  }

  /** The tables after recording walk w, which ends at time t. */
  function RecordWalk(q: Query, row: Row, w: Walk, t: RTime): Row
    requires WalkOut(q, row, w) && |row| == |q.td.stops|
  {
    row[WalkTo(q, w) := row[WalkTo(q, w)].(walkTime := t, walkFrom := w.from)]
  }

  /** Before any walking. */
  lemma WalkStart(q: Query, row: Row, best: seq<RTime>)
    requires Valid(q) && SameSize(q, row, best)
    ensures Walked(q, {}, row, best, row, best)
    ensures WalksRelaxed(q, {}, row, best)
    ensures FlagsFollow(q, {}, row, best, best, {})
  {}

  /** Nothing can be walked from a stop that was not reached by riding. */
  lemma UnreachedStep(q: Query, updated: set<nat>, row0: Row, best0: seq<RTime>, row: Row, best: seq<RTime>,
                      routes: set<nat>, s: nat)
    requires Walked(q, updated, row0, best0, row, best)
    requires WalksRelaxed(q, updated, row0, best)
    requires FlagsFollow(q, updated, row0, best0, best, routes)
    requires s < |row0| && row0[s].time == UNREACHED
    ensures Walked(q, updated + {s}, row0, best0, row, best)
    ensures WalksRelaxed(q, updated + {s}, row0, best)
    ensures FlagsFollow(q, updated + {s}, row0, best0, best, routes)
  {}

  /** Walking changes neither the rides nor worsens any best time. */
  lemma WalkKeeps(q: Query, updated: set<nat>, row0: Row, best0: seq<RTime>, row: Row, best: seq<RTime>, s: nat)
    requires Walked(q, updated, row0, best0, row, best) && s < |row|
    ensures |row| == |row0| == |best| == |best0|
    ensures row[s].time == row0[s].time && Cost(q, best[s]) <= Cost(q, best0[s])
  {}

  /** Flags still follow after one more stop is touched and its routes flagged. */
  lemma FlagStep(q: Query, updated: set<nat>, row0: Row, best0: seq<RTime>, best: seq<RTime>, routes: set<nat>,
                 updated': set<nat>, best': seq<RTime>, routes': set<nat>, s: nat)
    requires FlagsFollow(q, updated, row0, best0, best, routes)
    requires s < |best| == |best'| && best' == best[s := best'[s]] && updated' <= updated + {s}
    requires routes <= routes' && Flagged(q, routes', s) && forall r | r in routes' - routes :: Flaggable(q, r)
    ensures FlagsFollow(q, updated', row0, best0, best', routes')
  {
    forall u | 0 <= u < |best'| && Touched(updated', row0, best0, best', u)
      ensures Flagged(q, routes', u)
    {
      if u != s {
        assert Touched(updated, row0, best0, best, u);
      }
    }
  }

  /** A stop whose label was already replaced by a walk has its flags. */
  lemma StayedFlags(q: Query, updated: set<nat>, row0: Row, best0: seq<RTime>, best: seq<RTime>, routes: set<nat>, s: nat)
    requires FlagsFollow(q, updated, row0, best0, best, routes)
    requires s < |best| && best[s] != best0[s]
    ensures FlagsFollow(q, updated + {s}, row0, best0, best, routes)
  {}

  /** Relaxed walks stay relaxed while best times only improve; the walks from one
      more stop are relaxed when staying and all its footpaths are. */
  lemma RelaxStep(q: Query, updated: set<nat>, row: Row, best: seq<RTime>, best': seq<RTime>, s: nat)
    requires WalksRelaxed(q, updated, row, best) && |best'| == |best| && s < |row|
    requires forall u | 0 <= u < |best| :: Cost(q, best'[u]) <= Cost(q, best[u])
    requires Cost(q, best'[s]) <= Cost(q, row[s].time)
    requires forall i | HasFootpath(q, s, i) && WalkOut(q, row, Foot(s, i)) ::
               Cost(q, best'[PathTarget(q, s, i)]) <= Cost(q, WalkEnd(q, Foot(s, i), row[s].time))
    ensures WalksRelaxed(q, updated + {s}, row, best')
  {
    forall w: Walk | WalkOut(q, row, w) && w.from in updated + {s}
      ensures Cost(q, best'[WalkTo(q, w)]) <= Cost(q, WalkEnd(q, w, row[w.from].time))
    {
      if w.from in updated {
        assert Cost(q, best[WalkTo(q, w)]) <= Cost(q, WalkEnd(q, w, row[w.from].time));
      } else if w.Foot? {
        assert w == Foot(s, w.path);
      }
    }
  }

  /** Staying put is tried first, and only while it is still the best way. */
  lemma StayStep(q: Query, updated: set<nat>, row0: Row, best0: seq<RTime>, row: Row, best: seq<RTime>, s: nat)
    requires Walked(q, updated, row0, best0, row, best) && s < |row|
    requires row0[s].time != UNREACHED && row0[s].time == best0[s]
    ensures WalkOut(q, row, Stay(s))
    ensures Walked(q, updated + {s}, row0, best0,
                   if best[s] == row[s].time then RecordWalk(q, row, Stay(s), row[s].time) else row, best)
  {
    hide WellFormed, WalkLabel;
    var stays := best[s] == row[s].time;
    var row' := if stays then RecordWalk(q, row, Stay(s), row[s].time) else row;
    forall u | 0 <= u < |row|
      ensures Touched(updated + {s}, row0, best0, best, u) ==>
                exists w :: WalkLabel(q, row', u, w) && w.from in updated + {s}
    {
      if u == s && stays {
        NewLabel(q, row, Stay(s), row[s].time);
      } else if Touched(updated, row0, best0, best, u) {
        var w :| WalkLabel(q, row, u, w) && w.from in updated;
        if stays { OtherLabel(q, row, Stay(s), row[s].time, u, w); }
      }
    }
  }

  /** A footpath that improves on the best time replaces the label of its target. */
  lemma FootStep(q: Query, updated: set<nat>, row0: Row, best0: seq<RTime>, row: Row, best: seq<RTime>, w: Walk, t: RTime)
    requires Walked(q, updated, row0, best0, row, best)
    requires WalkOut(q, row, w) && w.from in updated && t == WalkEnd(q, w, row[w.from].time)
    requires Cost(q, t) < Cost(q, best[WalkTo(q, w)])
    ensures Walked(q, updated, row0, best0, RecordWalk(q, row, w, t), best[WalkTo(q, w) := t])
  {
    hide WellFormed, WalkLabel;
    var s := WalkTo(q, w);
    var row', best' := RecordWalk(q, row, w, t), best[s := t];
    WalkCosts(q, w, row[w.from].time);
    forall u | 0 <= u < |row|
      ensures Touched(updated, row0, best0, best', u) ==>
                exists v :: WalkLabel(q, row', u, v) && v.from in updated
    {
      if u == s {
        NewLabel(q, row, w, t);
      } else if Touched(updated, row0, best0, best, u) {
        var v :| WalkLabel(q, row, u, v) && v.from in updated;
        OtherLabel(q, row, w, t, u, v);
      }
    }
  }

  lemma NewLabel(q: Query, row: Row, w: Walk, t: RTime)
    requires WalkOut(q, row, w) && |row| == |q.td.stops| && t == WalkEnd(q, w, row[w.from].time)
    ensures WalkLabel(q, RecordWalk(q, row, w, t), WalkTo(q, w), w)
  {}

  lemma OtherLabel(q: Query, row: Row, w: Walk, t: RTime, u: nat, v: Walk)
    requires WalkOut(q, row, w) && |row| == |q.td.stops| && u != WalkTo(q, w) && WalkLabel(q, row, u, v)
    ensures WalkLabel(q, RecordWalk(q, row, w, t), u, v)
  {}

  /* ----- the riding phase ----- */

  ghost predicate Reached(q: Query, prev: Row, s: nat, t: int) {
    s < |prev| && prev[s].walkTime != UNREACHED && Cost(q, prev[s].walkTime) <= Cost(q, t)
  }

  /** The ride fields of stop s are those of this ride. */
  predicate RideMatches(q: Query, s: nat, st: State, ride: Ride) {
    && InBounds(q, ride)
    && RideFrom(q, ride) == st.backStop && RideTo(q, ride) == s
    && RideStart(q, ride) == st.boardTime && RideEnd(q, ride) == st.time
    && ride.route == st.backRoute && ride.trip == st.backTrip
  }

  /** A ride that explains the ride fields of stop s, caught from a label of the
      previous round. */
  ghost predicate RideLabel(q: Query, prev: Row, s: nat, st: State, ride: Ride) {
    Permitted(q, ride) && RideMatches(q, s, st, ride) && Reached(q, prev, st.backStop, st.boardTime)
  }

  /** The tables after riding some routes out of the labels in `prev`. */
  ghost predicate Rode(q: Query, prev: Row, row0: Row, best0: seq<RTime>,
                       row: Row, best: seq<RTime>, updated: set<nat>) {
    && Valid(q) && SameSize(q, row0, best0) && SameSize(q, row, best) && |prev| == |row|
    && (forall s | s in updated :: s < |row|)
    && (forall s | 0 <= s < |row| :: if s in updated
          then row[s].time == best[s] && Cost(q, best[s]) < Cost(q, best0[s])
               && row[s].walkTime == row0[s].walkTime && row[s].walkFrom == row0[s].walkFrom
               && exists ride :: RideLabel(q, prev, s, row[s], ride)
          else row[s] == row0[s] && best[s] == best0[s])
  }

  lemma RideStarts(q: Query, prev: Row, row: Row, best: seq<RTime>)
    requires Valid(q) && SameSize(q, row, best) && |prev| == |row|
    ensures Rode(q, prev, row, best, row, best, {})
  {}

  /** Updated stops hold the ride times that are their best times. */
  lemma RodeTimes(q: Query, prev: Row, row0: Row, best0: seq<RTime>, row: Row, best: seq<RTime>, updated: set<nat>, s: nat)
    requires Rode(q, prev, row0, best0, row, best, updated) && s in updated
    ensures s < |row| == |best| && row[s].time == best[s] != UNREACHED
  {}

  lemma WalkedTouched(q: Query, updated: set<nat>, row0: Row, best0: seq<RTime>, row: Row, best: seq<RTime>)
    requires Walked(q, updated, row0, best0, row, best)
    ensures |row0| == |best0| == |row| == |best|
    ensures forall s | 0 <= s < |row| && row0[s].walkTime == UNREACHED && row[s].walkTime != UNREACHED ::
              Touched(updated, row0, best0, best, s)
    ensures forall s | 0 <= s < |best| :: Cost(q, best[s]) <= Cost(q, best0[s])
  {}

  lemma OnlyFlaggable(q: Query, updated: set<nat>, row0: Row, best0: seq<RTime>, best: seq<RTime>, routes: set<nat>)
    requires FlagsFollow(q, updated, row0, best0, best, routes)
    ensures forall r | r in routes :: Flaggable(q, r)
  {}
}
