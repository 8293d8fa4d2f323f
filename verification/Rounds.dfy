/** What holds between rounds: every label decodes to a feasible journey, and
    under ideal conditions no journey with as many rides does better. */
module Rounds {
  import opened Rtime
  import opened Timetables
  import opened Journeys
  import opened Search
  import opened Ideals
  import opened Scans

  /* ----- soundness ----- */

  /** Journey j is what the back pointers of the given rounds say about stop s:
      walk_from, then back_stop, back_route and back_trip, and so on backward. */
  ghost predicate Decodes(q: Query, rows: seq<Row>, s: nat, j: Journey)
    decreases |rows|
  {
    && HasEnd(q, j)
    && if |rows| == 0 then j.Access? && EndStop(q, j) == s
       else
         var row := rows[|rows| - 1];
         && j.Onward? && WalkLabel(q, row, s, j.walk)
         && RideMatches(q, j.walk.from, row[j.walk.from], j.ride)
         && Decodes(q, rows[..|rows| - 1], row[j.walk.from].backStop, j.prev)
  }

  /** Journey j explains that stop s is reached at time t. */
  ghost predicate Explains(q: Query, rows: seq<Row>, s: nat, t: int, j: Journey) {
    Feasible(q, j) && Decodes(q, rows, s, j) && EndStop(q, j) == s && EndTime(q, j) == t
  }

  /** Every walk label of `row` is explained by the rounds in `rows`. */
  ghost predicate RowSound(q: Query, rows: seq<Row>, row: Row) {
    && Valid(q) && |row| == |q.td.stops|
    && forall s | 0 <= s < |row| && row[s].walkTime != UNREACHED ::
         exists j :: Explains(q, rows, s, row[s].walkTime, j)
  }

  lemma {:induction false} DecodedRides(q: Query, rows: seq<Row>, s: nat, j: Journey)
    requires Decodes(q, rows, s, j)
    ensures Rides(j) == |rows|
    decreases |rows|
  {
    if |rows| == 0 {
    } else {
      DecodedRides(q, rows[..|rows| - 1], rows[|rows| - 1][j.walk.from].backStop, j.prev);
    }
  }

  /** A ride and a walk extend an explained label. */
  lemma LabelExplained(q: Query, hist: seq<Row>, prev: Row, row: Row, s: nat, w: Walk, ride: Ride, j: Journey)
    requires WalkLabel(q, row, s, w) && !Banned(q, w.from)
    requires RideLabel(q, prev, w.from, row[w.from], ride)
    requires Explains(q, hist, row[w.from].backStop, prev[row[w.from].backStop].walkTime, j)
    ensures Explains(q, hist + [row], s, row[s].walkTime, Onward(j, ride, w))
  {
    hide Permitted, WellFormed;
    assert (hist + [row])[..|hist|] == hist;
    assert (hist + [row])[|hist|] == row;
  }

  /** A round extends explained labels by explained labels. */
  lemma RoundSound(q: Query, hist: seq<Row>, prev: Row, row0: Row, best0: seq<RTime>,
                   row1: Row, best1: seq<RTime>, updated: set<nat>, walking: set<nat>, row2: Row, best2: seq<RTime>)
    requires RowSound(q, hist, prev)
    requires forall s | 0 <= s < |row0| :: row0[s].walkTime == UNREACHED
    requires Rode(q, prev, row0, best0, row1, best1, updated)
    requires walking <= updated && forall s | s in walking :: !Banned(q, s)
    requires Walked(q, walking, row1, best1, row2, best2)
    ensures RowSound(q, hist + [row2], row2)
  {
    hide Explains, Permitted, WellFormed;
    forall s | 0 <= s < |row2| && row2[s].walkTime != UNREACHED
      ensures exists j :: Explains(q, hist + [row2], s, row2[s].walkTime, j)
    {
      assert Touched(walking, row1, best1, best2, s);
      var w :| WalkLabel(q, row2, s, w) && w.from in walking;
      LabelSound(q, hist, prev, row0, best0, row1, best1, updated, row2, s, w);
    }
  }

  lemma LabelSound(q: Query, hist: seq<Row>, prev: Row, row0: Row, best0: seq<RTime>,
                   row1: Row, best1: seq<RTime>, updated: set<nat>, row2: Row, s: nat, w: Walk)
    requires RowSound(q, hist, prev) && Rode(q, prev, row0, best0, row1, best1, updated)
    requires w.from in updated && !Banned(q, w.from) && WalkLabel(q, row2, s, w)
    requires w.from < |row1| && w.from < |row2| && s < |row2| && SameRide(row2[w.from], row1[w.from])
    ensures exists j :: Explains(q, hist + [row2], s, row2[s].walkTime, j)
  {
    hide Explains, Permitted, WellFormed, WalkLabel;
    var ride :| RideLabel(q, prev, w.from, row1[w.from], ride);
    assert RideLabel(q, prev, w.from, row2[w.from], ride);
    var j :| Explains(q, hist, row2[w.from].backStop, prev[row2[w.from].backStop].walkTime, j);
    LabelExplained(q, hist, prev, row2, s, w, ride, j);
  }

  /* ----- the invariant of the rounds ----- */

  /** The labels that round k starts from: those of the round before, or for
      round 0 the initial state kept in row 1. */
  function LastRow(rows: seq<Row>, k: nat): Row
    requires |rows| == MAX_ROUNDS && k <= MAX_ROUNDS
  { if k == 0 then rows[1] else rows[k - 1] }

  predicate Unwalked(row: Row) {
    forall s | 0 <= s < |row| :: row[s].walkTime == UNREACHED
  }

  /** Best times are no worse than the labels of a row. */
  predicate BelowRow(q: Query, best: seq<RTime>, row: Row) {
    |row| == |best| && forall s | 0 <= s < |row| && row[s].walkTime != UNREACHED :: Cost(q, best[s]) <= Cost(q, row[s].walkTime)
  }

  /** Wherever both rows have a label, the later row's is strictly better. */
  predicate Improves(q: Query, earlier: Row, later: Row) {
    |earlier| == |later| && forall s | 0 <= s < |later| ::
      earlier[s].walkTime != UNREACHED && later[s].walkTime != UNREACHED ==>
        Cost(q, later[s].walkTime) < Cost(q, earlier[s].walkTime)
  }

  /** A recorded time is not before the request and within the three days. */
  predicate WithinDays(q: Query, best: seq<RTime>) {
    forall s | 0 <= s < |best| && best[s] != UNREACHED :: best[s] == q.req.time || (InRange(best[s]) && !Better(q, best[s], q.req.time))
  }

  predicate TableShape(q: Query, rows: seq<Row>, best: seq<RTime>) {
    && Valid(q) && |rows| == MAX_ROUNDS && |best| == |q.td.stops|
    && forall i | 0 <= i < MAX_ROUNDS :: |rows[i]| == |q.td.stops|
  }

  /** All labels can be traced back to the origin; later rows hold none. */
  ghost predicate Traced(q: Query, k: nat, rows: seq<Row>)
    requires |rows| == MAX_ROUNDS && k <= MAX_ROUNDS
  {
    && RowSound(q, rows[..k], LastRow(rows, k))
    && (forall i | 0 <= i < k :: RowSound(q, rows[..i + 1], rows[i]))
    && (forall i | k <= i < MAX_ROUNDS && (k > 0 || i != 1) :: Unwalked(rows[i]))
  }

  /** Every round improved on the ones before it. */
  predicate Ordered(q: Query, k: nat, rows: seq<Row>, best: seq<RTime>)
    requires TableShape(q, rows, best) && k <= MAX_ROUNDS
  {
    && BelowRow(q, best, LastRow(rows, k))
    && (forall i | 0 <= i < k :: BelowRow(q, best, rows[i]))
    && (forall i, j | 0 <= i < j < k :: Improves(q, rows[i], rows[j]))
    && best[Origin(q.req)] == q.req.time == rows[0][Origin(q.req)].time
    && WithinDays(q, best)
  }

  /** The initial state: every label is a walk out of the origin, which nothing
      was ridden to, and unless the origin is banned every best time is a label. */
  predicate Started(q: Query, row: Row, best: seq<RTime>) {
    && Valid(q) && |row| == |best| == |q.td.stops|
    && row[Origin(q.req)].backStop == NONE && row[Origin(q.req)].time == q.req.time
    && (forall s | 0 <= s < |row| && row[s].walkTime != UNREACHED :: row[s].walkFrom == Origin(q.req))
    && (!Banned(q, Origin(q.req)) ==> forall s | 0 <= s < |row| :: row[s].walkTime == best[s])
  }

  /** k rounds are complete. */
  ghost predicate Settled(q: Query, k: nat, rows: seq<Row>, best: seq<RTime>) {
    && TableShape(q, rows, best) && k <= MAX_ROUNDS && Traced(q, k, rows) && Ordered(q, k, rows, best)
    && (k == 0 ==> Started(q, rows[1], best))
  }

  /** Every best time is the arrival of some journey with at most k rides. */
  ghost predicate Attained(q: Query, k: nat, best: seq<RTime>) {
    && |best| == |q.td.stops|
    && forall s | 0 <= s < |best| && best[s] != UNREACHED :: exists j :: Reaches(q, k, s, best[s], j)
  }

  ghost predicate Reaches(q: Query, k: nat, s: nat, t: int, j: Journey) {
    Feasible(q, j) && Rides(j) <= k && EndStop(q, j) == s && EndTime(q, j) == t
  }

  /** Labels that can be explained are not before the request. */
  lemma SoundLabelsKnown(q: Query, rows: seq<Row>, prev: Row, best: seq<RTime>)
    requires RowSound(q, rows, prev) && BelowRow(q, best, prev)
    ensures LabelsKnown(q, prev, best)
  {
    forall s | 0 <= s < |prev| && prev[s].walkTime != UNREACHED
      ensures Cost(q, q.req.time) <= Cost(q, prev[s].walkTime)
    {
      var j :| Explains(q, rows, s, prev[s].walkTime, j);
      EndsAfterRequest(q, j);
    }
  }

  /** The origin is never improved on. */
  lemma OriginStays(q: Query, prev: Row, row0: Row, best0: seq<RTime>, row1: Row, best1: seq<RTime>, updated: set<nat>)
    requires Rode(q, prev, row0, best0, row1, best1, updated)
    requires best0[Origin(q.req)] == q.req.time && LabelsKnown(q, prev, best0)
    ensures Origin(q.req) !in updated && (updated != {} ==> q.req.time != UNREACHED)
  {
    hide WellFormed, HasTrip, BoardAllowed, AlightAllowed;
  }

  /** One round keeps best times within the days that are represented. */
  lemma RoundWithinDays(q: Query, prev: Row, row0: Row, best0: seq<RTime>, row1: Row, best1: seq<RTime>, updated: set<nat>,
                        walking: set<nat>, row2: Row, best2: seq<RTime>)
    requires WithinDays(q, best0) && Rode(q, prev, row0, best0, row1, best1, updated)
    requires walking <= updated && Walked(q, walking, row1, best1, row2, best2)
    ensures WithinDays(q, best2)
  {
    forall s | 0 <= s < |best2| && best2[s] != UNREACHED && best2[s] != q.req.time
      ensures InRange(best2[s]) && !Better(q, best2[s], q.req.time)
    {
      if best2[s] != best1[s] {
        assert Touched(walking, row1, best1, best2, s);
        var w :| WalkLabel(q, row2, s, w) && w.from in walking;
        assert SameRide(row2[w.from], row1[w.from]);
        var ride :| RideLabel(q, prev, w.from, row1[w.from], ride);
        assert Recordable(q, RideEnd(q, ride));
        WalkCosts(q, w, row1[w.from].time);
      } else if s in updated {
        var ride :| RideLabel(q, prev, s, row1[s], ride);
        assert Recordable(q, RideEnd(q, ride));
      }
    }
  }

  /** Labels written in a round beat everything known before it. */
  lemma RoundImproves(q: Query, prev: Row, row0: Row, best0: seq<RTime>, row1: Row, best1: seq<RTime>, updated: set<nat>,
                      walking: set<nat>, row2: Row, best2: seq<RTime>, s: nat)
    requires Rode(q, prev, row0, best0, row1, best1, updated) && Unwalked(row0)
    requires walking <= updated && Walked(q, walking, row1, best1, row2, best2)
    requires s < |row2|
    ensures Cost(q, best2[s]) <= Cost(q, best0[s])
    ensures row2[s].walkTime != UNREACHED ==> row2[s].walkTime == best2[s] && Cost(q, best2[s]) < Cost(q, best0[s])
    ensures walking == updated && best2[s] != best0[s] ==> row2[s].walkTime == best2[s]
  {}

  /** The tables after round k: its row is replaced, and after round 0 the row that
      held the initial state is cleared. */
  predicate RowReplaced(rows: seq<Row>, k: nat, row: Row, rows': seq<Row>) {
    && k < |rows| == |rows'| == MAX_ROUNDS && rows'[k] == row
    && (forall i | 0 <= i < MAX_ROUNDS && i != k && (k > 0 || i != 1) :: rows'[i] == rows[i])
    && (k == 0 ==> |rows'[1]| == |rows[1]| && Unwalked(rows'[1]))
  }

  lemma RoundTraced(q: Query, k: nat, rows: seq<Row>, best0: seq<RTime>, row1: Row, best1: seq<RTime>, updated: set<nat>,
                    walking: set<nat>, row2: Row, best2: seq<RTime>, rows': seq<Row>)
    requires k < MAX_ROUNDS == |rows| && Traced(q, k, rows)
    requires Rode(q, LastRow(rows, k), rows[k], best0, row1, best1, updated)
    requires walking <= updated && forall s | s in walking :: !Banned(q, s)
    requires Walked(q, walking, row1, best1, row2, best2)
    requires RowReplaced(rows, k, row2, rows')
    ensures Traced(q, k + 1, rows')
  {
    hide RowSound, Rode, Walked, WellFormed;
    RoundSound(q, rows[..k], LastRow(rows, k), rows[k], best0, row1, best1, updated, walking, row2, best2);
    assert rows'[..k + 1] == rows[..k] + [row2];
    forall i | 0 <= i < k ensures RowSound(q, rows'[..i + 1], rows'[i]) {
      assert rows'[..i + 1] == rows[..i + 1];
    }
  }

  lemma RoundOrdered(q: Query, k: nat, rows: seq<Row>, best0: seq<RTime>, row1: Row, best1: seq<RTime>, updated: set<nat>,
                     walking: set<nat>, row2: Row, best2: seq<RTime>, rows': seq<Row>)
    requires TableShape(q, rows, best0) && k < MAX_ROUNDS && Ordered(q, k, rows, best0)
    requires LabelsKnown(q, LastRow(rows, k), best0) && Unwalked(rows[k])
    requires Rode(q, LastRow(rows, k), rows[k], best0, row1, best1, updated)
    requires walking == set s | s in updated && !Banned(q, s)
    requires Walked(q, walking, row1, best1, row2, best2)
    requires RowReplaced(rows, k, row2, rows')
    ensures TableShape(q, rows', best2) && Ordered(q, k + 1, rows', best2)
    ensures RoundBetter(q, best0, row2, best2)
  {
    hide Rode, Walked, LabelsKnown, WellFormed, WithinDays;
    var prev := LastRow(rows, k);
    RoundShapes(q, prev, rows[k], best0, row1, best1, updated, walking, row2, best2);
    OriginStays(q, prev, rows[k], best0, row1, best1, updated);
    RoundWithinDays(q, prev, rows[k], best0, row1, best1, updated, walking, row2, best2);
    OriginUntouched(q, prev, rows[k], best0, row1, best1, updated, walking, row2, best2);
    forall s | 0 <= s < |row2|
      ensures Cost(q, best2[s]) <= Cost(q, best0[s])
      ensures row2[s].walkTime != UNREACHED ==> row2[s].walkTime == best2[s] && Cost(q, best2[s]) < Cost(q, best0[s])
      ensures q.req.nBannedStops == 0 && best2[s] != best0[s] ==> row2[s].walkTime == best2[s]
    {
      assert q.req.nBannedStops == 0 ==> walking == updated;
      RoundImproves(q, prev, rows[k], best0, row1, best1, updated, walking, row2, best2, s);
    }
  }

  /** Best times only improve, and the labels of the round are improvements. */
  predicate RoundBetter(q: Query, best0: seq<RTime>, row: Row, best: seq<RTime>) {
    && |best0| == |row| == |best|
    && NoWorse(q, best0, best)
    && (forall s | 0 <= s < |row| && row[s].walkTime != UNREACHED :: row[s].walkTime == best[s] && Cost(q, best[s]) < Cost(q, best0[s]))
    && (q.req.nBannedStops == 0 ==> forall s | 0 <= s < |row| && best[s] != best0[s] :: row[s].walkTime == best[s])
  }

  lemma RoundSettled(q: Query, k: nat, rows: seq<Row>, best0: seq<RTime>, row1: Row, best1: seq<RTime>, updated: set<nat>,
                     walking: set<nat>, row2: Row, best2: seq<RTime>, rows': seq<Row>)
    requires Settled(q, k, rows, best0) && k < MAX_ROUNDS
    requires Rode(q, LastRow(rows, k), rows[k], best0, row1, best1, updated)
    requires walking == set s | s in updated && !Banned(q, s)
    requires Walked(q, walking, row1, best1, row2, best2)
    requires RowReplaced(rows, k, row2, rows')
    ensures Settled(q, k + 1, rows', best2)
    ensures RoundBetter(q, best0, row2, best2)
  {
    hide RowSound, Rode, Walked, LabelsKnown, WellFormed, RoundBetter;
    SoundLabelsKnown(q, rows[..k], LastRow(rows, k), best0);
    RoundTraced(q, k, rows, best0, row1, best1, updated, walking, row2, best2, rows');
    RoundOrdered(q, k, rows, best0, row1, best1, updated, walking, row2, best2, rows');
  }

  lemma RoundShapes(q: Query, prev: Row, row0: Row, best0: seq<RTime>, row1: Row, best1: seq<RTime>, updated: set<nat>,
                    walking: set<nat>, row2: Row, best2: seq<RTime>)
    requires Rode(q, prev, row0, best0, row1, best1, updated)
    requires Walked(q, walking, row1, best1, row2, best2)
    ensures |prev| == |row0| == |best0| == |row2| == |best2| == |q.td.stops|
  {}

  /** A round leaves the origin's best time and ride time alone. */
  lemma OriginUntouched(q: Query, prev: Row, row0: Row, best0: seq<RTime>, row1: Row, best1: seq<RTime>, updated: set<nat>,
                        walking: set<nat>, row2: Row, best2: seq<RTime>)
    requires Rode(q, prev, row0, best0, row1, best1, updated) && Origin(q.req) !in updated
    requires walking <= updated && Walked(q, walking, row1, best1, row2, best2)
    requires best0[Origin(q.req)] == q.req.time && (updated != {} ==> q.req.time != UNREACHED)
    requires WithinDays(q, best2)
    ensures best2[Origin(q.req)] == q.req.time
    ensures row2[Origin(q.req)].time == row0[Origin(q.req)].time
  {
    hide WellFormed, RideLabel, WalkLabel;
  }

  /** Without banned stops, a round attains every best time it improves. */
  lemma RoundAttained(q: Query, k: nat, rows: seq<Row>, best0: seq<RTime>, row1: Row, best1: seq<RTime>, updated: set<nat>,
                      row2: Row, best2: seq<RTime>)
    requires Attained(q, k, best0) && |rows| == k
    requires RowSound(q, rows + [row2], row2)
    requires |best0| == |best1| && |best0| == |row1|
    requires forall s | 0 <= s < |best1| ::
               if s in updated then row1[s].time == best1[s] != UNREACHED else best1[s] == best0[s]
    requires Walked(q, updated, row1, best1, row2, best2)
    ensures Attained(q, k + 1, best2)
  {
    hide Feasible, WellFormed, Decodes, RideLabel, WalkLabel;
    var n := k + 1;
    forall s | 0 <= s < |best2| && best2[s] != UNREACHED
      ensures exists j :: Reaches(q, n, s, best2[s], j)
    {
      if Touched(updated, row1, best1, best2, s) {
        var j :| Explains(q, rows + [row2], s, row2[s].walkTime, j);
        DecodedRides(q, rows + [row2], s, j);
        assert Reaches(q, n, s, best2[s], j);
      } else {
        var j :| Reaches(q, k, s, best0[s], j);
        assert Reaches(q, n, s, best2[s], j);
      }
    }
  }

  /* ----- the initial state ----- */

  /** Row 1 after walking out of the origin holds exactly the first walks. */
  lemma InitialTraced(q: Query, walking: set<nat>, row0: Row, best0: seq<RTime>, row1: Row, best1: seq<RTime>)
    requires Walked(q, walking, row0, best0, row1, best1) && Unwalked(row0)
    requires walking <= {Origin(q.req)} && forall s | s in walking :: !Banned(q, s)
    requires row0[Origin(q.req)].time == q.req.time
    ensures RowSound(q, [], row1)
    ensures forall s | 0 <= s < |row1| && row1[s].walkTime != UNREACHED :: row1[s].walkTime == best1[s]
  {
    hide WellFormed;
    forall s | 0 <= s < |row1| && row1[s].walkTime != UNREACHED
      ensures exists j :: Explains(q, [], s, row1[s].walkTime, j)
    {
      assert Touched(walking, row0, best0, best1, s);
      var w :| WalkLabel(q, row1, s, w) && w.from in walking;
      assert SameRide(row1[w.from], row0[w.from]);
      assert Explains(q, [], s, row1[s].walkTime, Access(w));
    }
  }

  /** The first walks lead only to the origin and its footpath targets. */
  lemma InitialReach(q: Query, row: Row, s: nat)
    requires RowSound(q, [], row) && s < |row| && row[s].walkTime != UNREACHED
    ensures s == Origin(q.req) ||
            exists i: nat :: HasFootpath(q, Origin(q.req), i) && PathTarget(q, Origin(q.req), i) == s
  {
    var j :| Explains(q, [], s, row[s].walkTime, j);
    if j.walk.Foot? {
      assert HasFootpath(q, Origin(q.req), j.walk.path);
    }
  }

  /** Clearing the origin and its footpath targets clears the initial state. */
  lemma InitialCleared(q: Query, row: Row, row': Row)
    requires RowSound(q, [], row) && |row'| == |row|
    requires forall s | 0 <= s < |row| ::
               if s == Origin(q.req) || exists i: nat :: HasFootpath(q, Origin(q.req), i) && PathTarget(q, Origin(q.req), i) == s
               then row'[s] == row[s].(walkTime := UNREACHED)
               else row'[s] == row[s]
    ensures Unwalked(row')
  {
    hide RowSound, WellFormed;
    forall s | 0 <= s < |row| && row[s].walkTime != UNREACHED
      ensures s == Origin(q.req) || exists i: nat :: HasFootpath(q, Origin(q.req), i) && PathTarget(q, Origin(q.req), i) == s
    {
      InitialReach(q, row, s);
    }
  }

  lemma BetweenKnown(q: Query, k: nat, rows: seq<Row>, best: seq<RTime>)
    requires Settled(q, k, rows, best)
    ensures LabelsKnown(q, LastRow(rows, k), best)
    ensures k == 0 ==> RowSound(q, [], rows[1])
    ensures forall s | k < MAX_ROUNDS && 0 <= s < |rows[k]| :: rows[k][s].walkTime == UNREACHED
  {
    SoundLabelsKnown(q, rows[..k], LastRow(rows, k), best);
    assert k == 0 ==> rows[..k] == [];
  }
}
