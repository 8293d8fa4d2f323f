/** The search for the best trip to board at one stop of a route. */
module Boardings {
  import opened Rtime
  import opened Timetables
  import opened Journeys
  import opened Ideals

  /** Trip t on day d can be boarded at position p by someone there at `prev`. */
  predicate Choice(q: Query, r: nat, p: nat, prev: RTime, t: nat, d: nat) {
    && HasTrip(q, r, t, d) && HasStop(q, r, p) && TripAllowed(q, r, t, d)
    && Boardable(q, BoardTime(q, r, t, d, p))
    && Cost(q, prev) <= Cost(q, BoardTime(q, r, t, d, p))
  }

  /** A trip chosen for boarding, or trip NONE. */
  datatype Choosing = Choosing(trip: nat, time: RTime, day: nat)

  /** The choice is a possible one. */
  predicate Chosen(q: Query, r: nat, p: nat, prev: RTime, c: Choosing) {
    if c.trip == NONE then c.time == if q.req.arriveBy then 0 else UNREACHED
    else Choice(q, r, p, prev, c.trip, c.day) && c.time == BoardTime(q, r, c.trip, c.day, p)
  }

  /** No possible choice among the days and trips listed before (t, d) is better. */
  ghost predicate BestBefore(q: Query, r: nat, p: nat, prev: RTime, c: Choosing, t: nat, d: nat) {
    forall t': nat, d': nat | Choice(q, r, p, prev, t', d') && (d' < d || (d' == d && t' < t)) ::
      c.trip != NONE && Cost(q, c.time) <= Cost(q, BoardTime(q, r, t', d', p))
  }

  predicate DaySkipped(q: Query, r: nat, prev: RTime, d: nat)
    requires Valid(q) && r < |q.td.routes| && d < 3
  {
    if q.req.arriveBy then prev < q.days[d].midnight + q.td.routes[r].minTime
    else prev > q.days[d].midnight + q.td.routes[r].maxTime
  }

  predicate DaysOverlap(q: Query, r: nat)
    requires Valid(q) && r < |q.td.routes|
  {
    q.td.routes[r].minTime as int < q.td.routes[r].maxTime - ONE_DAY
  }

  /** A day is only skipped when it offers no choice. */
  lemma SkippedDayOffersNothing(q: Query, r: nat, p: nat, prev: RTime, t: nat, d: nat)
    requires HasTrip(q, r, t, d) && RouteAllowed(q, r) && Bounded(q, r) && DaySkipped(q, r, prev, d)
    requires prev != UNREACHED
    ensures !Choice(q, r, p, prev, t, d)
  {
    if Choice(q, r, p, prev, t, d) {
      assert Usable(q, r, t, d);
    }
  }

  /** When the days of a route do not overlap, the first day with a choice is best. */
  lemma FirstDayIsBest(q: Query, r: nat, p: nat, prev: RTime, c: Choosing, d: nat)
    requires Valid(q) && r < |q.td.routes| && RouteAllowed(q, r) && Bounded(q, r) && !DaysOverlap(q, r)
    requires c.trip != NONE && c.day < d && Chosen(q, r, p, prev, c) && BestBefore(q, r, p, prev, c, 0, d)
    ensures BestBefore(q, r, p, prev, c, 0, 3)
  {
    forall t': nat, d': nat | Choice(q, r, p, prev, t', d') && d <= d' < 3
      ensures Cost(q, c.time) <= Cost(q, BoardTime(q, r, t', d', p))
    {
      assert Usable(q, r, t', d') && Usable(q, r, c.trip, c.day);
    }
  }

  lemma TripCount(q: Query, r: nat)
    requires Valid(q) && r < |q.td.routes|
    ensures |q.td.routes[r].trips| < NONE
  {
    assert RouteInBounds(q.td, q.td.routes[r]);
  }

  /** Scan the service days and trips for the best one to board at position p.
      Pruning by the route's time bounds does not change the answer. */
  method FindTrip(q: Query, r: nat, p: nat, prev: RTime) returns (c: Choosing)
    requires HasStop(q, r, p) && RouteAllowed(q, r) && prev != UNREACHED
    ensures Chosen(q, r, p, prev, c)
    ensures Bounded(q, r) ==> BestBefore(q, r, p, prev, c, 0, 3)
  {
    hide Bounded, WellFormed, DaySkipped, DaysOverlap, TripRuns, StopTimeOn;
    var route := q.td.routes[r];
    TripCount(q, r);
    c := Choosing(NONE, if q.req.arriveBy then 0 else UNREACHED, 0);
    for d := 0 to 3
      invariant Chosen(q, r, p, prev, c) && (c.trip != NONE ==> c.day < d)
      invariant Bounded(q, r) ==> BestBefore(q, r, p, prev, c, 0, d)
    {
      if DaySkipped(q, r, prev, d) {
        if Bounded(q, r) {
          forall t | HasTrip(q, r, t, d) ensures !Choice(q, r, p, prev, t, d) {
            SkippedDayOffersNothing(q, r, p, prev, t, d);
          }
        }
        continue;
      }
      if c.trip != NONE && !DaysOverlap(q, r) {
        if Bounded(q, r) {
          FirstDayIsBest(q, r, p, prev, c, d);
        }
        return;
      }
      for t := 0 to |route.trips|
        invariant Chosen(q, r, p, prev, c) && (c.trip != NONE ==> c.day <= d)
        invariant Bounded(q, r) ==> BestBefore(q, r, p, prev, c, t, d)
      {
        if !TripAllowed(q, r, t, d) { continue; }
        var time := BoardTime(q, r, t, d, p);
        if time == UNREACHED { continue; }
        if (if q.req.arriveBy then time <= prev else time >= prev) && Better(q, time, c.time) {
          c := Choosing(t, time, d);
        }
      }
    }
  }

  /** All exhaustive answers agree on whether a trip can be boarded and when. */
  lemma BestChoiceIsUnique(q: Query, r: nat, p: nat, prev: RTime, a: Choosing, b: Choosing)
    requires Chosen(q, r, p, prev, a) && BestBefore(q, r, p, prev, a, 0, 3)
    requires Chosen(q, r, p, prev, b) && BestBefore(q, r, p, prev, b, 0, 3)
    ensures a.time == b.time && (a.trip == NONE <==> b.trip == NONE)
  {}
}
