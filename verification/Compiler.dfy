/** Grouping the trips of a feed: trips with the same stops share a bundle, and
    trips with the same relative times share a time demand group. */
module TripBundles {
  type TripId = string

  datatype StopRow = StopRow(arrival: int, departure: int, stop: nat, pickup: int, dropOff: int, timepoint: int)

  /** A trip of the feed with its stop times in order. */
  datatype FeedTrip = FeedTrip(id: TripId, route: string, rows: seq<StopRow>)

  /** Drive and dwell times relative to the trip's first arrival. */
  datatype Group = Group(drive: seq<int>, dwell: seq<int>)

  /** What the trips of one bundle have in common. */
  datatype Pattern = Pattern(stops: seq<nat>, pickups: seq<int>, dropOffs: seq<int>, timepoints: seq<int>, route: string)

  function BeginOf(trip: FeedTrip): int
    requires trip.rows != []
  { trip.rows[0].arrival }

  function GroupOf(trip: FeedTrip): Group
    requires trip.rows != []
  {
    Group(seq(|trip.rows|, i requires 0 <= i < |trip.rows| => trip.rows[i].arrival - trip.rows[0].arrival),
          seq(|trip.rows|, i requires 0 <= i < |trip.rows| => trip.rows[i].departure - trip.rows[i].arrival))
  }

  /** The first stop always counts as a timepoint. */
  function PatternOf(trip: FeedTrip): Pattern {
    var n := |trip.rows|;
    Pattern(seq(n, i requires 0 <= i < n => trip.rows[i].stop),
            seq(n, i requires 0 <= i < n => trip.rows[i].pickup),
            seq(n, i requires 0 <= i < n => trip.rows[i].dropOff),
            seq(n, i requires 0 <= i < n => if i == 0 then 1 else trip.rows[i].timepoint),
            trip.route)
  }

  /** The trip calls at the pattern's stops, in order, with its kinds of stopping. */
  predicate CallsAt(trip: FeedTrip, pattern: Pattern) {
    && |pattern.stops| == |pattern.pickups| == |pattern.dropOffs| == |pattern.timepoints| == |trip.rows|
    && pattern.route == trip.route
    && forall p | 0 <= p < |trip.rows| ::
         && pattern.stops[p] == trip.rows[p].stop
         && pattern.pickups[p] == trip.rows[p].pickup && pattern.dropOffs[p] == trip.rows[p].dropOff
         && (p > 0 ==> pattern.timepoints[p] == trip.rows[p].timepoint) && (p == 0 ==> pattern.timepoints[p] == 1)
  }

  lemma PatternMeans(trip: FeedTrip, pattern: Pattern)
    ensures PatternOf(trip) == pattern <==> CallsAt(trip, pattern)
  {
    if CallsAt(trip, pattern) {
      var own := PatternOf(trip);
      assert own.stops == pattern.stops && own.pickups == pattern.pickups;
      assert own.dropOffs == pattern.dropOffs && own.timepoints == pattern.timepoints;
    }
  }

  predicate IsFeed(trips: seq<FeedTrip>) {
    && (forall i | 0 <= i < |trips| :: trips[i].rows != [])
    && (forall i, k | 0 <= i < k < |trips| :: trips[i].id != trips[k].id)
  }

  /** The ids of the trips with a given pattern, in feed order. */
  function IdsWith(trips: seq<FeedTrip>, pattern: Pattern): seq<TripId> {
    if trips == [] then []
    else
      var last := trips[|trips| - 1];
      IdsWith(trips[..|trips| - 1], pattern) + if PatternOf(last) == pattern then [last.id] else []
  }

  /** The times of a trip, rebuilt from its group and begin time, are its own. */
  predicate Rebuilds(trip: FeedTrip, begin: int, group: Group) {
    && |group.drive| == |group.dwell| == |trip.rows|
    && (trip.rows != [] ==> begin == BeginOf(trip))
    && forall i | 0 <= i < |trip.rows| ::
         && begin + group.drive[i] == trip.rows[i].arrival
         && begin + group.drive[i] + group.dwell[i] == trip.rows[i].departure
  }

  class GtfsDatabase {
    // Time demand groups by id, which is the position.
    var groups: seq<Group>
    var groupForTrip: map<TripId, nat>
    var beginTimes: map<TripId, int>

    constructor ()
      ensures groups == [] && groupForTrip == map[] && beginTimes == map[]
    {
      groups, groupForTrip, beginTimes := [], map[], map[];
    }

    /** The trip's begin time and group are on record and give its times back. */
    predicate Stores(trip: FeedTrip)
      reads this
    {
      && trip.id in groupForTrip && trip.id in beginTimes && groupForTrip[trip.id] < |groups|
      && Rebuilds(trip, beginTimes[trip.id], groups[groupForTrip[trip.id]])
    }

    /** A trip with at least one stop is on record. */
    predicate Knows(id: TripId)
      reads this
    {
      && id in groupForTrip && id in beginTimes && groupForTrip[id] < |groups|
      && groups[groupForTrip[id]].drive != []
    }

    function LastArrival(id: TripId): int
      requires Knows(id)
      reads this
    {
      var drive := groups[groupForTrip[id]].drive;
      beginTimes[id] + drive[|drive| - 1]
    }

    /** The group with these times, adding it if no trip had it yet. */
    method FindOrAddGroup(signature: Group, ids: map<Group, nat>) returns (group: nat, ids': map<Group, nat>)
      requires Numbered(groups, ids)
      modifies this`groups
      ensures Numbered(groups, ids') && old(groups) <= groups
      ensures group < |groups| && groups[group] == signature
      ensures forall g | g in groups :: g in old(groups) || g == signature
    {
      ids' := ids;
      if signature in ids {
        group := ids[signature];
      } else {
        group := |groups|;
        groups := groups + [signature];
        ids' := ids[signature := group];
      }
    }

    /** Put one trip's begin time and group on record. */
    method StoreTrip(trip: FeedTrip, ids: map<Group, nat>) returns (ids': map<Group, nat>)
      requires trip.rows != [] && Numbered(groups, ids)
      modifies this
      ensures Numbered(groups, ids') && Stores(trip)
      ensures forall g | g in groups :: g in old(groups) || g == GroupOf(trip)
      ensures forall t: FeedTrip | t.id != trip.id && old(Stores(t)) :: Stores(t)
    {
      beginTimes := beginTimes[trip.id := BeginOf(trip)];
      var group;
      group, ids' := FindOrAddGroup(GroupOf(trip), ids);
      groupForTrip := groupForTrip[trip.id := group];
    }

    /** Factor every trip into begin time and group, and collect it in the bundle
        of its pattern.  Nothing is lost, and no group is stored twice. */
    method CompileTripBundles(trips: seq<FeedTrip>) returns (bundles: map<Pattern, seq<TripId>>)
      requires IsFeed(trips) && groups == [] && groupForTrip == map[] && beginTimes == map[]
      modifies this
      ensures forall i | 0 <= i < |trips| :: Stores(trips[i])
      ensures forall i, k | 0 <= i < k < |groups| :: groups[i] != groups[k]
      ensures forall g | g in groups :: |g.drive| == |g.dwell|
      ensures forall i | 0 <= i < |trips| :: PatternOf(trips[i]) in bundles
      ensures forall pattern | pattern in bundles :: bundles[pattern] == IdsWith(trips, pattern)
    {
      hide PatternOf, GroupOf, Rebuilds;
      bundles := map[];
      var ids: map<Group, nat> := map[];
      for i := 0 to |trips|
        invariant Numbered(groups, ids) && forall g | g in groups :: |g.drive| == |g.dwell|
        invariant forall k | 0 <= k < i :: Stores(trips[k])
        invariant Bundled(trips[..i], bundles)
      {
        var trip := trips[i];
        ids := StoreTrip(trip, ids);
        SameLengths(trip);
        var pattern := PatternOf(trip);
        BundleStep(trips, i, bundles);
        if pattern !in bundles {
          bundles := bundles[pattern := []];
        }
        bundles := bundles[pattern := bundles[pattern] + [trip.id]];
      }
      assert trips[..|trips|] == trips;
    }
  }

  lemma SameLengths(trip: FeedTrip)
    requires trip.rows != []
    ensures |GroupOf(trip).drive| == |GroupOf(trip).dwell|
  {}

  /** Every group has its position as its number. */
  predicate Numbered(groups: seq<Group>, ids: map<Group, nat>) {
    && (forall g | g in ids :: ids[g] < |groups| && groups[ids[g]] == g)
    && (forall k | 0 <= k < |groups| :: groups[k] in ids && ids[groups[k]] == k)
  }

  /** The bundles of the given trips: each holds the ids with its pattern. */
  predicate Bundled(trips: seq<FeedTrip>, bundles: map<Pattern, seq<TripId>>) {
    && (forall k | 0 <= k < |trips| :: PatternOf(trips[k]) in bundles)
    && (forall pattern | pattern in bundles :: bundles[pattern] == IdsWith(trips, pattern))
  }

  lemma BundleStep(trips: seq<FeedTrip>, i: nat, bundles: map<Pattern, seq<TripId>>)
    requires i < |trips| && Bundled(trips[..i], bundles)
    ensures var pattern := PatternOf(trips[i]);
            Bundled(trips[..i + 1], bundles[pattern := (if pattern in bundles then bundles[pattern] else []) + [trips[i].id]])
  {
    hide PatternOf;
    var pattern := PatternOf(trips[i]);
    assert trips[..i + 1][..i] == trips[..i];
    if pattern !in bundles {
      NotBundled(trips[..i], pattern);
    }
  }

  lemma {:induction false} NotBundled(trips: seq<FeedTrip>, pattern: Pattern)
    requires forall k | 0 <= k < |trips| :: PatternOf(trips[k]) != pattern
    ensures IdsWith(trips, pattern) == []
  {
    if trips == [] {
    } else {
      NotBundled(trips[..|trips| - 1], pattern);
    }
  }

  lemma LastId(trips: seq<FeedTrip>, pattern: Pattern)
    requires trips != []
    ensures var n := |trips| - 1;
            multiset(IdsWith(trips, pattern))
            == multiset(IdsWith(trips[..n], pattern)) + multiset(if PatternOf(trips[n]) == pattern then [trips[n].id] else [])
  {
    hide PatternOf;
  }

  /** A trip's id is in the bundle of its own pattern, exactly once, and in no
      other: the bundles partition the feed. */
  lemma {:induction false} InOneBundle(trips: seq<FeedTrip>, i: nat, pattern: Pattern)
    requires IsFeed(trips) && i < |trips|
    ensures multiset(IdsWith(trips, pattern))[trips[i].id] == if PatternOf(trips[i]) == pattern then 1 else 0
    ensures trips[i].id in IdsWith(trips, pattern) <==> CallsAt(trips[i], pattern)
  {
    hide PatternOf, IdsWith, CallsAt;
    PatternMeans(trips[i], pattern);
    var n := |trips| - 1;
    var before, last := trips[..n], trips[n];
    LastId(trips, pattern);
    if i < n {
      InOneBundle(before, i, pattern);
    } else {
      NotYetBundled(before, last.id, pattern);
    }
  }

  lemma {:induction false} NotYetBundled(trips: seq<FeedTrip>, id: TripId, pattern: Pattern)
    requires forall i | 0 <= i < |trips| :: trips[i].id != id
    ensures id !in IdsWith(trips, pattern)
  {
    if trips == [] {
    } else {
      NotYetBundled(trips[..|trips| - 1], id, pattern);
    }
  }

  /** Each of the two ids stands in the list, the first one before the second. */
  predicate Precedes(ids: seq<TripId>, a: TripId, b: TripId) {
    exists i, k :: 0 <= i < k < |ids| && ids[i] == a && ids[k] == b
  }

  function IdsOf(trips: seq<FeedTrip>): (ids: seq<TripId>)
    ensures |ids| == |trips| && forall i | 0 <= i < |trips| :: ids[i] == trips[i].id
  { seq(|trips|, i requires 0 <= i < |trips| => trips[i].id) }

  /** Bundles list their trips in feed order. */
  lemma {:induction false} BundlesInOrder(trips: seq<FeedTrip>, pattern: Pattern, a: nat, b: nat)
    requires a < b < |IdsWith(trips, pattern)|
    ensures Precedes(IdsOf(trips), IdsWith(trips, pattern)[a], IdsWith(trips, pattern)[b])
  {
    hide PatternOf;
    var n, ids := |trips| - 1, IdsWith(trips, pattern);
    var before := IdsWith(trips[..n], pattern);
    if b < |before| {
      BundlesInOrder(trips[..n], pattern, a, b);
      var i, k :| 0 <= i < k < n && IdsOf(trips[..n])[i] == before[a] && IdsOf(trips[..n])[k] == before[b];
      assert IdsOf(trips)[i] == ids[a] && IdsOf(trips)[k] == ids[b];
    } else {
      BundledIsTrip(trips[..n], pattern, a);
      var i :| 0 <= i < n && trips[..n][i].id == before[a];
      assert IdsOf(trips)[i] == ids[a] && IdsOf(trips)[n] == ids[b];
    }
  }

  lemma {:induction false} BundledIsTrip(trips: seq<FeedTrip>, pattern: Pattern, a: nat)
    requires a < |IdsWith(trips, pattern)|
    ensures exists i :: 0 <= i < |trips| && trips[i].id == IdsWith(trips, pattern)[a]
  {
    hide PatternOf;
    var n := |trips| - 1;
    if a < |IdsWith(trips[..n], pattern)| {
      BundledIsTrip(trips[..n], pattern, a);
      var i :| 0 <= i < n && trips[..n][i].id == IdsWith(trips[..n], pattern)[a];
      assert trips[i].id == IdsWith(trips, pattern)[a];
    } else {
      assert trips[n].id == IdsWith(trips, pattern)[a];
    }
  }
}
