/** Compiling a whole feed: from its trips to the tables of the timetable file, and
    what the router may rely on when it loads them. */
module CompiledTimetables {
  import opened Wrappers
  import opened TripBundles
  import opened TimetableWriter
  import Timetables
  import Rtime
  import Journeys
  import Ideals

  /** A route with the trips that run, their days and their time range in units. */
  datatype RouteEntry = RouteEntry(pattern: Pattern, running: seq<TripId>, days: Mask, minTime: int, maxTime: int)

  /** A trip of the file. */
  datatype TripEntry = TripEntry(id: TripId, record: TripRecord, days: Mask)

  datatype Tables = Tables(
    routes: seq<RouteEntry>, trips: seq<seq<TripEntry>>, file: seq<Stored>, stopRoutes: seq<seq<nat>>)

  /* ----- the feed behind the tables ----- */

  predicate IsTrip(trips: seq<FeedTrip>, id: TripId) { exists i :: 0 <= i < |trips| && trips[i].id == id }

  ghost function TripOf(trips: seq<FeedTrip>, id: TripId): (trip: FeedTrip)
    requires IsTrip(trips, id)
    ensures trip in trips && trip.id == id
  {
    var i :| 0 <= i < |trips| && trips[i].id == id;
    trips[i]
  }

  lemma TripOfIs(trips: seq<FeedTrip>, i: nat)
    requires IsFeed(trips) && i < |trips|
    ensures IsTrip(trips, trips[i].id) && TripOf(trips, trips[i].id) == trips[i]
  {
    assert IsTrip(trips, trips[i].id);
  }

  lemma {:induction false} BundleMembers(trips: seq<FeedTrip>, pattern: Pattern, id: TripId)
    requires IsFeed(trips)
    ensures id in IdsWith(trips, pattern) <==> IsTrip(trips, id) && PatternOf(TripOf(trips, id)) == pattern
  {
    hide PatternOf;
    if IsTrip(trips, id) {
      var i :| 0 <= i < |trips| && trips[i].id == id;
      TripOfIs(trips, i);
      InOneBundle(trips, i, pattern);
    } else {
      NotYetBundled(trips, id, pattern);
    }
  }

  lemma {:induction false} RunningMembers(masks: map<TripId, Mask>, ids: seq<TripId>, id: TripId)
    ensures id in Running(masks, ids) <==> id in ids && Runs(masks, id)
  {
    if ids == [] {
    } else {
      RunningMembers(masks, ids[..|ids| - 1], id);
      assert ids == ids[..|ids| - 1] + [ids[|ids| - 1]];
    }
  }

  /** The trip calls at the stops of this pattern and runs. */
  ghost predicate BelongsTo(trips: seq<FeedTrip>, masks: map<TripId, Mask>, pattern: Pattern, id: TripId) {
    IsTrip(trips, id) && TripOf(trips, id).rows != [] && PatternOf(TripOf(trips, id)) == pattern && Runs(masks, id)
  }

  lemma RouteMembers(trips: seq<FeedTrip>, masks: map<TripId, Mask>, pattern: Pattern, id: TripId)
    requires IsFeed(trips)
    ensures id in Running(masks, IdsWith(trips, pattern)) <==> BelongsTo(trips, masks, pattern, id)
  {
    hide PatternOf, IdsWith;
    RunningMembers(masks, IdsWith(trips, pattern), id);
    BundleMembers(trips, pattern, id);
  }

  /* ----- selecting the routes ----- */

  /** A route lists exactly the running trips of its pattern, is active on exactly
      their days, and its range is the least around their begins and final arrivals. */
  ghost predicate RouteOk(trips: seq<FeedTrip>, masks: map<TripId, Mask>, e: RouteEntry) {
    && e.running != []
    && (forall id :: id in e.running <==> BelongsTo(trips, masks, e.pattern, id))
    && (forall day :: day in e.days <==> exists id :: id in e.running && id in masks && day in masks[id])
    && (forall id | BelongsTo(trips, masks, e.pattern, id) :: masks[id] <= e.days)
    && UnitsOf(trips, masks, e.pattern, e.minTime, e.maxTime)
  }

  /** The least range, in units, around the trips of a pattern. */
  ghost predicate UnitsOf(trips: seq<FeedTrip>, masks: map<TripId, Mask>, pattern: Pattern, minTime: int, maxTime: int) {
    && (forall id | BelongsTo(trips, masks, pattern, id) ::
          minTime <= BeginOf(TripOf(trips, id)) / 4 && EndOf(TripOf(trips, id)) / 4 <= maxTime)
    && (minTime == 24_999_999 || exists id :: BelongsTo(trips, masks, pattern, id) && BeginOf(TripOf(trips, id)) / 4 == minTime)
    && (maxTime == 0 || exists id :: BelongsTo(trips, masks, pattern, id) && EndOf(TripOf(trips, id)) / 4 == maxTime)
  }

  ghost predicate OnRecord(db: GtfsDatabase, trips: seq<FeedTrip>)
    reads db
  {
    IsFeed(trips) && forall i | 0 <= i < |trips| :: db.Stores(trips[i])
  }

  /** What the database knows of a trip of the feed. */
  lemma Recalled(db: GtfsDatabase, trips: seq<FeedTrip>, id: TripId)
    requires OnRecord(db, trips) && IsTrip(trips, id)
    ensures db.Knows(id) && TripOf(trips, id).rows != []
    ensures db.beginTimes[id] == BeginOf(TripOf(trips, id)) && db.LastArrival(id) == EndOf(TripOf(trips, id))
    ensures db.groups[db.groupForTrip[id]] == GroupOf(TripOf(trips, id))
  {
    var i :| 0 <= i < |trips| && trips[i].id == id;
    TripOfIs(trips, i);
    assert db.Stores(trips[i]);
    assert db.groups[db.groupForTrip[id]] == GroupOf(trips[i]);
  }

  /** The entry of one bundle, or none if no trip of it runs. */
  method MakeRoute(db: GtfsDatabase, ghost trips: seq<FeedTrip>, masks: map<TripId, Mask>, pattern: Pattern, ids: seq<TripId>)
    returns (e: Option<RouteEntry>)
    requires OnRecord(db, trips) && ids == IdsWith(trips, pattern)
    ensures e.Some? ==> RouteOk(trips, masks, e.value) && e.value.pattern == pattern
    ensures e.None? ==> forall id :: !BelongsTo(trips, masks, pattern, id)
  {
    hide IdsWith, PatternOf, BelongsTo, RouteOk, OnRecord, RangeOf, Running, Runs;
    var running, days := SelectRunning(masks, ids);
    AllMembers(db, trips, masks, pattern, running);
    if days == {} { return None; }
    var minTime, maxTime := FindTimeRange(db, running);
    var entry := RouteEntry(pattern, running, days, minTime / 4, maxTime / 4);
    RangeRecalled(db, trips, masks, pattern, running, minTime, maxTime);
    RouteIsOk(trips, masks, entry, minTime, maxTime);
    e := Some(entry);
  }

  lemma Belonging(trips: seq<FeedTrip>, masks: map<TripId, Mask>, pattern: Pattern, id: TripId)
    requires BelongsTo(trips, masks, pattern, id)
    ensures IsTrip(trips, id) && TripOf(trips, id).rows != [] && id in masks && masks[id] != {}
  {}

  lemma AllMembers(db: GtfsDatabase, trips: seq<FeedTrip>, masks: map<TripId, Mask>, pattern: Pattern, running: seq<TripId>)
    requires OnRecord(db, trips) && running == Running(masks, IdsWith(trips, pattern))
    ensures forall id :: id in running <==> BelongsTo(trips, masks, pattern, id)
    ensures forall i | 0 <= i < |running| :: db.Knows(running[i])
  {
    hide IdsWith, PatternOf, BelongsTo, Running;
    forall id ensures id in running <==> BelongsTo(trips, masks, pattern, id) {
      RouteMembers(trips, masks, pattern, id);
    }
    forall i | 0 <= i < |running| ensures db.Knows(running[i]) {
      assert running[i] in running;
      Belonging(trips, masks, pattern, running[i]);
      Recalled(db, trips, running[i]);
    }
  }

  /** The range in terms of the feed's trips. */
  ghost predicate RangeOf(trips: seq<FeedTrip>, masks: map<TripId, Mask>, pattern: Pattern, minTime: int, maxTime: int) {
    && (forall id | BelongsTo(trips, masks, pattern, id) ::
          minTime <= BeginOf(TripOf(trips, id)) && EndOf(TripOf(trips, id)) <= maxTime)
    && (minTime == 99_999_999 || exists id :: BelongsTo(trips, masks, pattern, id) && BeginOf(TripOf(trips, id)) == minTime)
    && (maxTime == 0 || exists id :: BelongsTo(trips, masks, pattern, id) && EndOf(TripOf(trips, id)) == maxTime)
  }

  lemma RangeRecalled(db: GtfsDatabase, trips: seq<FeedTrip>, masks: map<TripId, Mask>, pattern: Pattern, running: seq<TripId>,
                      minTime: int, maxTime: int)
    requires OnRecord(db, trips) && forall id :: id in running <==> BelongsTo(trips, masks, pattern, id)
    requires forall i | 0 <= i < |running| ::
               db.Knows(running[i]) && minTime <= db.beginTimes[running[i]] && db.LastArrival(running[i]) <= maxTime
    requires minTime == 99_999_999 || exists i :: 0 <= i < |running| && db.Knows(running[i]) && db.beginTimes[running[i]] == minTime
    requires maxTime == 0 || exists i :: 0 <= i < |running| && db.Knows(running[i]) && db.LastArrival(running[i]) == maxTime
    ensures RangeOf(trips, masks, pattern, minTime, maxTime)
  {
    hide PatternOf;
    forall i | 0 <= i < |running|
      ensures BelongsTo(trips, masks, pattern, running[i])
      ensures BeginOf(TripOf(trips, running[i])) == db.beginTimes[running[i]]
      ensures EndOf(TripOf(trips, running[i])) == db.LastArrival(running[i])
    {
      assert running[i] in running;
      Recalled(db, trips, running[i]);
    }
  }

  lemma RouteIsOk(trips: seq<FeedTrip>, masks: map<TripId, Mask>, e: RouteEntry, minTime: int, maxTime: int)
    requires e.running != [] && forall id :: id in e.running <==> BelongsTo(trips, masks, e.pattern, id)
    requires forall day :: day in e.days <==> exists id :: id in e.running && id in masks && day in masks[id]
    requires RangeOf(trips, masks, e.pattern, minTime, maxTime) && e.minTime == minTime / 4 && e.maxTime == maxTime / 4
    ensures RouteOk(trips, masks, e)
  {
    hide PatternOf;
    forall id | BelongsTo(trips, masks, e.pattern, id) ensures id in masks && masks[id] <= e.days {
      assert id in e.running;
    }
    UnitsOfRange(trips, masks, e.pattern, minTime, maxTime);
  }

  lemma UnitsOfRange(trips: seq<FeedTrip>, masks: map<TripId, Mask>, pattern: Pattern, minTime: int, maxTime: int)
    requires RangeOf(trips, masks, pattern, minTime, maxTime)
    ensures UnitsOf(trips, masks, pattern, minTime / 4, maxTime / 4)
  {}

  /** The pattern has a route, or nothing that runs. */
  ghost predicate Listed(trips: seq<FeedTrip>, masks: map<TripId, Mask>, routes: seq<RouteEntry>, pattern: Pattern) {
    (exists r :: 0 <= r < |routes| && routes[r].pattern == pattern) || forall id :: !BelongsTo(trips, masks, pattern, id)
  }

  /** One route for each pattern with running trips, in arbitrary order. */
  method SelectRoutes(db: GtfsDatabase, ghost trips: seq<FeedTrip>, masks: map<TripId, Mask>, bundles: map<Pattern, seq<TripId>>)
    returns (routes: seq<RouteEntry>)
    requires OnRecord(db, trips) && forall pattern | pattern in bundles :: bundles[pattern] == IdsWith(trips, pattern)
    ensures forall r | 0 <= r < |routes| :: RouteOk(trips, masks, routes[r]) && routes[r].pattern in bundles
    ensures forall r, r' | 0 <= r < r' < |routes| :: routes[r].pattern != routes[r'].pattern
    ensures forall pattern | pattern in bundles :: Listed(trips, masks, routes, pattern)
  {
    hide IdsWith, PatternOf, BelongsTo, RouteOk, OnRecord, Listed;
    routes := [];
    var remaining := bundles.Keys;
    while remaining != {}
      invariant remaining <= bundles.Keys
      invariant forall r | 0 <= r < |routes| :: RouteOk(trips, masks, routes[r]) && routes[r].pattern in bundles.Keys - remaining
      invariant forall r, r' | 0 <= r < r' < |routes| :: routes[r].pattern != routes[r'].pattern
      invariant forall pattern | pattern in bundles.Keys - remaining :: Listed(trips, masks, routes, pattern)
      decreases |remaining|
    {
      var pattern :| pattern in remaining;
      var e := MakeRoute(db, trips, masks, pattern, bundles[pattern]);
      ghost var before := routes;
      if e.Some? { routes := routes + [e.value]; }
      OneMoreListed(trips, masks, before, e, pattern);
      forall p | p in bundles.Keys && p !in remaining ensures Listed(trips, masks, routes, p) {
        assert Listed(trips, masks, before, p);
      }
      remaining := remaining - {pattern};
    }
  }

  lemma OneMoreListed(trips: seq<FeedTrip>, masks: map<TripId, Mask>, routes: seq<RouteEntry>, e: Option<RouteEntry>, pattern: Pattern)
    requires e.Some? ==> e.value.pattern == pattern
    requires e.None? ==> forall id :: !BelongsTo(trips, masks, pattern, id)
    ensures var more := if e.Some? then routes + [e.value] else routes;
            Listed(trips, masks, more, pattern)
            && forall p: Pattern | Listed(trips, masks, routes, p) :: Listed(trips, masks, more, p)
  {
    hide BelongsTo;
    var more := if e.Some? then routes + [e.value] else routes;
    assert forall r | 0 <= r < |routes| :: more[r] == routes[r];
    if e.Some? { assert more[|routes|].pattern == pattern; }
  }

  /* ----- writing the trips ----- */

  /** The route's trips in the order of the whole feed. */
  function Among(ordered: seq<TripId>, running: seq<TripId>): (ids: seq<TripId>)
    ensures forall id :: id in ids <==> id in ordered && id in running
  {
    if ordered == [] then []
    else
      var last := ordered[|ordered| - 1];
      Among(ordered[..|ordered| - 1], running) + if last in running then [last] else []
  }

  predicate Distinct(ids: seq<TripId>) { forall i, k | 0 <= i < k < |ids| :: ids[i] != ids[k] }

  lemma {:induction false} AmongDistinct(ordered: seq<TripId>, running: seq<TripId>)
    requires Distinct(ordered)
    ensures Distinct(Among(ordered, running))
  {
    if ordered == [] {
    } else {
      var init, last := ordered[..|ordered| - 1], ordered[|ordered| - 1];
      AmongDistinct(init, running);
      var ids, more := Among(init, running), Among(ordered, running);
      forall i, k | 0 <= i < k < |more| ensures more[i] != more[k] {
        if k == |ids| { assert more[i] in init; }
      }
    }
  }

  /** Trips are written in the order of the database. */
  lemma {:induction false} AmongInOrder(ordered: seq<TripId>, running: seq<TripId>, a: nat, b: nat)
    requires a < b < |Among(ordered, running)|
    ensures Precedes(ordered, Among(ordered, running)[a], Among(ordered, running)[b])
  {
    var init, n := ordered[..|ordered| - 1], |ordered| - 1;
    var before, ids := Among(init, running), Among(ordered, running);
    if b < |before| {
      AmongInOrder(init, running, a, b);
      var i, k :| 0 <= i < k < n && init[i] == before[a] && init[k] == before[b];
      assert ordered[i] == ids[a] && ordered[k] == ids[b];
    } else {
      assert before[a] in init;
      var i :| 0 <= i < n && init[i] == before[a];
      assert ordered[i] == ids[a] && ordered[n] == ids[b];
    }
  }

  /** The trip is written with its own times and days. */
  ghost predicate TripOk(trips: seq<FeedTrip>, masks: map<TripId, Mask>, file: seq<Stored>, pattern: Pattern, entry: TripEntry) {
    && BelongsTo(trips, masks, pattern, entry.id) && entry.days == masks[entry.id]
    && entry.record.begin == BeginOf(TripOf(trips, entry.id)) / 4
    && StoredAt(file, entry.record.offset, GroupOf(TripOf(trips, entry.id)))
  }

  /** Every running trip of the pattern is written, exactly once, and nothing else. */
  ghost predicate EntriesOk(trips: seq<FeedTrip>, masks: map<TripId, Mask>, file: seq<Stored>, pattern: Pattern, entries: seq<TripEntry>) {
    && (forall t | 0 <= t < |entries| :: TripOk(trips, masks, file, pattern, entries[t]))
    && (forall t, t' | 0 <= t < t' < |entries| :: entries[t].id != entries[t'].id)
    && (forall id | BelongsTo(trips, masks, pattern, id) :: exists t :: 0 <= t < |entries| && entries[t].id == id)
  }

  /** Offsets are known for the groups of these trips, and lead to their times. */
  ghost predicate GroupsWritten(db: GtfsDatabase, file: seq<Stored>, offsets: map<nat, nat>, ids: seq<TripId>)
    reads db
  {
    forall i | 0 <= i < |ids| ::
      && db.Knows(ids[i]) && db.groupForTrip[ids[i]] in offsets
      && StoredAt(file, offsets[db.groupForTrip[ids[i]]], db.groups[db.groupForTrip[ids[i]]])
  }

  /** Write the trips of one route, in the order in which the database lists them. */
  method WriteTrips(db: GtfsDatabase, ghost trips: seq<FeedTrip>, masks: map<TripId, Mask>, ordered: seq<TripId>, e: RouteEntry,
                    offsets: map<nat, nat>, ghost file: seq<Stored>) returns (entries: seq<TripEntry>)
    requires OnRecord(db, trips) && RouteOk(trips, masks, e) && GroupsWritten(db, file, offsets, e.running)
    requires Distinct(ordered) && forall id | IsTrip(trips, id) :: id in ordered
    ensures EntriesOk(trips, masks, file, e.pattern, entries)
    ensures |entries| == |Among(ordered, e.running)| && forall t | 0 <= t < |entries| :: entries[t].id == Among(ordered, e.running)[t]
    ensures forall t, t' | 0 <= t < t' < |entries| :: Precedes(ordered, entries[t].id, entries[t'].id)
  {
    hide Precedes, PatternOf, BelongsTo, RouteOk, OnRecord, TripOk, StoredAt, EntriesOk, GroupsWritten, Among;
    var ids := Among(ordered, e.running);
    entries := [];
    for t := 0 to |ids|
      invariant |entries| == t && forall k | 0 <= k < t :: entries[k].id == ids[k] && TripOk(trips, masks, file, e.pattern, entries[k])
    {
      assert ids[t] in ids;
      EntryIsOk(db, trips, masks, e, offsets, file, ids[t]);
      entries := entries + [TripEntry(ids[t], TripRecord(offsets[db.groupForTrip[ids[t]]], db.beginTimes[ids[t]] / 4), masks[ids[t]])];
    }
    AllWritten(trips, masks, file, e, ordered, entries);
    forall t, t' | 0 <= t < t' < |entries| ensures Precedes(ordered, entries[t].id, entries[t'].id) {
      AmongInOrder(ordered, e.running, t, t');
    }
  }

  lemma EntryIsOk(db: GtfsDatabase, trips: seq<FeedTrip>, masks: map<TripId, Mask>, e: RouteEntry, offsets: map<nat, nat>,
                  file: seq<Stored>, id: TripId)
    requires OnRecord(db, trips) && RouteOk(trips, masks, e) && GroupsWritten(db, file, offsets, e.running) && id in e.running
    ensures id in masks && db.Knows(id) && db.groupForTrip[id] in offsets
    ensures TripOk(trips, masks, file, e.pattern,
                   TripEntry(id, TripRecord(offsets[db.groupForTrip[id]], db.beginTimes[id] / 4), masks[id]))
  {
    hide PatternOf, OnRecord, StoredAt;
    assert BelongsTo(trips, masks, e.pattern, id);
    Recalled(db, trips, id);
  }

  lemma AllWritten(trips: seq<FeedTrip>, masks: map<TripId, Mask>, file: seq<Stored>, e: RouteEntry, ordered: seq<TripId>,
                   entries: seq<TripEntry>)
    requires RouteOk(trips, masks, e) && Distinct(ordered) && forall id | IsTrip(trips, id) :: id in ordered
    requires |entries| == |Among(ordered, e.running)|
    requires forall t | 0 <= t < |entries| :: entries[t].id == Among(ordered, e.running)[t] && TripOk(trips, masks, file, e.pattern, entries[t])
    ensures EntriesOk(trips, masks, file, e.pattern, entries)
  {
    hide PatternOf, TripOk;
    var ids := Among(ordered, e.running);
    AmongDistinct(ordered, e.running);
    forall id | BelongsTo(trips, masks, e.pattern, id) ensures exists t :: 0 <= t < |entries| && entries[t].id == id {
      assert id in ids;
      var t :| 0 <= t < |ids| && ids[t] == id;
      assert entries[t].id == id;
    }
  }

  /* ----- the whole compilation ----- */

  /** Every time and every count of a route's stops and trips fits its 16 bits. */
  predicate Packs(tables: Tables) {
    && (forall i | 0 <= i < |tables.file| :: Short(tables.file[i].arrival) && Short(tables.file[i].departure))
    && (forall r | 0 <= r < |tables.routes| ::
          && Short(tables.routes[r].minTime) && Short(tables.routes[r].maxTime)
          && Short(|tables.routes[r].pattern.stops|) && Short(|tables.routes[r].running|))
    && (forall r | 0 <= r < |tables.trips| :: forall t | 0 <= t < |tables.trips[r]| :: Short(tables.trips[r][t].record.begin))
  }

  lemma PacksMeans(tables: Tables)
    ensures Packs(tables) <==>
              && (forall i | 0 <= i < |tables.file| ::
                    0 <= tables.file[i].arrival <= 65_535 && 0 <= tables.file[i].departure <= 65_535)
              && (forall r | 0 <= r < |tables.routes| ::
                    && 0 <= tables.routes[r].minTime <= 65_535 && 0 <= tables.routes[r].maxTime <= 65_535
                    && |tables.routes[r].pattern.stops| <= 65_535 && |tables.routes[r].running| <= 65_535)
              && (forall r, t | 0 <= r < |tables.trips| && 0 <= t < |tables.trips[r]| ::
                    0 <= tables.trips[r][t].record.begin <= 65_535)
  {}

  predicate Short(n: int) { 0 <= n <= 65_535 }

  function StopsOf(routes: seq<RouteEntry>): (stops: seq<seq<nat>>)
    ensures |stops| == |routes| && forall r | 0 <= r < |routes| :: stops[r] == routes[r].pattern.stops
  { seq(|routes|, r requires 0 <= r < |routes| => routes[r].pattern.stops) }

  /** The tables hold the feed: one route for each pattern that runs, with its trips,
      times, days and range; and for every stop its routes. */
  ghost predicate Emitted(trips: seq<FeedTrip>, masks: map<TripId, Mask>, nStops: nat, tables: Tables) {
    && |tables.trips| == |tables.routes|
    && (forall r | 0 <= r < |tables.routes| ::
          && RouteOk(trips, masks, tables.routes[r])
          && EntriesOk(trips, masks, tables.file, tables.routes[r].pattern, tables.trips[r]))
    && (forall r, r' | 0 <= r < r' < |tables.routes| :: tables.routes[r].pattern != tables.routes[r'].pattern)
    && (forall i | 0 <= i < |trips| :: Listed(trips, masks, tables.routes, PatternOf(trips[i])))
    && |tables.stopRoutes| == nStops
    && (forall s | 0 <= s < nStops :: tables.stopRoutes[s] == Calls(StopsOf(tables.routes), s))
  }

  /** Compile a feed.  The database lists all trips by first departure; writing ends
      in an error when a number does not fit. */
  method CompileTimetable(trips: seq<FeedTrip>, masks: map<TripId, Mask>, ordered: seq<TripId>, nStops: nat)
    returns (tables: Tables, ok: bool)
    requires IsFeed(trips) && forall i, p | 0 <= i < |trips| && 0 <= p < |trips[i].rows| :: trips[i].rows[p].stop < nStops
    requires Distinct(ordered) && forall id | IsTrip(trips, id) :: id in ordered
    ensures Emitted(trips, masks, nStops, tables)
    ensures forall r, t | 0 <= r < |tables.routes| && 0 <= t < |tables.trips[r]| ::
              EntryCalls(trips, tables.routes[r].pattern, tables.trips[r][t])
    ensures ok <==>
              && (forall i | 0 <= i < |tables.file| ::
                    0 <= tables.file[i].arrival <= 65_535 && 0 <= tables.file[i].departure <= 65_535)
              && (forall r | 0 <= r < |tables.routes| ::
                    && 0 <= tables.routes[r].minTime <= 65_535 && 0 <= tables.routes[r].maxTime <= 65_535
                    && |tables.routes[r].pattern.stops| <= 65_535 && |tables.routes[r].running| <= 65_535)
              && (forall r, t | 0 <= r < |tables.trips| && 0 <= t < |tables.trips[r]| ::
                    0 <= tables.trips[r][t].record.begin <= 65_535)
  {
    hide EntryCalls, IdsWith, PatternOf, BelongsTo, RouteOk, OnRecord, Listed, GroupsWritten, EntriesOk, Calls, Among, IsTrip, Packs, Rebuilds;
    var db := new GtfsDatabase();
    var bundles := db.CompileTripBundles(trips);
    assert OnRecord(db, trips) by { AllOnRecord(db, trips); }
    var routes := SelectRoutes(db, trips, masks, bundles);
    StopsKnown(trips, masks, routes, nStops);
    var file, offsets := WriteRouteGroups(db, trips, masks, routes);
    var entries: seq<seq<TripEntry>> := [];
    for r := 0 to |routes|
      invariant OnRecord(db, trips) && forall k | 0 <= k < |routes| :: GroupsWritten(db, file, offsets, routes[k].running)
      invariant |entries| == r && forall k | 0 <= k < r :: EntriesOk(trips, masks, file, routes[k].pattern, entries[k])
    {
      var route := WriteTrips(db, trips, masks, ordered, routes[r], offsets, file);
      entries := entries + [route];
    }
    var stopRoutes := IndexStops(StopsOf(routes), nStops);
    tables := Tables(routes, entries, file, stopRoutes);
    WrittenCalls(trips, masks, nStops, tables);
    ok := Packs(tables);
    PacksMeans(tables);
  }

  lemma AllOnRecord(db: GtfsDatabase, trips: seq<FeedTrip>)
    requires IsFeed(trips) && forall i | 0 <= i < |trips| :: db.Stores(trips[i])
    ensures OnRecord(db, trips)
  {}

  lemma StopsKnown(trips: seq<FeedTrip>, masks: map<TripId, Mask>, routes: seq<RouteEntry>, nStops: nat)
    requires forall i, p | 0 <= i < |trips| && 0 <= p < |trips[i].rows| :: trips[i].rows[p].stop < nStops
    requires forall r | 0 <= r < |routes| :: RouteOk(trips, masks, routes[r])
    ensures forall r, p | 0 <= r < |routes| && 0 <= p < |routes[r].pattern.stops| :: routes[r].pattern.stops[p] < nStops
  {
    forall r, p | 0 <= r < |routes| && 0 <= p < |routes[r].pattern.stops| ensures routes[r].pattern.stops[p] < nStops {
      assert routes[r].running[0] in routes[r].running;
      assert BelongsTo(trips, masks, routes[r].pattern, routes[r].running[0]);
    }
  }

  /** Write the groups that the routes' trips use. */
  method WriteRouteGroups(db: GtfsDatabase, ghost trips: seq<FeedTrip>, masks: map<TripId, Mask>, routes: seq<RouteEntry>)
    returns (file: seq<Stored>, offsets: map<nat, nat>)
    requires OnRecord(db, trips) && forall g | g in db.groups :: |g.drive| == |g.dwell|
    requires forall r | 0 <= r < |routes| :: RouteOk(trips, masks, routes[r])
    ensures forall r | 0 <= r < |routes| :: GroupsWritten(db, file, offsets, routes[r].running)
  {
    hide PatternOf, BelongsTo, RouteOk, OnRecord, StoredAt;
    forall r, i | 0 <= r < |routes| && 0 <= i < |routes[r].running| ensures db.Knows(routes[r].running[i]) {
      RunningKnown(db, trips, masks, routes[r], i);
    }
    var refs: seq<seq<nat>> := [];
    for r := 0 to |routes|
      invariant |refs| == r
      invariant forall k | 0 <= k < r :: |refs[k]| == |routes[k].running|
      invariant forall k, i | 0 <= k < r && 0 <= i < |refs[k]| :: refs[k][i] == db.groupForTrip[routes[k].running[i]]
    {
      var running, groupForTrip := routes[r].running, db.groupForTrip;
      refs := refs + [seq(|running|, i requires 0 <= i < |running| && running[i] in groupForTrip => groupForTrip[running[i]])];
    }
    assert GroupsOk(db.groups);
    file, offsets := WriteGroups(db.groups, refs);
    forall r, i | 0 <= r < |routes| && 0 <= i < |routes[r].running|
      ensures var group := db.groupForTrip[routes[r].running[i]];
              group in offsets && StoredAt(file, offsets[group], db.groups[group])
    {
      assert refs[r][i] in offsets;
    }
  }

  lemma RunningKnown(db: GtfsDatabase, trips: seq<FeedTrip>, masks: map<TripId, Mask>, e: RouteEntry, i: nat)
    requires OnRecord(db, trips) && RouteOk(trips, masks, e) && i < |e.running|
    ensures db.Knows(e.running[i])
  {
    hide PatternOf, OnRecord;
    assert e.running[i] in e.running;
    assert BelongsTo(trips, masks, e.pattern, e.running[i]);
    Recalled(db, trips, e.running[i]);
  }

  /* ----- nothing is lost ----- */

  /** Every trip that runs is in exactly one place of exactly one route: the one of
      its own pattern. */
  lemma EachTripOnce(trips: seq<FeedTrip>, masks: map<TripId, Mask>, nStops: nat, tables: Tables, i: nat) returns (r: nat, t: nat)
    requires IsFeed(trips) && Emitted(trips, masks, nStops, tables) && i < |trips| && Runs(masks, trips[i].id)
    ensures r < |tables.routes| && tables.routes[r].pattern == PatternOf(trips[i])
    ensures t < |tables.trips[r]| && tables.trips[r][t].id == trips[i].id
    ensures forall r', t' | 0 <= r' < |tables.routes| && 0 <= t' < |tables.trips[r']| && tables.trips[r'][t'].id == trips[i].id ::
              r' == r && t' == t
  {
    hide PatternOf, StoredAt, RouteOk, Calls;
    TripOfIs(trips, i);
    assert BelongsTo(trips, masks, PatternOf(trips[i]), trips[i].id);
    assert Listed(trips, masks, tables.routes, PatternOf(trips[i]));
    r :| 0 <= r < |tables.routes| && tables.routes[r].pattern == PatternOf(trips[i]);
    t :| 0 <= t < |tables.trips[r]| && tables.trips[r][t].id == trips[i].id;
    forall r', t' | 0 <= r' < |tables.routes| && 0 <= t' < |tables.trips[r']| && tables.trips[r'][t'].id == trips[i].id
      ensures r' == r && t' == t
    {
      assert TripOk(trips, masks, tables.file, tables.routes[r'].pattern, tables.trips[r'][t']);
    }
  }

  /** Every trip in the file calls at its route's stops, in order, with its kinds of
      stopping; and trips share a route exactly when these agree. */
  lemma WrittenCalls(trips: seq<FeedTrip>, masks: map<TripId, Mask>, nStops: nat, tables: Tables)
    requires Emitted(trips, masks, nStops, tables)
    ensures forall r, t | 0 <= r < |tables.routes| && 0 <= t < |tables.trips[r]| ::
              EntryCalls(trips, tables.routes[r].pattern, tables.trips[r][t])
    ensures forall r, r', t | 0 <= r < |tables.routes| && 0 <= r' < |tables.routes| && 0 <= t < |tables.trips[r]|
                              && CallsAt(TripOf(trips, tables.trips[r][t].id), tables.routes[r'].pattern) :: r' == r
  {
    hide PatternOf, CallsAt, RouteOk, StoredAt, Calls, Listed;
    forall r, t | 0 <= r < |tables.routes| && 0 <= t < |tables.trips[r]|
      ensures EntryCalls(trips, tables.routes[r].pattern, tables.trips[r][t])
      ensures forall r' | 0 <= r' < |tables.routes| && CallsAt(TripOf(trips, tables.trips[r][t].id), tables.routes[r'].pattern) :: r' == r
    {
      var pattern, entry := tables.routes[r].pattern, tables.trips[r][t];
      assert TripOk(trips, masks, tables.file, pattern, entry);
      PatternMeans(TripOf(trips, entry.id), pattern);
      forall r' | 0 <= r' < |tables.routes| && CallsAt(TripOf(trips, entry.id), tables.routes[r'].pattern) ensures r' == r {
        PatternMeans(TripOf(trips, entry.id), tables.routes[r'].pattern);
      }
    }
  }

  ghost predicate EntryCalls(trips: seq<FeedTrip>, pattern: Pattern, entry: TripEntry) {
    IsTrip(trips, entry.id) && CallsAt(TripOf(trips, entry.id), pattern)
  }

  /** What the file says of a trip is, at every stop, at most one unit below its true
      time in 4-second units; and the stop is its own. */
  lemma TimesReadBack(trips: seq<FeedTrip>, masks: map<TripId, Mask>, nStops: nat, tables: Tables, r: nat, t: nat, p: nat)
    requires Emitted(trips, masks, nStops, tables) && r < |tables.routes| && t < |tables.trips[r]|
    requires IsTrip(trips, tables.trips[r][t].id) && p < |TripOf(trips, tables.trips[r][t].id).rows|
    ensures var row, record := TripOf(trips, tables.trips[r][t].id).rows[p], tables.trips[r][t].record;
            && record.offset + p < |tables.file|
            && row.arrival / 4 - 1 <= record.begin + tables.file[record.offset + p].arrival <= row.arrival / 4
            && row.departure / 4 - 1 <= record.begin + tables.file[record.offset + p].departure <= row.departure / 4
            && p < |tables.routes[r].pattern.stops| && tables.routes[r].pattern.stops[p] == row.stop
  {
    hide PatternOf, RouteOk, Calls, Listed;
    WrittenCalls(trips, masks, nStops, tables);
    assert EntryCalls(trips, tables.routes[r].pattern, tables.trips[r][t]);
    var entry := tables.trips[r][t];
    assert TripOk(trips, masks, tables.file, tables.routes[r].pattern, entry);
    var trip := TripOf(trips, entry.id);
    ReadBack(trip, BeginOf(trip), GroupOf(trip), tables.file, entry.record, p);
  }

  /* ----- what the router loads ----- */

  predicate LoadsTrip(trip: Timetables.Trip, entry: TripEntry, file: seq<Stored>) {
    && trip.begin == entry.record.begin && trip.active == entry.days
    && entry.record.offset + |trip.times| <= |file|
    && forall p | 0 <= p < |trip.times| ::
         var stored := file[entry.record.offset + p];
         trip.times[p].arrival == stored.arrival && trip.times[p].departure == stored.departure
  }

  /** Timepoints, stops where one may board, and stops where one may alight. */
  function StopAttributes(pattern: Pattern, p: nat): Mask
    requires p < |pattern.timepoints| && p < |pattern.pickups| && p < |pattern.dropOffs|
  {
    (if pattern.timepoints[p] == 1 then {0} else {})
    + (if pattern.pickups[p] != 1 then {Timetables.RSA_BOARDING} else {})
    + (if pattern.dropOffs[p] != 1 then {Timetables.RSA_ALIGHTING} else {})
  }

  predicate LoadsRoute(route: Timetables.Route, e: RouteEntry, entries: seq<TripEntry>, file: seq<Stored>) {
    && route.stops == e.pattern.stops && |route.stopAttributes| == |route.stops|
    && |e.pattern.timepoints| == |e.pattern.pickups| == |e.pattern.dropOffs| == |route.stops|
    && (forall p | 0 <= p < |route.stops| :: route.stopAttributes[p] == StopAttributes(e.pattern, p))
    && route.active == e.days && route.minTime == e.minTime && route.maxTime == e.maxTime
    && |route.trips| == |entries|
    && forall t | 0 <= t < |entries| :: |route.trips[t].times| == |route.stops| && LoadsTrip(route.trips[t], entries[t], file)
  }

  /** The timetable is what the file holds, with whatever realtime delays. */
  predicate Loads(td: Timetables.Timetable, tables: Tables) {
    && |td.stops| == |tables.stopRoutes| && |td.routes| == |tables.routes| == |tables.trips|
    && (forall s | 0 <= s < |td.stops| :: td.stops[s].routes == tables.stopRoutes[s])
    && forall r | 0 <= r < |td.routes| :: LoadsRoute(td.routes[r], tables.routes[r], tables.trips[r], tables.file)
  }

  /** The trip stays within the three days that 16 bits can tell apart. */
  predicate Representable(trip: FeedTrip) {
    forall p | 0 <= p < |trip.rows| :: trip.rows[p].arrival < 4 * Rtime.WIDTH && trip.rows[p].departure < 4 * Rtime.WIDTH
  }

  /** The feeds' trips behind a route of the file. */
  ghost function FeedsOf(trips: seq<FeedTrip>, entries: seq<TripEntry>): (feeds: seq<FeedTrip>)
    requires forall t | 0 <= t < |entries| :: IsTrip(trips, entries[t].id)
    ensures |feeds| == |entries| && forall t | 0 <= t < |entries| :: feeds[t] == TripOf(trips, entries[t].id)
  { seq(|entries|, t requires 0 <= t < |entries| => TripOf(trips, entries[t].id)) }

  /** Trips whose times never decrease and fit. */
  predicate Sensible(trips: seq<FeedTrip>) {
    forall i | 0 <= i < |trips| :: Coherent(trips[i]) && Representable(trips[i])
  }

  /** The feed's trip behind a trip of the file. */
  lemma WrittenTrip(trips: seq<FeedTrip>, masks: map<TripId, Mask>, tables: Tables, nStops: nat, r: nat, t: nat)
    requires Emitted(trips, masks, nStops, tables) && r < |tables.routes| && t < |tables.trips[r]|
    ensures var e, entry := tables.routes[r], tables.trips[r][t];
            && IsTrip(trips, entry.id) && entry.days <= e.days
            && var feed := TripOf(trips, entry.id);
               && feed.rows != [] && |e.pattern.stops| == |feed.rows|
               && entry.record.begin == BeginOf(feed) / 4 && StoredAt(tables.file, entry.record.offset, GroupOf(feed))
               && e.minTime <= BeginOf(feed) / 4 && EndOf(feed) / 4 <= e.maxTime
  {
    hide Calls, Listed, StoredAt;
    assert TripOk(trips, masks, tables.file, tables.routes[r].pattern, tables.trips[r][t]);
    assert RouteOk(trips, masks, tables.routes[r]);
  }

  lemma LoadedTimes(feed: FeedTrip, file: seq<Stored>, entry: TripEntry, loaded: Timetables.Trip)
    requires feed.rows != [] && Representable(feed) && entry.record.begin == BeginOf(feed) / 4
    requires StoredAt(file, entry.record.offset, GroupOf(feed))
    requires LoadsTrip(loaded, entry, file) && |loaded.times| == |feed.rows|
    ensures LoadedFrom(loaded, feed)
  {
    forall p | 0 <= p < |loaded.times|
      ensures loaded.begin + loaded.times[p].arrival < Rtime.WIDTH && loaded.begin + loaded.times[p].departure < Rtime.WIDTH
    {
      ReadBack(feed, BeginOf(feed), GroupOf(feed), file, entry.record, p);
    }
    WrittenTripLoads(feed, BeginOf(feed), GroupOf(feed), file, entry.record, loaded);
  }

  lemma LoadedTrip(trips: seq<FeedTrip>, masks: map<TripId, Mask>, tables: Tables, td: Timetables.Timetable, nStops: nat,
                   r: nat, t: nat)
    requires Emitted(trips, masks, nStops, tables) && Loads(td, tables) && Sensible(trips)
    requires r < |td.routes| && t < |td.routes[r].trips|
    ensures t < |tables.trips[r]| && IsTrip(trips, tables.trips[r][t].id)
    ensures var feed := TripOf(trips, tables.trips[r][t].id);
            && LoadedFrom(td.routes[r].trips[t], feed) && Coherent(feed) && feed.rows != []
            && tables.routes[r].minTime <= BeginOf(feed) / 4 && EndOf(feed) / 4 <= tables.routes[r].maxTime
            && td.routes[r].trips[t].active <= td.routes[r].active
  {
    hide StopAttributes, LoadedFrom, Coherent, Representable, StoredAt, GroupOf, RouteOk, EntriesOk, Calls, Listed;
    assert LoadsRoute(td.routes[r], tables.routes[r], tables.trips[r], tables.file);
    WrittenTrip(trips, masks, tables, nStops, r, t);
    LoadedTimes(TripOf(trips, tables.trips[r][t].id), tables.file, tables.trips[r][t], td.routes[r].trips[t]);
  }

  /** One may board a loaded route at a stop exactly when the feed's pickup type is not
      1, and alight exactly when its drop-off type is not 1. */
  lemma LoadedCalls(trips: seq<FeedTrip>, masks: map<TripId, Mask>, tables: Tables, td: Timetables.Timetable, nStops: nat,
                    r: nat, t: nat, p: nat)
    requires Emitted(trips, masks, nStops, tables) && Loads(td, tables)
    requires r < |td.routes| && t < |td.routes[r].trips| && p < |td.routes[r].stops|
    ensures t < |tables.trips[r]| && IsTrip(trips, tables.trips[r][t].id)
    ensures var feed, route := TripOf(trips, tables.trips[r][t].id), td.routes[r];
            && |route.stops| == |feed.rows| == |route.stopAttributes| && route.stops[p] == feed.rows[p].stop
            && (1 in route.stopAttributes[p] <==> feed.rows[p].pickup != 1)
            && (2 in route.stopAttributes[p] <==> feed.rows[p].dropOff != 1)
            && (0 in route.stopAttributes[p] <==> p == 0 || feed.rows[p].timepoint == 1)
  {
    hide Emitted, LoadsTrip;
    WrittenCalls(trips, masks, nStops, tables);
    assert LoadsRoute(td.routes[r], tables.routes[r], tables.trips[r], tables.file);
    assert EntryCalls(trips, tables.routes[r].pattern, tables.trips[r][t]);
  }

  /** Every loaded route is one whose range is that of its own coherent trips. */
  lemma LoadedRoute(trips: seq<FeedTrip>, masks: map<TripId, Mask>, tables: Tables, td: Timetables.Timetable, nStops: nat, r: nat)
    requires Emitted(trips, masks, nStops, tables) && Loads(td, tables) && Sensible(trips) && r < |td.routes|
    ensures forall t | 0 <= t < |tables.trips[r]| :: IsTrip(trips, tables.trips[r][t].id)
    ensures RouteFrom(td.routes[r], FeedsOf(trips, tables.trips[r]), 4 * tables.routes[r].minTime, 4 * tables.routes[r].maxTime + 3)
  {
    hide Emitted, LoadedFrom, Coherent;
    forall t | 0 <= t < |tables.trips[r]|
      ensures IsTrip(trips, tables.trips[r][t].id)
      ensures var feed := TripOf(trips, tables.trips[r][t].id);
              && LoadedFrom(td.routes[r].trips[t], feed) && Coherent(feed) && feed.rows != []
              && 4 * tables.routes[r].minTime <= BeginOf(feed) && EndOf(feed) <= 4 * tables.routes[r].maxTime + 3
    {
      LoadedTrip(trips, masks, tables, td, nStops, r, t);
    }
  }

  /** Rides that are represented, or permitted, lie in one window of 16 bits each. */
  ghost predicate TripsInWindows(q: Journeys.Query) {
    forall ride | Journeys.InBounds(q, ride) && Ideals.Usable(q, ride.route, ride.trip, ride.day)
                  && Journeys.RideStart(q, ride) != Rtime.UNREACHED && Journeys.RideEnd(q, ride) != Rtime.UNREACHED ::
      Ideals.OneWindow(q, ride)
  }

  ghost predicate RidesInWindows(q: Journeys.Query) {
    forall ride | Journeys.Permitted(q, ride) :: Ideals.OneWindow(q, ride)
  }

  /** The router may rely on the indexes and day bits of a compiled timetable.  It
      never rides back in time exactly when no delay wraps one end of a ride and not
      the other; without delays that is so, and it may prune with the ranges, forward
      at least when no trip waits at its last stop or trips have one time per stop. */
  lemma CompiledIsSound(q: Journeys.Query, trips: seq<FeedTrip>, masks: map<TripId, Mask>, nStops: nat, tables: Tables)
    requires Emitted(trips, masks, nStops, tables) && Loads(q.td, tables) && Journeys.Valid(q) && Sensible(trips)
    ensures Ideals.Indexed(q)
    ensures Ideals.TripsAdvance(q) <==> TripsInWindows(q)
    ensures Ideals.RidesAdvance(q) <==> RidesInWindows(q)
    ensures Ideals.OnTime(q) ==> Ideals.TripsAdvance(q) && Ideals.RidesAdvance(q)
    ensures Ideals.OnTime(q) && (q.req.arriveBy || Ideals.OneTimePerStop(q) || forall i | 0 <= i < |trips| :: FinalWaitVanishes(trips[i])) ==>
              forall r | 0 <= r < |q.td.routes| :: Ideals.Bounded(q, r)
  {
    hide Emitted, Loads, Ideals.Bounded, Ideals.Indexed, Ideals.TripsAdvance, Ideals.RidesAdvance, Journeys.Valid, Sensible,
         TripsInWindows, RidesInWindows, Ideals.OnTime, Ideals.OneTimePerStop, FinalWaitVanishes;
    if Ideals.OnTime(q) && (q.req.arriveBy || Ideals.OneTimePerStop(q) || forall i | 0 <= i < |trips| :: FinalWaitVanishes(trips[i])) {
      forall r | 0 <= r < |q.td.routes| ensures Ideals.Bounded(q, r) {
        CompiledBounded(q, trips, masks, nStops, tables, r);
      }
    }
    CompiledIndexed(q, trips, masks, nStops, tables);
    CompiledAdvances(q, trips, masks, nStops, tables);
    if Ideals.OnTime(q) { OnTimeInWindows(q, trips, masks, nStops, tables); }
    if Ideals.TripsAdvance(q) { Ideals.TripsAdvanceRidesAdvance(q); }
  }

  lemma CompiledBounded(q: Journeys.Query, trips: seq<FeedTrip>, masks: map<TripId, Mask>, nStops: nat, tables: Tables, r: nat)
    requires Emitted(trips, masks, nStops, tables) && Loads(q.td, tables) && Journeys.Valid(q) && Sensible(trips)
    requires Ideals.OnTime(q) && r < |q.td.routes|
    requires q.req.arriveBy || Ideals.OneTimePerStop(q) || forall i | 0 <= i < |trips| :: FinalWaitVanishes(trips[i])
    ensures Ideals.Bounded(q, r)
  {
    hide Emitted, Loads, RouteFrom, Journeys.Valid, Sensible, Ideals.OnTime, Ideals.OneTimePerStop, FinalWaitVanishes;
    RoutesCount(q.td, tables);
    LoadedRoute(trips, masks, tables, q.td, nStops, r);
    var feeds := FeedsOf(trips, tables.trips[r]);
    if !q.req.arriveBy && !Ideals.OneTimePerStop(q) {
      forall t | 0 <= t < |feeds| ensures FinalWaitVanishes(feeds[t]) {
        assert feeds[t] in trips;
      }
    }
    CompiledRangeIsBound(q, r, feeds, 4 * tables.routes[r].minTime, 4 * tables.routes[r].maxTime + 3);
  }

  lemma RoutesCount(td: Timetables.Timetable, tables: Tables)
    requires Loads(td, tables)
    ensures |td.routes| == |tables.routes| == |tables.trips|
  {}

  lemma CompiledIndexed(q: Journeys.Query, trips: seq<FeedTrip>, masks: map<TripId, Mask>, nStops: nat, tables: Tables)
    requires Emitted(trips, masks, nStops, tables) && Loads(q.td, tables) && Journeys.Valid(q) && Sensible(trips)
    ensures Ideals.Indexed(q)
  {
    hide Journeys.Valid, Sensible, RouteOk, EntriesOk, Listed, LoadedFrom, LoadsTrip;
    forall r: nat, t: nat | r < |q.td.routes| && t < |q.td.routes[r].trips|
      ensures q.td.routes[r].trips[t].active <= q.td.routes[r].active
    {
      LoadedTrip(trips, masks, tables, q.td, nStops, r, t);
    }
    forall s: nat, r: nat | s < |q.td.stops| && r < |q.td.routes|
      ensures r in q.td.stops[s].routes <==> s in q.td.routes[r].stops
    {
      assert LoadsRoute(q.td.routes[r], tables.routes[r], tables.trips[r], tables.file);
      assert q.td.stops[s].routes == Calls(StopsOf(tables.routes), s);
    }
    CompiledIsIndexed(q);
  }

  lemma CompiledAdvances(q: Journeys.Query, trips: seq<FeedTrip>, masks: map<TripId, Mask>, nStops: nat, tables: Tables)
    requires Emitted(trips, masks, nStops, tables) && Loads(q.td, tables) && Journeys.Valid(q) && Sensible(trips)
    ensures Ideals.TripsAdvance(q) <==> TripsInWindows(q)
    ensures Ideals.RidesAdvance(q) <==> RidesInWindows(q)
  {
    hide Emitted, Sensible, LoadedFrom, Coherent, Ideals.OneWindow, Journeys.RideStart, Journeys.RideEnd;
    forall ride | Journeys.InBounds(q, ride)
                  && Journeys.RideStart(q, ride) != Rtime.UNREACHED && Journeys.RideEnd(q, ride) != Rtime.UNREACHED
      ensures Journeys.Cost(q, Journeys.RideStart(q, ride)) <= Journeys.Cost(q, Journeys.RideEnd(q, ride))
         <==> Ideals.OneWindow(q, ride)
    {
      LoadedTrip(trips, masks, tables, q.td, nStops, ride.route, ride.trip);
      RideAdvances(q, ride, TripOf(trips, tables.trips[ride.route][ride.trip].id));
    }
  }

  /** A ride on a coherent trip goes back in time exactly when a delay wraps one of its
      ends and not the other. */
  lemma RideAdvances(q: Journeys.Query, ride: Journeys.Ride, feed: FeedTrip)
    requires Journeys.InBounds(q, ride) && LoadedFrom(q.td.routes[ride.route].trips[ride.trip], feed) && Coherent(feed)
    requires Journeys.RideStart(q, ride) != Rtime.UNREACHED && Journeys.RideEnd(q, ride) != Rtime.UNREACHED
    ensures Journeys.Cost(q, Journeys.RideStart(q, ride)) <= Journeys.Cost(q, Journeys.RideEnd(q, ride))
       <==> Ideals.OneWindow(q, ride)
  {
    hide Journeys.StopTimeOn;
    assert Timetables.RouteInBounds(q.td, q.td.routes[ride.route]);
    Ideals.WindowsDecide(q, ride);
  }

  lemma OnTimeInWindows(q: Journeys.Query, trips: seq<FeedTrip>, masks: map<TripId, Mask>, nStops: nat, tables: Tables)
    requires Emitted(trips, masks, nStops, tables) && Loads(q.td, tables) && Journeys.Valid(q) && Sensible(trips)
    requires Ideals.OnTime(q)
    ensures TripsInWindows(q)
  {
    hide Emitted, Sensible, LoadedFrom, Coherent, Ideals.OneWindow, Journeys.RideStart, Journeys.RideEnd;
    forall ride | Journeys.InBounds(q, ride) && Ideals.Usable(q, ride.route, ride.trip, ride.day)
                  && Journeys.RideStart(q, ride) != Rtime.UNREACHED && Journeys.RideEnd(q, ride) != Rtime.UNREACHED
      ensures Ideals.OneWindow(q, ride)
    {
      LoadedTrip(trips, masks, tables, q.td, nStops, ride.route, ride.trip);
      OnTimeRide(q, ride, TripOf(trips, tables.trips[ride.route][ride.trip].id));
    }
  }

  lemma OnTimeRide(q: Journeys.Query, ride: Journeys.Ride, feed: FeedTrip)
    requires Journeys.InBounds(q, ride) && LoadedFrom(q.td.routes[ride.route].trips[ride.trip], feed)
    requires Journeys.RideStart(q, ride) != Rtime.UNREACHED && Journeys.RideEnd(q, ride) != Rtime.UNREACHED
    requires Journeys.DelayOn(q.td.routes[ride.route].trips[ride.trip], q.days[ride.day]) == 0
    ensures Ideals.OneWindow(q, ride)
  {
    hide Journeys.StopTimeOn;
    assert Timetables.RouteInBounds(q.td, q.td.routes[ride.route]);
    var trip, day := q.td.routes[ride.route].trips[ride.trip], q.days[ride.day];
    Ideals.TimeWraps(trip, ride.on, q.req.arriveBy, day);
    Ideals.TimeWraps(trip, ride.off, !q.req.arriveBy, day);
  }
}
