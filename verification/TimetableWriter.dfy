/** Writing the timetable: times are stored in 4-second units, time demand groups
    once each, and routes with the days and the time range their trips cover. */
module TimetableWriter {
  import opened TripBundles
  import Timetables
  import Rtime
  import Journeys
  import Ideals

  type Mask = Timetables.Mask

  /* ----- the trips and days of a route ----- */

  predicate Runs(masks: map<TripId, Mask>, id: TripId) { id in masks && masks[id] != {} }

  function Running(masks: map<TripId, Mask>, ids: seq<TripId>): seq<TripId> {
    if ids == [] then []
    else Running(masks, ids[..|ids| - 1]) + if Runs(masks, ids[|ids| - 1]) then [ids[|ids| - 1]] else []
  }

  /** Keep the trips that run in the calendar period; the route is active on every
      day that one of them is, and dropped when there is none. */
  method SelectRunning(masks: map<TripId, Mask>, ids: seq<TripId>) returns (running: seq<TripId>, routeMask: Mask)
    ensures running == Running(masks, ids)
    ensures forall id | id in running :: Runs(masks, id)
    ensures forall day :: day in routeMask <==> exists id :: id in running && id in masks && day in masks[id]
    ensures forall id | id in running :: id in masks && masks[id] <= routeMask
    ensures routeMask == {} <==> running == []
  {
    running, routeMask := [], {};
    for i := 0 to |ids|
      invariant running == Running(masks, ids[..i])
      invariant forall id | id in running :: Runs(masks, id) && masks[id] <= routeMask
      invariant forall day | day in routeMask :: exists id :: id in running && day in masks[id]
    {
      assert ids[..i + 1][..i] == ids[..i];
      ghost var before := running;
      if ids[i] in masks {
        routeMask := routeMask + masks[ids[i]];
        if masks[ids[i]] != {} {
          running := running + [ids[i]];
          assert forall id | id in before :: id in running;
          assert ids[i] in running;
        }
      }
    }
    assert ids[..|ids|] == ids;
    if running != [] {
      assert running[0] in running;
    }
  }

  function EndOf(trip: FeedTrip): int
    requires trip.rows != []
  { trip.rows[|trip.rows| - 1].arrival }

  const NO_MIN: int := 99_999_999

  /** The earliest begin and the latest final arrival of a route's trips. */
  method FindTimeRange(db: GtfsDatabase, ids: seq<TripId>) returns (minTime: int, maxTime: int)
    requires forall i | 0 <= i < |ids| :: db.Knows(ids[i])
    ensures forall i | 0 <= i < |ids| ::
              db.Knows(ids[i]) && minTime <= db.beginTimes[ids[i]] && db.LastArrival(ids[i]) <= maxTime
    ensures minTime == 99_999_999 || exists i :: 0 <= i < |ids| && db.Knows(ids[i]) && db.beginTimes[ids[i]] == minTime
    ensures maxTime == 0 || exists i :: 0 <= i < |ids| && db.Knows(ids[i]) && db.LastArrival(ids[i]) == maxTime
  {
    minTime, maxTime := NO_MIN, 0;
    for i := 0 to |ids|
      invariant forall k | 0 <= k < i :: minTime <= db.beginTimes[ids[k]] && db.LastArrival(ids[k]) <= maxTime
      invariant minTime == 99_999_999 || exists k :: 0 <= k < i && db.beginTimes[ids[k]] == minTime
      invariant maxTime == 0 || exists k :: 0 <= k < i && db.LastArrival(ids[k]) == maxTime
    {
      var tripMin := db.beginTimes[ids[i]];
      var drive := db.groups[db.groupForTrip[ids[i]]].drive;
      var tripMax := tripMin + drive[|drive| - 1];
      if tripMin < minTime { minTime := tripMin; }
      if tripMax > maxTime { maxTime := tripMax; }
    }
  }

  /* ----- time demand groups ----- */

  /** A stored stop time; shifting right by two bits divides by four, rounding down. */
  datatype Stored = Stored(arrival: int, departure: int)

  function Shifted(group: Group, p: nat): Stored
    requires p < |group.drive| == |group.dwell|
  { Stored(group.drive[p] / 4, (group.drive[p] + group.dwell[p]) / 4) }

  /** The group's times are in the file from the given offset on. */
  predicate StoredAt(file: seq<Stored>, offset: nat, group: Group) {
    && |group.drive| == |group.dwell| && offset + |group.drive| <= |file|
    && forall p | 0 <= p < |group.drive| :: file[offset + p] == Shifted(group, p)
  }

  /** The distinct references, in order of first use. */
  function FirstUses(refs: seq<nat>): (uses: seq<nat>)
    ensures forall ref :: ref in uses <==> ref in refs
    ensures forall i, k | 0 <= i < k < |uses| :: uses[i] != uses[k]
  {
    if refs == [] then []
    else
      var init, last := refs[..|refs| - 1], refs[|refs| - 1];
      if last in init then FirstUses(init) else FirstUses(init) + [last]
  }

  /** Of two references the one used first comes first. */
  lemma {:induction false} FirstUsesInOrder(refs: seq<nat>, i: nat, k: nat)
    requires i < k < |FirstUses(refs)|
    ensures UsedBefore(refs, FirstUses(refs)[i], FirstUses(refs)[k])
  {
    var init, n := refs[..|refs| - 1], |refs| - 1;
    var uses := FirstUses(init);
    if k < |uses| {
      FirstUsesInOrder(init, i, k);
      var a :| 0 <= a < n && init[a] == uses[i] && uses[k] !in init[..a];
      assert refs[..a] == init[..a];
    } else {
      assert uses[i] in init;
      var a :| 0 <= a < n && init[a] == uses[i];
      assert refs[..a] == init[..a];
    }
  }

  /** Reference a is used at a place before which b is not. */
  predicate UsedBefore(refs: seq<nat>, a: nat, b: nat) { exists i :: 0 <= i < |refs| && refs[i] == a && b !in refs[..i] }

  /** The groups that a route's trips use, each once, in order of first use. */
  method GetTimePatterns(groupRefs: seq<nat>) returns (patterns: seq<nat>)
    ensures patterns == FirstUses(groupRefs)
    ensures forall ref :: ref in patterns <==> ref in groupRefs
    ensures forall i, k | 0 <= i < k < |patterns| :: patterns[i] != patterns[k]
  {
    patterns := [];
    var seen: set<nat> := {};
    for i := 0 to |groupRefs|
      invariant patterns == FirstUses(groupRefs[..i]) && forall ref :: ref in seen <==> ref in patterns
    {
      var ref := groupRefs[i];
      assert groupRefs[..i + 1][..i] == groupRefs[..i];
      if ref in seen { continue; }
      seen := seen + {ref};
      patterns := patterns + [ref];
    }
    assert groupRefs[..|groupRefs|] == groupRefs;
  }

  predicate GroupsOk(groups: seq<Group>) {
    forall g | 0 <= g < |groups| :: |groups[g].drive| == |groups[g].dwell|
  }

  /** The file so far holds every group written, where the offsets say, and shares
      no entry between two of them. */
  predicate FileOk(groups: seq<Group>, file: seq<Stored>, offsets: map<nat, nat>, written: map<Group, nat>) {
    && (forall ref | ref in offsets :: ref < |groups| && groups[ref] in written && offsets[ref] == written[groups[ref]])
    && (forall times | times in written :: StoredAt(file, written[times], times))
    && (forall a, b | a in written && b in written && a != b :: Apart(written[a], a, written[b], b))
  }

  predicate Apart(i: nat, a: Group, k: nat, b: Group) { i + |a.drive| <= k || k + |b.drive| <= i }

  /** Write each group once and remember its offset, also for equal groups. */
  method WriteGroups(groups: seq<Group>, routes: seq<seq<nat>>) returns (file: seq<Stored>, offsets: map<nat, nat>)
    requires GroupsOk(groups) && forall r, t | 0 <= r < |routes| && 0 <= t < |routes[r]| :: routes[r][t] < |groups|
    ensures forall r, t | 0 <= r < |routes| && 0 <= t < |routes[r]| ::
              routes[r][t] in offsets && StoredAt(file, offsets[routes[r][t]], groups[routes[r][t]])
    ensures forall a, b | a in offsets && b in offsets :: a < |groups| && b < |groups| &&
              if groups[a] == groups[b] then offsets[a] == offsets[b]
              else Apart(offsets[a], groups[a], offsets[b], groups[b])
  {
    hide FileOk, FirstUses;
    file, offsets := [], map[];
    var written: map<Group, nat> := map[];
    EmptyFile(groups);
    for r := 0 to |routes|
      invariant FileOk(groups, file, offsets, written)
      invariant forall r', t | 0 <= r' < r && 0 <= t < |routes[r']| :: routes[r'][t] in offsets
    {
      var patterns := GetTimePatterns(routes[r]);
      for i := 0 to |patterns|
        invariant FileOk(groups, file, offsets, written)
        invariant forall r', t | 0 <= r' < r && 0 <= t < |routes[r']| :: routes[r'][t] in offsets
        invariant forall k | 0 <= k < i :: patterns[k] in offsets
      {
        assert patterns[i] in routes[r];
        file, offsets, written := WriteGroup(groups, patterns[i], file, offsets, written);
      }
      assert forall t | 0 <= t < |routes[r]| :: routes[r][t] in patterns;
    }
    FileSays(groups, file, offsets, written);
  }

  lemma EmptyFile(groups: seq<Group>)
    ensures FileOk(groups, [], map[], map[])
  {}

  lemma FileSays(groups: seq<Group>, file: seq<Stored>, offsets: map<nat, nat>, written: map<Group, nat>)
    requires FileOk(groups, file, offsets, written)
    ensures forall ref | ref in offsets :: ref < |groups| && StoredAt(file, offsets[ref], groups[ref])
    ensures forall a, b | a in offsets && b in offsets :: a < |groups| && b < |groups| &&
              if groups[a] == groups[b] then offsets[a] == offsets[b]
              else Apart(offsets[a], groups[a], offsets[b], groups[b])
  {}

  method WriteGroup(groups: seq<Group>, ref: nat, file: seq<Stored>, offsets: map<nat, nat>, written: map<Group, nat>)
    returns (file': seq<Stored>, offsets': map<nat, nat>, written': map<Group, nat>)
    requires GroupsOk(groups) && ref < |groups| && FileOk(groups, file, offsets, written)
    ensures FileOk(groups, file', offsets', written')
    ensures file <= file' && ref in offsets' && forall k | k in offsets :: k in offsets'
  {
    var times := groups[ref];
    file', offsets', written' := file, offsets, written;
    if times in written {
      offsets' := offsets[ref := written[times]];
    } else {
      offsets' := offsets[ref := |file|];
      written' := written[times := |file|];
      for p := 0 to |times.drive|
        invariant |file'| == |file| + p && file <= file'
        invariant forall k | 0 <= k < p :: file'[|file| + k] == Shifted(times, k)
      {
        file' := file' + [Shifted(times, p)];
      }
    }
  }

  /* ----- reading back ----- */

  /** A trip record: where its group's times are, and its begin time. */
  datatype TripRecord = TripRecord(offset: nat, begin: int)

  /** Dividing two numbers separately loses at most one unit. */
  lemma ShiftLoss(a: int, b: int)
    ensures (a + b) / 4 - 1 <= a / 4 + b / 4 <= (a + b) / 4
  {}

  /** Lossless up to resolution: what is read back for a trip is, at every stop, at
      most one unit below its true time in 4-second units. */
  lemma ReadBack(trip: FeedTrip, begin: int, group: Group, file: seq<Stored>, record: TripRecord, p: nat)
    requires Rebuilds(trip, begin, group) && StoredAt(file, record.offset, group) && record.begin == begin / 4
    requires p < |trip.rows|
    ensures trip.rows[p].arrival / 4 - 1 <= record.begin + file[record.offset + p].arrival <= trip.rows[p].arrival / 4
    ensures trip.rows[p].departure / 4 - 1 <= record.begin + file[record.offset + p].departure <= trip.rows[p].departure / 4
  {
    assert file[record.offset + p] == Shifted(group, p);
    ShiftLoss(begin, group.drive[p]);
    ShiftLoss(begin, group.drive[p] + group.dwell[p]);
  }

  /** Times never decrease along the trip. */
  predicate Coherent(trip: FeedTrip) {
    && (forall p | 0 <= p < |trip.rows| :: trip.rows[p].arrival <= trip.rows[p].departure)
    && (forall p, p' | 0 <= p < p' < |trip.rows| :: trip.rows[p].departure <= trip.rows[p'].arrival)
  }

  /** What is stored lies within the stored range of the route, except possibly the
      final departure. */
  lemma StoredWithinRange(trip: FeedTrip, begin: int, group: Group, file: seq<Stored>, record: TripRecord, p: nat,
                          minTime: int, maxTime: int)
    requires trip.rows != [] && Coherent(trip) && begin == BeginOf(trip)
    requires Rebuilds(trip, begin, group) && StoredAt(file, record.offset, group) && record.begin == begin / 4
    requires minTime <= BeginOf(trip) && EndOf(trip) <= maxTime && p < |trip.rows|
    ensures minTime / 4 <= record.begin + file[record.offset + p].arrival <= maxTime / 4
    ensures minTime / 4 <= record.begin + file[record.offset + p].departure
    ensures p + 1 < |trip.rows| ==> record.begin + file[record.offset + p].departure <= maxTime / 4
    ensures p + 1 == |trip.rows| && trip.rows[p].departure == trip.rows[p].arrival ==>
              record.begin + file[record.offset + p].departure <= maxTime / 4
  {
    assert file[record.offset + p] == Shifted(group, p);
    ReadBack(trip, begin, group, file, record, p);
  }

  /** The final departure is exempt for a reason: when the latest trip of a route
      waits two units at its last stop, what is stored lies beyond the range. */
  lemma FinalDwellEscapes(trip: FeedTrip, begin: int, group: Group, file: seq<Stored>, record: TripRecord)
    requires trip.rows != [] && Rebuilds(trip, begin, group) && StoredAt(file, record.offset, group) && record.begin == begin / 4
    requires trip.rows[|trip.rows| - 1].departure >= EndOf(trip) + 8
    ensures record.begin + file[record.offset + |trip.rows| - 1].departure > EndOf(trip) / 4
  {
    ReadBack(trip, begin, group, file, record, |trip.rows| - 1);
  }

  /* ----- routes by stop ----- */

  /** The calls of one route at stop s. */
  function CallsIn(stops: seq<nat>, s: nat, r: nat): (calls: seq<nat>)
    ensures forall x: nat :: x in calls <==> x == r && s in stops
  {
    if stops == [] then []
    else CallsIn(stops[..|stops| - 1], s, r) + if stops[|stops| - 1] == s then [r] else []
  }

  /** The routes that call at stop s, in order, once per call. */
  function Calls(routeStops: seq<seq<nat>>, s: nat): (calls: seq<nat>)
    ensures forall r: nat :: r in calls <==> r < |routeStops| && s in routeStops[r]
  {
    if routeStops == [] then []
    else
      var last := |routeStops| - 1;
      var before := Calls(routeStops[..last], s);
      before + CallsIn(routeStops[last], s, last)
  }

  lemma NextCall(stops: seq<nat>, s: nat, r: nat, p: nat)
    requires p < |stops|
    ensures CallsIn(stops[..p + 1], s, r) == CallsIn(stops[..p], s, r) + if stops[p] == s then [r] else []
  {
    assert stops[..p + 1][..p] == stops[..p];
  }

  lemma NextRoute(routeStops: seq<seq<nat>>, s: nat, r: nat)
    requires r < |routeStops|
    ensures Calls(routeStops[..r + 1], s) == Calls(routeStops[..r], s) + CallsIn(routeStops[r], s, r)
  {
    assert routeStops[..r + 1][..r] == routeStops[..r];
  }

  /** The routes of a stop are in ascending order. */
  lemma {:induction false} CallsAscend(routeStops: seq<seq<nat>>, s: nat, i: nat, k: nat)
    requires i < k < |Calls(routeStops, s)|
    ensures Calls(routeStops, s)[i] <= Calls(routeStops, s)[k]
  {
    hide CallsIn;
    var last := |routeStops| - 1;
    var before, calls := Calls(routeStops[..last], s), CallsIn(routeStops[last], s, last);
    if k < |before| {
      CallsAscend(routeStops[..last], s, i, k);
    } else {
      assert calls[k - |before|] in calls;
      if i < |before| { assert before[i] in before; } else { assert calls[i - |before|] in calls; }
    }
  }

  /** Each is listed as often as it calls there. */
  lemma {:induction false} CallsCounted(routeStops: seq<seq<nat>>, s: nat, r: nat)
    requires r < |routeStops|
    ensures multiset(Calls(routeStops, s))[r] == multiset(routeStops[r])[s]
  {
    hide CallsIn;
    var last := |routeStops| - 1;
    var before, calls := Calls(routeStops[..last], s), CallsIn(routeStops[last], s, last);
    CallsInCounted(routeStops[last], s, last);
    if r < last {
      CallsCounted(routeStops[..last], s, r);
      assert r !in calls;
    } else {
      assert r !in before;
    }
  }

  lemma {:induction false} CallsInCounted(stops: seq<nat>, s: nat, r: nat)
    ensures multiset(CallsIn(stops, s, r))[r] == multiset(stops)[s]
  {
    if stops != [] {
      var n := |stops| - 1;
      CallsInCounted(stops[..n], s, r);
      assert stops == stops[..n] + [stops[n]];
      var before, last := CallsIn(stops[..n], s, r), if stops[n] == s then [r] else [];
      assert multiset(before + last) == multiset(before) + multiset(last);
    }
  }

  /** For every stop, the routes that call there. */
  method IndexStops(routeStops: seq<seq<nat>>, nStops: nat) returns (stopRoutes: seq<seq<nat>>)
    requires forall r, p | 0 <= r < |routeStops| && 0 <= p < |routeStops[r]| :: routeStops[r][p] < nStops
    ensures |stopRoutes| == nStops && forall s | 0 <= s < nStops :: stopRoutes[s] == Calls(routeStops, s)
    ensures forall s: nat, r: nat | s < nStops && r < |routeStops| :: r in stopRoutes[s] <==> s in routeStops[r]
  {
    hide Calls;
    stopRoutes := seq(nStops, _ => []);
    NoCalls();
    for r := 0 to |routeStops|
      invariant |stopRoutes| == nStops && forall s | 0 <= s < nStops :: stopRoutes[s] == Calls(routeStops[..r], s)
    {
      stopRoutes := IndexRoute(routeStops[r], r, stopRoutes);
      forall s | 0 <= s < nStops ensures stopRoutes[s] == Calls(routeStops[..r + 1], s) {
        NextRoute(routeStops, s, r);
      }
    }
    assert routeStops[..|routeStops|] == routeStops;
  }

  lemma NoCalls()
    ensures forall s: nat :: Calls([], s) == []
  {}

  /** Add the calls of one route. */
  method IndexRoute(stops: seq<nat>, r: nat, before: seq<seq<nat>>) returns (stopRoutes: seq<seq<nat>>)
    requires forall p | 0 <= p < |stops| :: stops[p] < |before|
    ensures |stopRoutes| == |before|
    ensures forall s | 0 <= s < |before| :: stopRoutes[s] == before[s] + CallsIn(stops, s, r)
  {
    stopRoutes := before;
    for p := 0 to |stops|
      invariant |stopRoutes| == |before|
      invariant forall s | 0 <= s < |before| :: stopRoutes[s] == before[s] + CallsIn(stops[..p], s, r)
    {
      var stop := stops[p];
      stopRoutes := stopRoutes[stop := stopRoutes[stop] + [r]];
      forall s | 0 <= s < |before| ensures stopRoutes[s] == before[s] + CallsIn(stops[..p + 1], s, r) {
        NextCall(stops, s, r, p);
      }
    }
    assert stops[..|stops|] == stops;
  }

  /* ----- the router's assumptions ----- */

  /** A trip as the router loads it from its record and its group. */
  predicate LoadedFrom(trip: Timetables.Trip, feed: FeedTrip) {
    && feed.rows != [] && |trip.times| == |feed.rows| && trip.begin == BeginOf(feed) / 4
    && forall p | 0 <= p < |feed.rows| ::
         && trip.times[p].arrival == (feed.rows[p].arrival - BeginOf(feed)) / 4
         && trip.times[p].departure == (feed.rows[p].departure - BeginOf(feed)) / 4
         && trip.begin + trip.times[p].arrival < Rtime.WIDTH && trip.begin + trip.times[p].departure < Rtime.WIDTH
  }

  /** A route whose range is that of its coherent trips. */
  ghost predicate RouteFrom(route: Timetables.Route, feeds: seq<FeedTrip>, minTime: int, maxTime: int) {
    && |route.trips| == |feeds| && route.minTime == minTime / 4 && route.maxTime == maxTime / 4
    && forall t | 0 <= t < |feeds| ::
         && LoadedFrom(route.trips[t], feeds[t]) && Coherent(feeds[t])
         && minTime <= BeginOf(feeds[t]) && EndOf(feeds[t]) <= maxTime
  }

  /** In units of the timetable, the trip does not wait at its last stop. */
  predicate FinalWaitVanishes(feed: FeedTrip) {
    feed.rows != [] ==>
      var last := feed.rows[|feed.rows| - 1];
      (last.departure - BeginOf(feed)) / 4 == (last.arrival - BeginOf(feed)) / 4
  }

  /** The range the compiler stores is one the router may prune with when no trip is
      delayed: always when searching backward, and forward when trips do not wait at
      their last stop, or when the trips in use have one time at each stop. */
  lemma CompiledRangeIsBound(q: Journeys.Query, r: nat, feeds: seq<FeedTrip>, minTime: int, maxTime: int)
    requires Journeys.Valid(q) && r < |q.td.routes| && RouteFrom(q.td.routes[r], feeds, minTime, maxTime)
    requires q.req.arriveBy || Ideals.OneTimePerStop(q) || forall t | 0 <= t < |feeds| :: FinalWaitVanishes(feeds[t])
    requires Ideals.OnTime(q)
    ensures Ideals.Bounded(q, r)
  {
    forall t: nat, d: nat, p: nat | Ideals.Usable(q, r, t, d) && Journeys.HasStop(q, r, p)
                                    && Journeys.BoardTime(q, r, t, d, p) != Rtime.UNREACHED
      ensures q.days[d].midnight + q.td.routes[r].minTime <= Journeys.BoardTime(q, r, t, d, p)
                <= q.days[d].midnight + q.td.routes[r].maxTime
    {
      assert Timetables.RouteInBounds(q.td, q.td.routes[r]);
      var trip, arrive := q.td.routes[r].trips[t], q.req.arriveBy || Ideals.OneTimePerStop(q);
      if arrive {
        assert Journeys.StopTimeOn(trip, p, true, q.days[d]) == Journeys.BoardTime(q, r, t, d, p);
      }
      BoardTimeInRange(trip, feeds[t], p, arrive, q.days[d], minTime, maxTime);
    }
  }

  lemma BoardTimeInRange(trip: Timetables.Trip, feed: FeedTrip, p: nat, arrive: bool, day: Journeys.ServiceDay,
                         minTime: int, maxTime: int)
    requires LoadedFrom(trip, feed) && Coherent(feed) && p < |trip.times| && Journeys.DelayOn(trip, day) == 0
    requires minTime <= BeginOf(feed) && EndOf(feed) <= maxTime
    requires arrive || FinalWaitVanishes(feed)
    requires Journeys.StopTimeOn(trip, p, arrive, day) != Rtime.UNREACHED
    ensures day.midnight + minTime / 4 <= Journeys.StopTimeOn(trip, p, arrive, day) <= day.midnight + maxTime / 4
  {
    Journeys.StopTimeIsExact(trip, p, arrive, day);
    var begin := BeginOf(feed);
    ShiftLoss(begin, feed.rows[p].arrival - begin);
    ShiftLoss(begin, feed.rows[p].departure - begin);
  }

  /** The record and group written for a stored trip load as that trip. */
  lemma WrittenTripLoads(trip: FeedTrip, begin: int, group: Group, file: seq<Stored>, record: TripRecord, loaded: Timetables.Trip)
    requires trip.rows != [] && Rebuilds(trip, begin, group) && StoredAt(file, record.offset, group) && record.begin == begin / 4
    requires loaded.begin == record.begin && |loaded.times| == |group.drive|
    requires forall p | 0 <= p < |loaded.times| ::
               && loaded.times[p].arrival == file[record.offset + p].arrival
               && loaded.times[p].departure == file[record.offset + p].departure
               && loaded.begin + loaded.times[p].arrival < Rtime.WIDTH
               && loaded.begin + loaded.times[p].departure < Rtime.WIDTH
    ensures LoadedFrom(loaded, trip)
  {
    forall p | 0 <= p < |trip.rows|
      ensures loaded.times[p].arrival == (trip.rows[p].arrival - BeginOf(trip)) / 4
      ensures loaded.times[p].departure == (trip.rows[p].departure - BeginOf(trip)) / 4
    {
      assert file[record.offset + p] == Shifted(group, p);
    }
  }

  /** A timetable whose stops and routes are indexed as compiled has the complete
      indexes that the router relies on. */
  lemma CompiledIsIndexed(q: Journeys.Query)
    requires Journeys.Valid(q)
    requires forall s: nat, r: nat | s < |q.td.stops| && r < |q.td.routes| ::
               r in q.td.stops[s].routes <==> s in q.td.routes[r].stops
    requires forall r: nat, t: nat | r < |q.td.routes| && t < |q.td.routes[r].trips| ::
               q.td.routes[r].trips[t].active <= q.td.routes[r].active
    ensures Ideals.Indexed(q)
  {
    forall r: nat, p: nat | Journeys.HasStop(q, r, p)
      ensures r in q.td.stops[Journeys.StopAt(q, r, p)].routes
    {
      assert Journeys.StopAt(q, r, p) in q.td.routes[r].stops;
    }
  }
}
