# A model of the rrrr journey planner

This project models rrrr, a public transport router in C with a timetable
compiler in Python, and proves properties of the model. Its centre is the RAPTOR
search: rounds of riding and walking over per-round, per-stop labels, in either
direction, with 16-bit times, three service days, pruning, back pointers and
search reversal. Around it stand the compiler that produces the timetable, the
index and text structures the programs use, and the broker that spreads requests
over workers.

The main results, hardest first:

- **Optimality.** Under stated conditions on timetable and request, after every
  round the best time at the target is the minimum over all feasible journeys
  with that many rides, in spite of frontier marking, day pruning, local pruning
  and target pruning (`Optimality.TargetIsMinimum`), and the labels at the target
  are the Pareto front of rides against time (`Optimality.TargetLabelsArePareto`).
- **Reversal never loses** what can be travelled back. From any label, searching
  back reaches the origin at or beyond the time asked for, and two reversals in a
  row arrive no later than the first search (`Reversals.ReversalNeverLoses`,
  `Reversals.Compression`). Only a forward search from time 0 can lose, and it is
  said exactly when it does. The plan that a worker answers with keeps the same
  promises (`Workers.AnswerDepartAfter`, `Workers.AnswerArriveBy`).
- **Soundness, with no such conditions.** Every label of every round decodes
  through its back pointers to a feasible journey with exactly as many rides, and
  the borrowed initial row never leaks (`Rounds.RoundTraced`,
  `Rounds.InitialCleared`, `Routers.Router.Route`).
- **Plans.** Reading itineraries back hits an error branch exactly when no round
  was run but the target was walked to; otherwise each itinerary is the decoded journey
  (`Plans.ResultToPlan`), but for its first walk, which is rebuilt; two exact
  conditions say when an itinerary's times are in order. Each leg names the route,
  trip, stops and times of a permitted ride, or a footpath (`Plans.PlanInvariants`),
  and an answer keeps what the request asks for, bans included (`Workers.Respond`).
- **The compiler is lossless up to one 4-second unit**: compiling a whole feed
  puts every running trip in exactly one place, from which its times read back,
  and the ranges and indexes it writes are those the router prunes with and relies
  on (`CompiledTimetables.CompileTimetable`, `CompiledTimetables.TimesReadBack`,
  `CompiledTimetables.CompiledIsSound`).
- **The pointer-based radix tree is a map** (`RadixTrees.Edge.Insert`,
  `PrefixTrees.FindAfterInserts`); the broker conserves workers and requests over
  all interleavings (`Brokers.Safety`, `Brokers.TurnByPosition`); JSON and
  polyline output reads back (`JsonWriters.WriteDocument`,
  `Polylines.PolylineIsReadable`); the slab allocator replays
  (`Slabs.Allocator.Alloc`); heap, bitset and grid do what they are for.

## How the model is laid out

One module per component. `Rtime`, `Timetables` and `Journeys` hold the data and
say what a feasible journey is; both search directions share one set of
definitions through `Cost`, which negates times when searching backward. `Travel`
spells the same out in the direction of travel and in plain numbers, and proves
both alike: what the service days are, which rides a request allows, and where a
journey leads (`Travel.PermittedExactly`, `Travel.FeasibleExactly`). `Search`, `Scans`, `Rounds` and `Optimality` hold the relations that the tables keep and one
lemma per way of changing them. `Routers.Router` is the router itself: a class
with the fields of the original, changed in place by one method per phase, each
proved against those relations. `Plans` and `Reversals` build on its contract, and
`Workers` on both. `Limits` holds concrete timetables and requests on which a
promise fails. `TripBundles` and `TimetableWriter` hold the steps of the timetable
compiler, and `CompiledTimetables` puts them together.

The conditions for optimality are collected in `Ideals.Ideal`: vehicles do not
dwell and no stop time overflows, trips of a route do not overtake each other over
all trip and day pairs in use, one may alight wherever one may board, the route's
time range and the indexes are right, footpaths obey the triangle inequality, and
the request has no via stop and no banned stops. `CompiledTimetables.CompiledIsSound`
proves the range, the indexes and that no ride goes back in time for compiled
timetables, and `Ideals.ShuttleIsIdeal` and `Limits.TwoLinesIdeal` give timetables
that meet all the conditions.

Inputs from outside are parameters: the calendar day on which realtime data
applies, which messages happen to be waiting, the walking speed. Clocks, sockets,
files and the database are not modelled.

## Where the code differs from what it says

- A search for fewest transfers reverses from the first label, not the best one.
  For a first result within the cutoff, the last search starts before the time
  that was asked for exactly when the search back found fewer rides than the first
  search used (`Reversals.Compression`; `Limits.FewestDepartsTooEarly` is such a
  request).
- A backward boarding scan starts from best time 0 and looks for something
  strictly later, so it never boards at time 0. A forward search from time 0 loses
  its answer to the reversals exactly when every journey that arrives as early, with
  no more rides, alights at time 0 (`Reversals.ReversalNeverLoses`,
  `Reversals.CompressionLoses`; `Limits.MidnightLosesAnswer` is such a request).
- With `max_transfers` at its largest 32-bit value the number of rounds wraps to
  0 and the initial state stays in row 1, where reading the plan fails on it
  (`Plans.UnlimitedTransfersFail`, `Plans.ResultToPlan`).
- The first walk of an itinerary is looked up again, and is the first footpath
  listed, not the one taken. It is right exactly when both take as long
  (`Plans.ReadExactly`); `Limits.SlowFootpathMisleads` is a timetable where it ends
  after the ride has left.
- A realtime delay can wrap one end of a ride past the 16-bit range and not the
  other; exactly then the ride goes back in time (`Ideals.WindowsDecide`,
  `CompiledTimetables.CompiledIsSound`; `Limits.DelayGoesBack` is such a trip).
- At a stop where it attempts to board, the scan does not alight. An arrival is
  passed over in this way exactly when vehicles wait for two units or more
  (`Scans.WaitLosesArrival`). Nor is there re-boarding at stops where alighting is
  not allowed. Both are excluded by `Ideals.Ideal`.
- A banned stop is only kept from being walked out of. No change is made there from
  ride to ride, but one may still walk to it and board, here as in the original
  (`Travel.FeasibleExactly`, `Workers.Respond`).
- A boarding decision before the request time would be reported and dropped; it
  never happens (`Scans.NeverTooEarly`).
- The route's time range covers final arrivals but not final departures
  (`TimetableWriter.FinalDwellEscapes`).
- The broker takes a reply for a ready signal when the client's identity begins
  with the ready byte, and loses it (`Brokers.OnlyAmbiguousRepliesAreLost`).
- JSON strings escape control characters with a backslash before the raw
  character, so strings with control characters do not read back
  (`JsonText.StringRoundTrip`).
- A negative coordinate difference cut off to zero decodes as -2^29
  (`Polylines.SignedBinary`).

## Model

| member | source | states |
|---|---|---|
| `Rtime.WalkTestsAreExact` | router.c:174-180 | The two tests on a walk's 16-bit end time reject it exactly when the true result leaves the three days that are represented; otherwise nothing wrapped. |
| `Journeys.StopTimeIsExact` | router.c:288-306 | The overflow test yields UNREACHED exactly when the time on that service day does not fit before realtime is applied; otherwise the result is the true time, delay included, exactly when that fits, and else it has wrapped unnoticed. |
| `Journeys.EndsAfterRequest` | router.c:640-646 | No feasible journey ends before it was asked to begin, and its end lies within three days or is the request time itself. |
| `Journeys.WalkCosts` | router.c:168-180 | A walk that fits ends no earlier (for the search) than it began, and never at the reserved UNREACHED. |
| `Journeys.WalkTimesLast` | router.c:173-174 | At any positive speed and slack, every walking time that 16 bits can tell is the whole 4-second units of covering the distance at that speed and then waiting out the slack: 4w * speed <= 16 * distance + slack * speed < (4w + 4) * speed. |
| `Journeys.FasterIsNoLonger` | router.c:173-174 | A higher speed never lengthens a walk, and less slack never does. |
| `Travel.DaysMean` | router.c:313-338 | The three service days are the requested day and its neighbours, with their midnights: each runs exactly what is active on the requested dates moved back by one, kept, or moved forward by one, and is on realtime exactly when realtime's date is among them. |
| `Travel.RunsMean` | router.c:53-56 | A route is kept for its day bits exactly when it is active on one of those days. |
| `Travel.LiftEnds` | router.c:277-306 | For either direction a ride's boarding and alighting are the scheduled departure and arrival, delay included, of its trip at an earlier and a later stop. |
| `Travel.PermittedExactly` | router.c:472-652 | The rides a search may take are exactly those whose trip, stops, days, mode, agency, attributes, bans, times and cutoff the request and timetable allow, each condition spelled out in the direction of travel. |
| `Travel.FeasibleExactly` | router.c:131-195 | The feasible journeys, and where and when they lead, are exactly what one gets by walking and riding so, never from the banned stop and never before one is there. |
| `Travel.OrderOfTimes` | router.c:186-187 | Costs compare times as the search does: earlier is better going forward, later going backward, and any time is better than none. |
| `Ideals.WindowsDecide` | router.c:293-305 | A ride that is planned in order, at times that are represented, goes back in time exactly when a delay wraps one of its ends and not the other. |
| `Boardings.FindTrip` | router.c:561-599 | The scan over service days and trips, with its pruning by the route's time range and its early stop, returns a trip that can be boarded whose time no other trip or day beats, whenever the range bounds the stop times. |
| `Boardings.SkippedDayOffersNothing` | router.c:566-568 | A service day that is skipped offers no trip that could be boarded. |
| `Boardings.FirstDayIsBest` | router.c:569-571 | When a route's days do not overlap, the first day with a choice holds the best one, so that the early stop loses nothing. |
| `Boardings.BestChoiceIsUnique` | router.c:592-596 | Any two exhaustive answers agree on whether a trip can be boarded and on its time. |
| `Search.FlagStep` | router.c:164-166 | Touching one more stop and flagging its routes keeps: only running, allowed routes are flagged, and all of them at touched stops. |
| `Search.RelaxStep` | router.c:167-195 | Once a stop and all its footpaths are tried, no walk from it leads anywhere earlier than recorded, whatever else improves. |
| `Search.StayStep` | router.c:158-162 | Staying put is recorded exactly while it is still the best way to be at the stop. |
| `Search.FootStep` | router.c:186-191 | An improving footpath replaces the label of its target, and every walk label remains explained by a walk out of a ride of this round. |
| `Search.WalkedIsLeast` | router.c:131-204 | The walking phase leaves, for every stop, the least of its old best time and the ends of all one-hop walks to it from updated stops. |
| `Search.LeastIsUnique` | router.c:131-204 | That minimum is unique. |
| `Search.WalkingHasOneResult` | router.c:124-204 | Whatever the order of stops and footpaths, the phase yields the same best and walk times; a walk time is the best time, and no later than a ride time that was one. |
| `Scans.StaysAhead` | router.c:532-542 | A trip no later than another at one position delivers no later at every position after it. |
| `Scans.WaitLosesArrival` | router.c:525-543 | Trying to board makes the scan pass over a better arrival, for some label at the stop, exactly when the trip waits there for at least two units. |
| `Scans.AttemptExactly` | router.c:525-543 | Nobody boards without a label; otherwise one tries with nobody aboard and always at the via stop, keeps a trip boarded there, and else tries exactly when the label is strictly before the time of the trip aboard. |
| `Scans.PassStop` | router.c:525-543 | Passing a stop that nobody reached, with nobody aboard, leaves no ride unaccounted for. |
| `Scans.ArrivalRecordable` | router.c:627-645 | An arrival no later than that of a ride that could be caught passes the cutoff, range and wrap tests. |
| `Scans.StayAboard` | router.c:615-646 | Staying aboard past a stop leaves every ride that could be caught covered or matched by the trip aboard. |
| `Scans.NewTripNoLater` | router.c:533-541 | Re-boarding never gives up the trip aboard for a later one. |
| `Scans.BoardHere` | router.c:555-614 | After an attempt to board, every ride that could be caught up to here is covered or matched by the trip now aboard. |
| `Scans.NeverTooEarly` | router.c:600-604 | Whatever the timetable and request, nothing is ever boarded before the request time: the branch that reports it is never taken. |
| `Scans.CannotBoard` | router.c:545-547 | Passing a stop where boarding is not allowed while waiting there loses no ride. |
| `Scans.RecordRide` | router.c:645-652 | Recording an arrival keeps every ride label explained by a permitted ride caught from a label of the round before. |
| `Rounds.DecodedRides` | router.c:790-813 | Back pointers followed through k rounds give a journey with exactly k rides. |
| `Rounds.LabelExplained` | router.c:647-652 | A ride caught from an explained label and a walk after it explain the new label by a feasible journey that the back pointers spell out. |
| `Rounds.RoundSound` | router.c:461-672 | After a round every walk label decodes to a feasible journey if every label before did. |
| `Rounds.SoundLabelsKnown` | router.c:640-644 | Explained labels are not before the request time. |
| `Rounds.OriginStays` | router.c:633-646 | No ride ever improves on the search origin. |
| `Rounds.RoundWithinDays` | router.c:640-647 | Best times stay at the request time or within three days, so that they never collide with UNREACHED. |
| `Rounds.RoundTraced` | router.c:461-672 | A round keeps: all labels of completed rounds decode, and later rounds hold none. |
| `Rounds.RoundOrdered` | router.c:633-647 | A round keeps: labels of later rounds are strictly better, and best times are no worse than any label. |
| `Rounds.RoundSettled` | router.c:455-457 | One round after k settled rounds gives k+1 settled rounds, and only improves best times. |
| `Rounds.RoundAttained` | router.c:647-652 | Without banned stops every best time is the end of some feasible journey with at most as many rides as rounds. |
| `Rounds.InitialTraced` | router.c:427-446 | The row borrowed for the initial state holds exactly explained first walks. |
| `Rounds.InitialReach` | router.c:76-83 | The first walks lead only to the origin and its footpath targets. |
| `Rounds.InitialCleared` | router.c:84-93 | Clearing the origin and its footpath targets therefore clears the whole initial state: nothing leaks into later rounds. |
| `Rounds.BetweenKnown` | router.c:465-465 | The row that a round starts from holds labels known to the best times, and the row it fills holds no walk label yet. |
| `Optimality.WalkClosedStep` | router.c:167-195 | With the triangle inequality best times are closed under footpaths again after every round. |
| `Optimality.TwoWalks` | router.c:167-195 | Two footpaths in a row are covered by one direct walk. |
| `Optimality.PermittedIsFlaggable` | router.c:47-62 | A route with a permitted ride is never left out by its day bits or mode, and is listed at the stop where the ride begins. |
| `Optimality.AllRelaxed` | router.c:469-471 | Scanning only routes at stops improved in the last round covers every permitted ride from every stop ever reached. |
| `Optimality.OptimalStep` | router.c:455-457 | One more round gives best times that no feasible journey with one more ride beats, target pruning included. |
| `Optimality.LongerJourney` | router.c:619-626 | A journey one ride longer is covered at its end, or the target is known to be closer. |
| `Optimality.InitialStarted` | router.c:426-447 | The initial row holds walks out of the origin, which nothing was ridden to, and unless the origin is banned every best time is such a label. |
| `Optimality.RoundBest` | router.c:461-672 | A round keeps everything optimality needs between rounds. |
| `Optimality.RoundComplete` | router.c:461-672 | A round keeps soundness, attainment and, under the ideal conditions, optimality together. |
| `Optimality.InitialComplete` | router.c:426-447 | The same hold before the first round. |
| `Optimality.TargetIsMinimum` | router.c:454-457 | After k rounds the target's best time is the minimum over all feasible journeys with at most k rides, walking only included; UNREACHED exactly if there are none. |
| `Optimality.TargetLabelsArePareto` | router.c:780-785 | A round leaves a label at the target exactly when one more ride helps, and the label is then the best time with that many rides: the labels are the Pareto front. |
| `Routers.Router.FlagRoutesForStop` | router.c:47-62 | Adds exactly the routes at the stop that run on one of the three days in an allowed mode. |
| `Routers.Router.UnflagBannedRoutes` | router.c:64-68 | Removes exactly the banned route, if one is banned. |
| `Routers.Router.UnflagBannedStops` | router.c:70-74 | Removes exactly the banned stop, if one is banned. |
| `Routers.Router.constructor` | router.c:22-31 | A router for a timetable has fresh tables of the timetable's size. |
| `Routers.Router.TakeFootpath` | router.c:170-195 | One footpath is recorded if it fits and improves; best times only improve, and the path's end is covered. |
| `Routers.Router.WalkFrom` | router.c:140-195 | Walking from one stop keeps the order-independent description of the walking phase, with that stop added. |
| `Routers.Router.ApplyTransfers` | router.c:131-204 | In terms of the tables before: best times are the least of old best times and one-hop walks from updated stops, walk labels are explained and equal best times, and routes at touched stops are flagged. |
| `Routers.Router.Alight` | router.c:615-658 | Alighting is pruned, rejected or recorded; in every case an arrival that may be recorded is covered afterwards. |
| `Routers.Router.VisitStop` | router.c:502-660 | One position of a route keeps both the explanation of labels and, under the ideal conditions, the account of every ride that could be caught; an attempt to board records nothing and takes a possible trip whenever there is one, and staying aboard covers an arrival that may be recorded. |
| `Routers.Router.ScanRoute` | router.c:472-664 | The scan of a route covers every permitted ride that can be caught on it. |
| `Routers.Router.InitializeTransfers` | router.c:84-93 | Clears the walk times of exactly the origin and its footpath targets. |
| `Routers.Router.RideRoutes` | router.c:469-664 | The riding phase scans every flagged route. |
| `Routers.Router.Round` | router.c:461-672 | One round takes k settled rounds to k+1, leaves the labels of earlier rounds alone and only improves best times. |
| `Routers.Router.Reset` | router.c:353-368 | Clears all tables and enters the origin in rows 0 and 1. |
| `Routers.Router.Begin` | router.c:426-447 | Entering the origin and walking out of it gives the state in which the first round starts. |
| `Routers.Router.Route` | router.c:308-459 | A whole search ends with as many settled rounds as the request allows and best times that are attained and, under the ideal conditions, optimal after each of them; its walking times cover each distance at the requested speed and slack, rounded down to 4 seconds. |
| `Routers.Router.Progress` | router.c:454-457 | What holds between rounds yields the result stated for that round. |
| `Plans.TransferDuration` | router.c:95-108 | The footpath lookup gives 0 for staying, otherwise the duration of the first footpath to the stop, and UNREACHED if there is none. |
| `Plans.DirectDecodes` | router.c:844-857 | A decoded journey may stay at the origin rather than loop back to it, at no loss. |
| `Plans.FirstLegRebuilt` | router.c:845-856 | The first walk, which is not stored, is rebuilt right exactly when the first footpath listed for its stop takes as long as the walk. |
| `Plans.ReadExactly` | router.c:845-856 | What is read back is the journey, leg by leg, exactly in that case. |
| `Plans.FastestInTime` | router.c:845-856 | When a fastest footpath is listed first for every stop, the walk read back is in order and in time for the first ride. |
| `Plans.PointersAgree` | router.c:797-835 | One step along the back pointers yields exactly the last ride and walk of the decoded journey and leads to the rest of it. |
| `Plans.JourneySpans` | router.c:686-768 | The legs of a feasible journey alternate, link in place, lead from the origin to its end, and are in order but for times within rides and around the first walk, whatever is said of when that walk ends. |
| `Plans.JourneyMeans` | router.c:815-832 | Each ride leg of a feasible journey names the route and trip of a permitted ride, the stops where it leaves and arrives, earlier one first in both directions, and its times there; each walk leg but the first waits no time at all or takes a footpath of that duration. |
| `Plans.RebuiltMeans` | router.c:845-856 | The rebuilt walk begins at the request's end of the search at the request time and lasts as long as the first footpath listed to its other end, 0 for none, and 65535 when none is listed, in 16 bits. |
| `Plans.ChainedExactly` | router.c:686-768 | Linked legs are in order exactly when no ride goes back in time and the first walk is in time. |
| `Plans.JourneyChained` | router.c:686-768 | A feasible journey's own legs are in order exactly when none of its rides goes back in time. |
| `Plans.FollowPointers` | router.c:790-835 | With a journey behind the label the loop over rounds never takes an error branch and writes every leg slot but the first walk's exactly once; without one it reports the error. |
| `Plans.ReadItinerary` | router.c:786-857 | With a journey behind the label the itinerary read back has exactly its legs, in order of travel, with the first walk rebuilt from the footpath table; without one the error is reported. |
| `Plans.ResultToPlan` | router.c:773-863 | The plan has one itinerary for each round that reached the target, fewest rides first, each read back for the journey that explains the label; what its legs say of routes, trips, stops and times is stated by `Plans.PlanInvariants`. Reading fails exactly when no round was run and the initial state reaches the target. |
| `Plans.UnlimitedTransfersFail` | router.c:449-455 | The largest number of transfers is such a case: the number of rounds wraps to 0, and the initial state keeps a label at the target if it can be walked to. |
| `Plans.LabelledBeforeEnd` | router.c:783-785 | Every label at the target belongs to a completed round, or to the initial state when there is none. |
| `Plans.LabelJourney` | router.c:783-790 | Behind every label of a completed round at the target there is a feasible journey with the number of rides its round says. |
| `Plans.PlanInvariants` | router.c:686-768 | Itineraries link origin and target, and more rides always arrive strictly better. Each ride leg names the route, trip, stops and times of a permitted ride, earlier stop first, not changing at the banned stop; each walk leg is a wait or a footpath. Their times are in order exactly when no ride goes back in time and the first walk is in time for the first ride; the one follows when no ride that may be taken goes back in time, the other when fastest footpaths are listed first. |
| `Plans.LabelsImprove` | router.c:780-785 | Of two labels at the target the one with more rides is strictly better. |
| `Reversals.WalkBack` | tdata.c:245-275 | With symmetric transfers every walk has an equally long one back. |
| `Reversals.BackRideTimes` | router.c:1133-1136 | The opposite search sees every ride with its ends exchanged. |
| `Reversals.LaterThanZero` | router.c:561-593 | Only journeys of a forward search from time 0 can alight at time 0, so all others can be travelled back. |
| `Reversals.BackRidePermitted` | router.c:1134-1136 | A permitted ride between the two request times is permitted backward, unless a forward search alighted from it at time 0. |
| `Reversals.FinishBack` | router.c:1133-1136 | A walk taken backward from no earlier than its end arrives no earlier than it began. |
| `Reversals.MetBefore` | router.c:1133-1136 | The ride before that walk can be taken backward too, unless it was left at time 0 going forward. |
| `Reversals.MirrorFrom` | router.c:1133-1136 | From wherever a journey is met on its way back that does not alight at time 0 going forward, the way back leads to its origin, departing no earlier than requested. |
| `Reversals.Mirror` | router.c:1133-1136 | Every feasible journey to the target that does not alight at time 0 going forward has a mirror image in the opposite search with as many rides, departing no earlier than requested. |
| `Reversals.AlsoEarlier` | router.c:627-645 | A journey of a later search with a tighter cutoff is one of the earlier search, and ends no later. |
| `Reversals.MirrorBack` | router.c:1133-1136 | A way back that departs in time is a way there with as many rides, arriving no later than the search back began. |
| `Reversals.RequestReverse` | router.c:1115-1140 | Chooses the last label at the target, or the first when fewest transfers are wanted, and turns the request around from it: its time becomes the label's, its cutoff the old time, and its transfers the label's round; everything else it asks for stays, bans included. Without a label the whole request stays. |
| `Reversals.ChangeIsLabelled` | router.c:1123-1128 | A best time that changed over the rounds is the last label of its stop. |
| `Reversals.WalkingWouldLose` | router.c:1123-1130 | Had walking alone sufficed on the way back, riding would not have improved on it before. |
| `Reversals.ReversalNeverLoses` | router.c:1115-1140 | From a label within the cutoff, the opposite search leaves a label at the origin at or beyond the time originally asked for exactly when some journey that arrives by the label, with no more rides, can be travelled back; beyond the cutoff still if there is one. There always is, unless a forward search begins at time 0. |
| `Reversals.WayBackLabelled` | router.c:1115-1140 | A journey that can be travelled back shows in a label of the search back. |
| `Reversals.LabelComesFromWay` | router.c:1115-1140 | A label of the search back that is in time shows a journey there that can be travelled back. |
| `Reversals.Reversal` | reversal.c:12-50 | The driver runs two searches for an arrive-by and three for a depart-after request, each the reversal of the one before, or the same again when it found nothing, all with the same stops, walking, days, modes, agency and bans; and leaves the tables of the last one ready to be read. |
| `Reversals.ReversedIsOpposite` | router.c:1133-1136 | The reversed request is the opposite search over the same days and walking times, with exactly as many rounds as its label needs. |
| `Reversals.OnceReversed` | worker.c:66-73 | If its chosen label shows a journey that can be travelled back, one reversal departs (or arrives) no worse than asked and keeps a label to go on from. |
| `Reversals.Compression` | reversal.c:26-33 | When the first result can be travelled back, the final search after two reversals arrives no later than the first one found. It starts no earlier than asked if the second search kept the number of rides or fewest transfers were not wanted; for a result within the cutoff, exactly when the second search kept the number of rides. |
| `Reversals.CompressionLoses` | reversal.c:26-33 | For a result within the cutoff, the second search finds a label to go on from exactly when the first result can be travelled back. |
| `Reversals.FewerRidesTooLate` | router.c:1121-1128 | A way back with fewer rides than the label it starts from departs before the time asked for. |
| `Limits.FirstLabels` | router.c:1121-1128 | What every search of the two-line network leaves at its target, there and back. |
| `Limits.FewestDepartsTooEarly` | router.c:1121-1128 | On that network, which meets all conditions, a request for fewest transfers at 30600 ends in a search from 30550. |
| `Limits.NothingBackFromZero` | router.c:561-593 | A backward search from time 0 leaves no label at all, because nothing is boarded at time 0. |
| `Limits.MidnightLosesAnswer` | router.c:561-593 | A request at time 0 that a shuttle answers at once therefore loses its answer to the reversals. |
| `Limits.DelayGoesBack` | router.c:300-304 | On a small timetable a negative delay wraps a boarding time: the search may board at 65486 and alight at 50, and the journey's legs are not in order. |
| `Limits.SlowFootpathMisleads` | router.c:845-853 | On a timetable that lists a slow footpath before a fast one, a plan is read and none of its itineraries is in order. |
| `Workers.Respond` | worker.c:58-78 | The answer to a request holds one itinerary for each label of the last search; it never fails when the request allows a round. Every search is for the same wishes; every ride leg is one the request allows, none on the banned route, and no change is made at the banned stop. Its itineraries link and improve, and are in order when no ride that may be taken goes back in time and fastest footpaths are listed first. |
| `Workers.LabelInPlan` | worker.c:75-76 | Every label at the target has its itinerary in the plan. |
| `Workers.AnswerDepartAfter` | worker.c:64-76 | If the first result can be travelled back, some itinerary of the answer arrives no later than anything the first search found, and departs no earlier than asked (for fewest transfers, if the number of rides was kept). |
| `Workers.AnswerArriveBy` | worker.c:64-76 | Some itinerary of the answer departs at the best time the first search found, and arrives no later than asked. |
| `PrefixTrees.Common` | radixtree.c:103-129 | The number of characters consumed is that of the longest common prefix. |
| `PrefixTrees.InsertKeepsWellFormed` | radixtree.c:72-149 | Through splits, extensions and appends sibling edges keep different first characters and prefixes of one to four characters. |
| `PrefixTrees.FindInsert` | radixtree.c:72-170 | After an insert the key finds its value and every other string what it found before. |
| `PrefixTrees.SplitFind` | radixtree.c:105-120 | Splitting an edge does not change what is found. |
| `PrefixTrees.FindAfterInserts` | radixtree.c:72-170 | After any series of inserts every non-empty key finds the last value inserted for it, or NONE. |
| `RadixTrees.Edge.Insert` | radixtree.c:72-149 | The in-place insert refines inserting into a map; 0-length strings change nothing. |
| `RadixTrees.Edge.InsertRest` | radixtree.c:76-148 | One pass of the loop and its jumps back equals the insert on values. |
| `RadixTrees.Edge.InsertHere` | radixtree.c:101-140 | The case of an edge that shares the key's first character. |
| `RadixTrees.Edge.Split` | radixtree.c:105-120 | Everything below the split point moves into a new child edge. |
| `RadixTrees.Edge.Fill` | radixtree.c:85-88 | At most four characters, and the NUL if it comes first, are copied. |
| `RadixTrees.Edge.Find` | radixtree.c:151-170 | Walking the pointers finds what the tree as a value finds. |
| `RadixTrees.Consume` | radixtree.c:103-129 | The inner loop stops at the first difference or at the end of the prefix. |
| `RadixTrees.Filled` | radixtree.c:85-88 | The copied prefix is the next stretch of the key. |
| `RadixTrees.Tail` | radixtree.c:113-119 | The rest of a prefix is moved to the front. |
| `RadixTrees.HeadIs` | radixtree.c:77-101 | Comparing first characters also decides the cases of an empty prefix and of a finished key. |
| `RadixTrees.LoadStrings` | radixtree.c:225-243 | The bulk loader maps each id to the index of its last row. |
| `TripBundles.GtfsDatabase.FindOrAddGroup` | gtfsdb.py:568-574 | Equal times share one group, and no group changes its number. |
| `TripBundles.GtfsDatabase.StoreTrip` | gtfsdb.py:563-575 | A trip's begin time and group give back all its times; other trips' records stay. |
| `TripBundles.GtfsDatabase.CompileTripBundles` | gtfsdb.py:537-595 | Every trip is stored without loss and listed in the bundle of its own pattern; no group is stored twice. |
| `TripBundles.BundleStep` | gtfsdb.py:580-589 | Adding a trip to its bundle keeps all bundles complete and in order. |
| `TripBundles.InOneBundle` | gtfsdb.py:578-589 | Each trip is in exactly one bundle, exactly once: that whose stops, pickup types, drop-off types, timepoints (the first counting as one) and route are its own, in order. |
| `TripBundles.BundlesInOrder` | gtfsdb.py:580-589 | Bundles list their trips in feed order. |
| `TimetableWriter.SelectRunning` | timetable.py:266-292 | Keeps exactly the trips that run; the route's days are the union of theirs, and the route goes when there are none. |
| `TimetableWriter.FindTimeRange` | gtfsdb.py:169-180 | The range bounds every trip's begin and final arrival and is attained, or still the initial value. |
| `TimetableWriter.GetTimePatterns` | gtfsdb.py:155-167 | Each group a route uses, once, in order of first use. |
| `TimetableWriter.FirstUsesInOrder` | gtfsdb.py:155-167 | Of two such groups the one used first comes first. |
| `TimetableWriter.WriteGroups` | timetable.py:423-433 | Every group used is in the file where its offset says; equal groups share their entries and different ones share none. |
| `TimetableWriter.WriteGroup` | timetable.py:424-433 | One group more, the others undisturbed. |
| `TimetableWriter.ReadBack` | timetable.py:432-470 | A record with its begin time and its group in the file reads back, at every stop, at most one 4-second unit below the true time. |
| `TimetableWriter.StoredWithinRange` | timetable.py:288-290 | For coherent trips the stored range bounds every stored arrival and every departure but the last. |
| `TimetableWriter.FinalDwellEscapes` | gtfsdb.py:174-175 | The last departure does leave the range when the latest trip waits two units at its last stop. |
| `TimetableWriter.IndexStops` | timetable.py:489-508 | The routes by stop; a route is listed at exactly the stops it serves. |
| `TimetableWriter.CallsAscend` | timetable.py:489-508 | They are in route order. |
| `TimetableWriter.CallsCounted` | timetable.py:489-508 | Each is listed as often as it calls there. |
| `TimetableWriter.CompiledRangeIsBound` | timetable.py:288-290 | A range around the begins and final arrivals of coherent trips without delay is one the boarding scan may prune with: backward always, and forward when trips in use have one time per stop or their final wait vanishes in 4-second units. |
| `TimetableWriter.WrittenTripLoads` | timetable.py:466-470 | A trip with the record's begin time and the group's times is the feed's trip in 4-second units. |
| `CompiledTimetables.BundleMembers` | gtfsdb.py:578-589 | A bundle lists exactly the trips of its pattern. |
| `CompiledTimetables.Recalled` | gtfsdb.py:563-575 | Begin time, final arrival and group on record are those of the feed's trip. |
| `CompiledTimetables.MakeRoute` | timetable.py:266-292 | A bundle's route has exactly its running trips, exactly their days and the least range around them; there is none when nothing runs. |
| `CompiledTimetables.SelectRoutes` | timetable.py:266-293 | Every pattern with running trips gets exactly one route. |
| `CompiledTimetables.WriteRouteGroups` | timetable.py:423-433 | The group of every running trip is in the file where its offset says. |
| `CompiledTimetables.WriteTrips` | timetable.py:457-474 | The running trips of a route are written with their own times and days, each once, in the order of the database. |
| `CompiledTimetables.CompileTimetable` | timetable.py:251-573 | A whole feed is compiled into such tables, with every stop's routes, and each trip's route calls at its own stops with its own kinds of stopping; it ends in an error exactly when a time, or a route's number of stops or trips, does not fit 16 bits. |
| `CompiledTimetables.EachTripOnce` | timetable.py:457-474 | In the compiled tables every running trip is in exactly one place, in the route of its own pattern. |
| `CompiledTimetables.WrittenCalls` | gtfsdb.py:559-589 | At every position the route of a written trip has the stop, pickup type, drop-off type and timepoint of the trip's own row, the first counting as a timepoint; and trips share a route exactly when these agree. |
| `CompiledTimetables.TimesReadBack` | timetable.py:432-470 | Lossless up to resolution: what the tables say of a trip is, at every stop, at most one unit below its true time, and the stop is that of its row. |
| `CompiledTimetables.LoadedTrip` | router.c:277-285 | The router loads every trip with its own times in units, within its route's range and days. |
| `CompiledTimetables.LoadedCalls` | timetable.py:390-402 | One may board a loaded route at a stop exactly when the feed's pickup type there is not 1, and alight exactly when its drop-off type is not 1. |
| `CompiledTimetables.LoadedRoute` | timetable.py:288-290 | Every loaded route has the range of its own trips. |
| `CompiledTimetables.RideAdvances` | router.c:288-306 | A ride on a loaded coherent trip, at times that are represented, goes back in time exactly when a delay wraps one of its ends and not the other. |
| `CompiledTimetables.CompiledIndexed` | timetable.py:489-508 | The routes listed for each stop and the days of each route, as compiled, are complete. |
| `CompiledTimetables.CompiledIsSound` | timetable.py:251-508 | For the timetable loaded from the tables of a feed with sensible times, the indexes are complete, and no ride goes back in time exactly when no delay wraps one of its ends and not the other. Without delays that is so, and the ranges bound all boarding times, forward when trips have one time per stop or no final wait in units. |
| `Bitsets.NextMember` | bitset.c:88-91 | The least member at or above an index, or NONE exactly if there is none. |
| `Bitsets.BitSet.Set` | bitset.c:44-48 | Adds exactly one member. |
| `Bitsets.BitSet.Unset` | bitset.c:50-54 | Removes exactly one member. |
| `Bitsets.BitSet.Get` | bitset.c:56-60 | Tests membership. |
| `Bitsets.BitSet.Reset` | bitset.c:40-42 | Empties the set and leaves the word after it alone. |
| `Bitsets.BitSet.NextSetBit` | bitset.c:92-117 | Skipping zero words changes nothing: the least member at or above the index is found, whatever the word after the last one holds. |
| `Bitsets.BitSet.Enumerate` | bitset.c:69-78 | The loop visits exactly that list, and returns its sum modulo 2^32. |
| `Bitsets.Listing` | bitset.c:71-76 | Going from one member to the next lists exactly the members, each once, ascending. |
| `Brokers.Broker.Iterate` | broker.c:28-66 | The new queue and counters of one iteration, and the messages it sends, for every combination of waiting messages: a reply is passed on exactly when its client's identity is empty or begins with a byte other than 1, and anything else counts as a ready signal. |
| `Brokers.StepKeeps` | broker.c:28-66 | Every action of clients, broker and workers keeps: workers and requests are conserved, dispatch is first come first served, and nworkers = queue length + btx - brx modulo 2^32. |
| `Brokers.Safety` | broker.c:28-66 | These laws hold in every reachable state of every interleaving: queueing order is dispatch order, every worker is in one place, no request is lost or duplicated, and the counters agree modulo 2^32. |
| `Brokers.CountersStep` | broker.c:44-64 | The counters still agree after each kind of message, wrap-around included. |
| `Brokers.OneOutstanding` | worker.c:50-87 | A worker has at most one outstanding request, and none while queued. |
| `Brokers.RepliesReturn` | worker.c:56-86 | Every delivered reply answers a request of the client it went to, and none is answered more often than made. |
| `Brokers.OnlyAmbiguousRepliesAreLost` | broker.c:45-54 | In a quiet system exactly the requests of clients whose identity begins with the ready byte have lost their replies; all others are delivered. |
| `Brokers.TurnByPosition` | broker.c:60-63 | The worker at queue position p gets exactly the (p+1)-th later dispatch. |
| `JsonText.StringRoundTrip` | json.c:37-59 | A quoted string is read back exactly when it has no control characters. |
| `JsonText.EscapedOnly` | json.c:44-56 | Text is written as it is exactly when it has no quote, no backslash and none of the characters 8 to 13. |
| `JsonText.ValueRoundTrip` | json.c:87-147 | A rendered value of any nesting reads back as itself, leaving what follows. |
| `JsonText.MembersRoundTrip` | json.c:63-68 | The same for the members of an object, with commas between them. |
| `JsonText.ItemsRoundTrip` | json.c:112-137 | The same for the items of an array. |
| `JsonWriters.JsonWriter.constructor` | json.c:72-77 | Starts with nothing written and no comma due. |
| `JsonWriters.JsonWriter.Check` | json.c:28-31 | One character is added if the cursor is before the last position, or else the overflow is recorded and nothing added. |
| `JsonWriters.JsonWriter.Remaining` | json.c:21-25 | Tells whether so many characters fit, and records it if not. |
| `JsonWriters.JsonWriter.Printed` | json.c:92-110 | A printed value is added as a whole exactly when its longest form and one more character fit; otherwise the overflow is recorded and nothing added. |
| `JsonWriters.JsonWriter.String` | json.c:37-59 | Adds the quoted and escaped string as far as it fits, or null; overflow is recorded exactly when something did not fit. |
| `JsonWriters.JsonWriter.EscapedKey` | json.c:63-68 | Adds a comma if one is due, the key and a colon, as far as they fit, and makes a comma due next. |
| `JsonWriters.JsonWriter.KeyString` | json.c:87-90 | Adds a key with a string value. |
| `JsonWriters.JsonWriter.KeyPrinted` | json.c:92-110 | Adds a key with a number or truth value of known width. |
| `JsonWriters.JsonWriter.Open` | json.c:112-137 | Opens an object or array: comma if due, key if any, bracket, and no comma due inside. |
| `JsonWriters.JsonWriter.Close` | json.c:139-147 | Closes it and makes a comma due. |
| `JsonWriters.WriteContainer` | json.c:112-147 | One flag suffices: after an object or array the text is its rendering and the flag is what a stack would say. |
| `JsonWriters.WriteDocument` | json.c:72-147 | Unless it overflowed, the buffer holds a text that parses back to the same document; it overflows exactly when the room that the document needs, with the reserved widths of its numbers, exceeds the buffer. |
| `JsonWriters.RoomBounds` | json.c:21-25 | That room is no less than the text, and at most 21 characters more. |
| `Polylines.EncodeDouble` | polyline.c:35-65 | The characters written are the shortest five-bit code of the low 30 bits of the word, at most six. |
| `Polylines.EmitChunks` | polyline.c:56-61 | Emitting the chunks up to the last nonzero one gives exactly that code. |
| `Polylines.LowBits` | polyline.c:49-55 | The six masked chunks are those of the word's low 30 bits. |
| `Polylines.DecodeEncode` | polyline.c:14-20 | The code delimits itself: one number is read back, leaving what follows. |
| `Polylines.FixedSign` | polyline.c:38-38 | Coordinates are cut off toward zero, by less than one unit of 1e-5 degrees. |
| `Polylines.SignedBinary` | polyline.c:37-42 | A coordinate is read back exactly when it is in range and not a negative one cut off to zero, which comes back as -2^29. |
| `Polylines.DeltasRoundTrip` | polyline.c:94-105 | A reader recovers the truncated differences exactly when each of them survives. |
| `Polylines.ErrorStaysSmall` | polyline.c:98-104 | After k points each coordinate is off by less than k units of 1e-5 degrees. |
| `Polylines.PolylineIsReadable` | polyline.c:94-117 | A polyline whose differences survive reads back as every point, within that error. |
| `Polylines.Polyline.Begin` | polyline.c:85-91 | Starts over with no points and an empty text. |
| `Polylines.Polyline.Put` | polyline.c:60-64 | Adds one number's code and a NUL within the buffer. |
| `Polylines.Polyline.Point` | polyline.c:94-105 | A point's differences are added unless the buffer is nearly full; the text is always the code of the first n_points points given. |
| `Polylines.Polyline.Length` | polyline.c:115-117 | The number of points in the text; fewer than given only when the buffer is nearly full. |
| `Slabs.RegionsDisjoint` | slab.c:92-106 | Every allocation lies within one slab, and no two overlap between releases. |
| `Slabs.GivenDisjoint` | slab.c:92-106 | The same for the addresses handed out. |
| `Slabs.Replay` | slab.c:80-106 | The same series of sizes gets the same addresses again from the same or a longer chain. |
| `Slabs.Forward` | slab.c:96-104 | The position in the chain only moves forward between releases. |
| `Slabs.Allocator.constructor` | slab.c:58-64 | One slab of the size asked for, or of the default size. |
| `Slabs.Allocator.NewSlab` | slab.c:37-50 | Appends a fresh slab and moves to its start. |
| `Slabs.Allocator.MoveOn` | slab.c:97-101 | Goes to the next slab, adding one only at the end of the chain. |
| `Slabs.Allocator.Alloc` | slab.c:92-106 | Hands out the place that the series of sizes determines, refuses what exceeds a slab, never drops a slab, and adds none while an earlier series is replayed. |
| `Slabs.Allocator.Free` | slab.c:80-90 | Takes all regions back and keeps every slab. |
| `Heaps.SlotUp` | binheap.c:79-82 | Moving a parent down keeps the heap in order but for the free slot. |
| `Heaps.SlotDown` | binheap.c:94-101 | Moving the lesser child up keeps the heap in order but for the free slot. |
| `Heaps.RootIsLeast` | binheap.c:36-45 | The root is a minimum. |
| `Heaps.DrainSorts` | binheap.c:87-105 | Draining yields everything that was in the heap in non-decreasing order. |
| `Heaps.BinHeap.PeekMin` | binheap.c:36-45 | An item of the heap that none precedes. |
| `Heaps.BinHeap.Resize` | binheap.c:59-73 | Growing keeps every slot. |
| `Heaps.BinHeap.Insert` | binheap.c:75-85 | Exactly the new item is added; the heap doubles when full. |
| `Heaps.BinHeap.ExtractMin` | binheap.c:87-105 | Exactly one minimal item is removed and its element returned; nothing from an empty heap. |
| `Heaps.BinHeap.Reset` | binheap.c:57-57 | Empties the heap. |
| `HashGrids.BinOf` | hashgrid.c:24-36 | Every coordinate falls into a row and column of the grid. |
| `HashGrids.BinIs` | hashgrid.c:24-36 | On each axis the bin is the number of whole bin sizes from zero, whatever the sign, wrapped around the grid. |
| `HashGrids.MembersAre` | hashgrid.c:168-176 | The items of a bin are exactly those whose coordinates fall into it, ascending. |
| `HashGrids.StartGrows` | hashgrid.c:158-167 | The slices of different bins do not overlap. |
| `HashGrids.BinsCover` | hashgrid.c:158-167 | All slices together cover the items. |
| `HashGrids.NextPlace` | hashgrid.c:171-175 | The next place of a bin lies within its own slice and in no other bin's part. |
| `HashGrids.EachItemOnce` | hashgrid.c:168-176 | The items are a permutation of all item numbers, each in the slice of its own bin. |
| `HashGrids.HashGrid.constructor` | hashgrid.c:134-177 | Each bin is a slice of the items with exactly its own items in ascending order. |
| `HashGrids.HashGrid.ItemsOnce` | hashgrid.c:134-177 | In a finished grid each item is found in its own bin and nowhere else. |
| `HashGrids.HashGrid.Count` | hashgrid.c:153-157 | Counts the items of each bin. |
| `HashGrids.HashGrid.Place` | hashgrid.c:158-167 | Gives each bin its slice and resets the counts. |
| `HashGrids.HashGrid.Fill` | hashgrid.c:168-176 | Puts each item in the next place of its bin. |

## Left out

Of the router:

- Starting on board a trip, rendering plans as text, random requests, and dumps.
- Banned trips, and the half of hard-banned stops that would skip the stop: the
  `continue` at router.c:517 and router.c:577 binds to the inner loop, so a banned
  trip is still considered and boarding at a hard-banned stop stays possible. The
  model does the same.
- Cancelled trips from feed to plan: a stored cancellation is shifted by two bits
  and never seen by the router's test.
- The return value of the plan checker, which always fails for want of braces at
  router.c:741-747; its single conditions are the specification in `Plans`.
- Walks are not tested against the time cutoff, here as in the original, and
  nothing is claimed about them.
- Realtime updates: delays take part in stop times, but applying a feed is not modelled.
- Bit masks and the router's two bitsets are sets of positions; the router's
  iteration over them goes through `Bitsets.NextMember`, which the class
  `Bitsets.BitSet` is proved to compute on 64-bit words.
- Slices of the flat timetable arrays are sequences; offsets are not modelled.
- Walking speed is a real number; rounding of floating-point division is not modelled.

Contracts that are weaker than one could wish:

- Optimality.TargetIsMinimum: holds under `Ideals.Ideal`; without FIFO trips, dwell-free stops and transitively closed footpaths the code does not compute the minimum.
- Optimality.TargetLabelsArePareto: the same conditions.
- Routers.Router.Route: searches that start on board a trip are left out.
- Reversals.Reversal: the same; the original does not reverse them.
- Reversals.ReversalNeverLoses: asks for the ideal conditions in both directions and symmetric footpaths; when the label lies beyond a cutoff given with the request, that the search back finds a label is shown from a journey that can be travelled back but not the other way round.
- Reversals.Compression: the same conditions, and at least one round; beyond such a cutoff, departing in time is shown from keeping the number of rides but not the other way round.
- TimetableWriter.StoredWithinRange: says nothing of a final departure later than the final arrival, which can lie outside the range.
- CompiledTimetables.CompiledIsSound: asks of the feed that times never decrease along a trip and stay within the three days that 16 bits tell apart; that the ranges bound boarding times is shown for trips without delay.
- CompiledTimetables.CompileTimetable: the database's list of all trips by first departure is a parameter, of which only the order is used; the attributes of trips, modes, agencies and names are not compiled, so that their numbers are not among those that must fit.

Of the other parts:

- RadixTrees.Edge.InsertRest: the jumps back to the top of the source's loop are calls in tail position.
- Joining edges of a radix tree after loading (it does not end for some trees, and is not used), and loading from a file.
- The database queries of the compiler, and limiting the number of trips.
- The timetable file's layout, its offsets, and its other segments: coordinates, names, transfers, trip attributes.
- HashGrid queries, which skip the first item of the first bin and return slot 0 of empty bins; and the geometry behind bin sizes. The one 32-bit quotient that overflows, of the least integer by -1, is not modelled.
- JsonWriters.WriteDocument: printed numbers are texts no longer than the width the writer reserves for their kind; a floating-point number too long for it is not modelled. Calls that do not nest as a document are not modelled.
- Polylines.Polyline.Point: coordinates are real numbers; rounding of their differences is not modelled.
- Polylines for the legs of a plan, which only pass points on.
- Priorities of the heap are ranks in the order of floating-point numbers; NaN is not modelled, and neither is a capacity beyond 32 bits.
- The failure of memory allocation, and giving slabs back to the system.
- Interrupted sockets, and a worker's reply to a request of the wrong length, which is a reply like any other here.
- The remaining programs and structures of the repository, which would only add easy members or are defective: tries, integer sets, lists, query strings, parsing, profiling, the trip planner interface and drawing.
