/** Answering a request: search, compress by reversal, and read the plan. */
module Workers {
  import opened Rtime
  import opened Timetables
  import opened Journeys
  import opened Search
  import opened Ideals
  import opened Rounds
  import opened Optimality
  import opened Routers
  import opened Plans
  import opened Reversals
  import Travel

  /** No stop has two footpaths to the same stop. */
  predicate DistinctTargets(td: Timetable) {
    forall s, i, k | 0 <= s < |td.stops| && 0 <= i < k < |td.stops[s].transfers| ::
      td.stops[s].transfers[i].target != td.stops[s].transfers[k].target
  }

  /** Then every footpath is the fastest to its stop. */
  lemma DistinctFootpaths(q: Query)
    requires DistinctTargets(q.td)
    ensures FastestFirst(q)
  {}

  /** Every run after the first has a round if the first has one. */
  lemma {:induction false} AllHaveRounds(runs: seq<Run>, i: nat)
    requires i < |runs| && RoundCount(runs[0].q.req) > 0
    requires forall i, k | 0 <= i < |runs| && k == i + 1 < |runs| :: ReversalOf(runs[i], runs[k])
    ensures RoundCount(runs[i].q.req) > 0
  {
    if i == 0 {
    } else {
      AllHaveRounds(runs, i - 1);
      assert ReversalOf(runs[i - 1], runs[i]);
    }
  }

  /** What the worker does with a request.  The plan is read from the last search:
      one itinerary for each of its labels.  Reading never fails when the request
      allows a round at all. */
  method Respond(router: Router, request: Request, realtimeMask: Mask) returns (plan: seq<Itinerary>, ok: bool, ghost runs: seq<Run>)
    requires WellFormed(router.td) && router.Sized()
    requires request.from < |router.td.stops| && request.to < |router.td.stops| && request.walkSpeed > 0.0
    modifies router, router.bestTime, router.states
    ensures |runs| == (if request.arriveBy then 2 else 3) && runs[0].q.req == request
    ensures forall i | 0 <= i < |runs| :: Finished(runs[i], router.td, realtimeMask)
    ensures forall i, k | 0 <= i < |runs| && k == i + 1 < |runs| :: ReversalOf(runs[i], runs[k])
    ensures RoundCount(request) > 0 ==> ok
    ensures ok ==> PlanRead(runs[|runs| - 1], plan)
    ensures ok ==> Presentable(runs[|runs| - 1].q, plan)
    ensures forall i | 0 <= i < |runs| ::
              SameWishes(runs[i].q.req, request) && WalksLast(runs[i].q.walks, request.walkSpeed, request.walkSlack)
    ensures ok ==> forall i | 0 <= i < |plan| ::
              ItineraryMeans(runs[|runs| - 1].q, plan[i]) && AsAllowed(runs[|runs| - 1].q, plan[i]) && HonoursBans(request, plan[i])
    ensures ok && RidesAdvance(runs[|runs| - 1].q) && (FastestFirst(runs[|runs| - 1].q) || DistinctTargets(router.td)) ==>
              forall i | 0 <= i < |plan| :: Connects(runs[|runs| - 1].q, plan[i])
  {
    hide WellFormed, Settled, Recorded, RidesAdvance, FastestFirst, DistinctTargets, Presentable, Connects, ItineraryMeans,
         AsAllowed, HonoursBans, WalksLast;
    var req;
    req, runs := Reversal(router, request, realtimeMask);
    ghost var last := runs[|runs| - 1];
    RunSettled(last, router.td, realtimeMask);
    plan, ok := ResultToPlan(router, QueryFor(router.td, req, realtimeMask), RoundCount(req));
    if RoundCount(request) > 0 { AllHaveRounds(runs, |runs| - 1); }
    forall i | 0 <= i < |runs| ensures WalksLast(runs[i].q.walks, request.walkSpeed, request.walkSlack) {
      RunWalks(runs[i], router.td, realtimeMask);
    }
    if ok {
      PlanPresentable(last, plan, router.td, realtimeMask);
      forall i | 0 <= i < |plan| ensures AsAllowed(last.q, plan[i]) && HonoursBans(request, plan[i]) {
        ItineraryAllowed(last, plan[i], router.td, realtimeMask);
        BansHonoured(last.q, request, plan[i]);
      }
    }
  }

  /** Every ride of the itinerary is one that the request allows. */
  ghost predicate AsAllowed(q: Query, itin: Itinerary) {
    forall l | 0 <= l < |itin.legs| && l % 2 == 1 :: AllowedLeg(q, itin.legs[l])
  }

  ghost predicate AllowedLeg(q: Query, leg: Leg) {
    exists lift: Travel.Lift :: RideLegIs(q, leg, lift) && Travel.Allows(q, lift)
  }

  /** No ride is on the banned route, and no change is made at the banned stop. */
  predicate HonoursBans(request: Request, itin: Itinerary) {
    && (request.nBannedRoutes > 0 ==>
          forall l | 0 <= l < |itin.legs| && l % 2 == 1 :: itin.legs[l].route != request.bannedRoute)
    && (request.nBannedStops > 0 ==>
          forall l, m | 0 < l < |itin.legs| && m == l + 2 < |itin.legs| && l % 2 == 1 ::
            !(itin.legs[l].s1 == request.bannedStop == itin.legs[m].s0))
  }

  lemma ItineraryAllowed(run: Run, itin: Itinerary, td: Timetable, realtimeMask: Mask)
    requires Finished(run, td, realtimeMask) && ItineraryMeans(run.q, itin)
    ensures AsAllowed(run.q, itin)
  {
    hide WellFormed, Settled, Recorded, Permitted, Travel.Allows, RideLegIs, WalkLegIs, FirstLegIs;
    forall l | 0 <= l < |itin.legs| && l % 2 == 1 ensures AllowedLeg(run.q, itin.legs[l]) {
      assert IsRide(run.q, itin.legs[l]);
      var ride :| LegRides(run.q, itin.legs[l], ride);
      Travel.PermittedExactly(run.q, realtimeMask, ride);
    }
  }

  lemma BansHonoured(q: Query, request: Request, itin: Itinerary)
    requires SameWishes(q.req, request) && ItineraryMeans(q, itin) && AsAllowed(q, itin)
    ensures HonoursBans(request, itin)
  {
    hide WellFormed, Permitted, WalkLegIs, FirstLegIs;
    forall l | 0 <= l < |itin.legs| && l % 2 == 1 && request.nBannedRoutes > 0 ensures itin.legs[l].route != request.bannedRoute {
      assert AllowedLeg(q, itin.legs[l]);
    }
    forall l, m | 0 < l < |itin.legs| && m == l + 2 < |itin.legs| && l % 2 == 1 && request.nBannedStops > 0
      ensures !(itin.legs[l].s1 == request.bannedStop == itin.legs[m].s0)
    {
      assert IsRide(q, itin.legs[l]) && IsRide(q, itin.legs[m]);
    }
  }

  lemma RunWalks(run: Run, td: Timetable, realtimeMask: Mask)
    requires Finished(run, td, realtimeMask)
    ensures WalksLast(run.q.walks, run.q.req.walkSpeed, run.q.req.walkSlack)
  {
    hide WellFormed, Settled, Recorded, WalksLast, WalkTimes;
    WalkTimesLast(run.q.req.walkSpeed, run.q.req.walkSlack);
  }

  ghost predicate PlanRead(run: Run, plan: seq<Itinerary>) {
    && |run.rows| == MAX_ROUNDS && (forall i | 0 <= i < MAX_ROUNDS :: Target(run.q.req) < |run.rows[i]|)
    && PlanOf(run.q, run.rows, MAX_ROUNDS, plan)
  }

  /** Every itinerary joins the places asked for, in order but for rides that go back
      in time and slow first walks, and more rides pay off. */
  predicate Presentable(q: Query, plan: seq<Itinerary>) {
    && (forall i | 0 <= i < |plan| :: ConnectsExactly(q, plan[i]))
    && (forall i, k | 0 <= i < k < |plan| :: Pareto(q, plan[i], plan[k]))
  }

  lemma RunSettled(run: Run, td: Timetable, realtimeMask: Mask)
    requires Finished(run, td, realtimeMask)
    ensures run.q.td == td && Settled(run.q, RoundCount(run.q.req), run.rows, run.best)
    ensures |run.rows| == MAX_ROUNDS && forall i | 0 <= i < MAX_ROUNDS :: Target(run.q.req) < |run.rows[i]|
  {
    FinishedShape(run, td, realtimeMask);
  }

  lemma PlanPresentable(run: Run, plan: seq<Itinerary>, td: Timetable, realtimeMask: Mask)
    requires Finished(run, td, realtimeMask) && PlanRead(run, plan)
    ensures Presentable(run.q, plan) && forall i | 0 <= i < |plan| :: ItineraryMeans(run.q, plan[i])
    ensures RidesAdvance(run.q) && (FastestFirst(run.q) || DistinctTargets(td)) ==>
              forall i | 0 <= i < |plan| :: Connects(run.q, plan[i])
  {
    hide WellFormed, Settled, Recorded, RidesAdvance, FastestFirst, DistinctTargets, RidesInOrder, FirstInOrder, Joins, Chained,
         ItineraryMeans;
    if DistinctTargets(td) { DistinctFootpaths(run.q); }
    PlanInvariants(run.q, RoundCount(run.q.req), run.rows, run.best, plan);
  }

  /** A label at the target has its itinerary in the plan. */
  lemma LabelInPlan(run: Run, plan: seq<Itinerary>, td: Timetable, realtimeMask: Mask, r: nat) returns (i: nat)
    requires Finished(run, td, realtimeMask) && PlanRead(run, plan)
    requires r < MAX_ROUNDS && run.rows[r][Target(run.q.req)].walkTime != UNREACHED
    ensures i < |plan| && ConnectsExactly(run.q, plan[i]) && ItineraryMeans(run.q, plan[i]) && plan[i].nRides == r + 1 && |plan[i].legs| == 2 * r + 3
    ensures TargetTime(run.q, plan[i]) == run.rows[r][Target(run.q.req)].walkTime
    ensures RidesAdvance(run.q) ==> RidesInOrder(plan[i].legs)
    ensures FastestFirst(run.q) ==> FirstInOrder(run.q, plan[i].legs)
  {
    hide WellFormed, Recorded, Settled, RidesAdvance, FastestFirst, ConnectsExactly, ItineraryMeans, RidesInOrder, FirstInOrder,
         ItinerariesFor;
    var rounds := LabelledRounds(run.rows, Target(run.q.req), MAX_ROUNDS);
    assert r in rounds;
    i :| 0 <= i < |rounds| && rounds[i] == r;
    assert |plan| == |rounds| by { PlanSize(run, plan); }
    PlanItem(run.q, run.rows, plan, i);
  }

  lemma PlanSize(run: Run, plan: seq<Itinerary>)
    requires PlanRead(run, plan)
    ensures |plan| == |LabelledRounds(run.rows, Target(run.q.req), MAX_ROUNDS)|
  {}

  /** The answer to a depart-after request: some itinerary of the plan arrives no
      later than anything the first search found, and departs no earlier than asked
      (for fewest transfers, provided the second search kept the number of rides). */
  lemma AnswerDepartAfter(runs: seq<Run>, td: Timetable, realtimeMask: Mask, r0: nat, plan: seq<Itinerary>) returns (i: nat)
    requires |runs| == 3 && forall k | 0 <= k < 3 :: Finished(runs[k], td, realtimeMask) && Ideal(runs[k].q) && Symmetric(runs[k].q)
    requires ReversalOf(runs[0], runs[1]) && ReversalOf(runs[1], runs[2]) && PlanRead(runs[2], plan)
    requires !runs[0].q.req.arriveBy && RoundCount(runs[0].q.req) > 0 && ChosenLabel(runs[0], r0)
    requires Returns(runs[0].q, r0 + 1, runs[0].rows[r0][runs[0].q.req.to].walkTime)
    ensures i < |plan| && plan[i].legs != [] && ConnectsExactly(runs[|runs| - 1].q, plan[i])
    ensures FirstInOrder(runs[|runs| - 1].q, plan[i].legs) || FastestFirst(runs[|runs| - 1].q) ==> Chained(plan[i].legs)
    ensures plan[i].legs[0].s0 == runs[0].q.req.from && plan[i].legs[|plan[i].legs| - 1].s1 == runs[0].q.req.to
    ensures plan[i].legs[|plan[i].legs| - 1].t1 <= runs[0].rows[r0][runs[0].q.req.to].walkTime
    ensures runs[2].q.req.maxTransfers == runs[1].q.req.maxTransfers || !runs[0].q.req.fewestTransfers ==>
              runs[0].q.req.time <= plan[i].legs[0].t0
  {
    hide WellFormed, Recorded, Settled, RidesAdvance, Returns, Ideal, Symmetric, Finished, ReversalOf, Chained, Linked, RidesInOrder, FirstInOrder, FastestFirst, PlanOf;
    var k, found := Compression(runs, td, realtimeMask, r0);
    IdealParts(runs[2].q);
    AtMostSix(runs[2].q.req);
    i := LabelInPlan(runs[2], plan, td, realtimeMask, found);
  }

  /** The answer to an arrive-by request: some itinerary of the plan departs no
      earlier than anything the first search found, and arrives no later than asked. */
  lemma AnswerArriveBy(runs: seq<Run>, td: Timetable, realtimeMask: Mask, r0: nat, plan: seq<Itinerary>) returns (i: nat)
    requires |runs| == 2 && forall k | 0 <= k < 2 :: Finished(runs[k], td, realtimeMask) && Ideal(runs[k].q) && Symmetric(runs[k].q)
    requires ReversalOf(runs[0], runs[1]) && PlanRead(runs[1], plan)
    requires runs[0].q.req.arriveBy && RoundCount(runs[0].q.req) > 0 && ChosenLabel(runs[0], r0)
    ensures i < |plan| && plan[i].legs != [] && ConnectsExactly(runs[|runs| - 1].q, plan[i])
    ensures FirstInOrder(runs[|runs| - 1].q, plan[i].legs) || FastestFirst(runs[|runs| - 1].q) ==> Chained(plan[i].legs)
    ensures plan[i].legs[0].s0 == runs[0].q.req.from && plan[i].legs[|plan[i].legs| - 1].s1 == runs[0].q.req.to
    ensures plan[i].legs[0].t0 == runs[0].rows[r0][runs[0].q.req.from].walkTime
    ensures plan[i].legs[|plan[i].legs| - 1].t1 <= runs[0].q.req.time
  {
    hide WellFormed, Recorded, Settled, RidesAdvance, Returns, Ideal, Symmetric, Chained, Linked, RidesInOrder, FirstInOrder, FastestFirst, PlanOf;
    OneChosenLabel(runs[0]);
    FinishedShape(runs[0], td, realtimeMask);
    BackwardReturns(runs[0], td, realtimeMask, r0);
    var found := OnceReversed(runs[0], runs[1], td, realtimeMask, r0);
    IdealParts(runs[1].q);
    AtMostSix(runs[1].q.req);
    i := LabelInPlan(runs[1], plan, td, realtimeMask, found);
  }

  lemma AtMostSix(req: Request)
    ensures RoundCount(req) <= MAX_ROUNDS
  {}
}
