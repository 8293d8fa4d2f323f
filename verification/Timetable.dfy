/** The timetable the router searches: the compiled tables of tdata, with every
    offset-delimited slice of a flat array written as a sequence. */
module Timetables {
  import opened Rtime

  /** An unsigned bit field, as the set of positions of its set bits. */
  type Mask = set<nat>

  /** The bitwise conjunction of two fields is not zero. */
  predicate Meets(a: Mask, b: Mask) { !(a !! b) }

  datatype StopTime = StopTime(arrival: RTime, departure: RTime)

  /** A vehicle journey: a time demand type shifted by a begin time. */
  datatype Trip = Trip(
    times: seq<StopTime>, begin: RTime, delay: int, active: Mask, attributes: Mask)

  /** A route in the RAPTOR sense: all trips that share one sequence of stops. */
  datatype Route = Route(
    stops: seq<nat>, stopAttributes: seq<Mask>, trips: seq<Trip>,
    attributes: Mask, agency: nat, active: Mask, minTime: RTime, maxTime: RTime)

  /** A footpath; the distance is in units of 16 metres. */
  datatype Transfer = Transfer(target: nat, distance: nat)

  datatype Stop = Stop(routes: seq<nat>, transfers: seq<Transfer>)

  datatype Timetable = Timetable(stops: seq<Stop>, routes: seq<Route>)

  // Bit positions of the stop attributes rsa_boarding (2) and rsa_alighting (4).
  const RSA_BOARDING: nat := 1
  const RSA_ALIGHTING: nat := 2

  /** Counts are 32-bit and leave room for a bitset's last chunk. */
  const MAX_COUNT: nat := 0xFFFF_FFBF

  /** Every index stays inside the table it points into. */
  predicate WellFormed(td: Timetable) {
    && |td.stops| <= MAX_COUNT && |td.routes| <= MAX_COUNT
    && (forall s | 0 <= s < |td.stops| :: StopInBounds(td, td.stops[s]))
    && (forall r | 0 <= r < |td.routes| :: RouteInBounds(td, td.routes[r]))
  }

  predicate StopInBounds(td: Timetable, stop: Stop) {
    && (forall i | 0 <= i < |stop.routes| :: stop.routes[i] < |td.routes|)
    && (forall i | 0 <= i < |stop.transfers| ::
          stop.transfers[i].target < |td.stops| && stop.transfers[i].distance < 256)
  }

  predicate RouteInBounds(td: Timetable, route: Route) {
    && |route.stopAttributes| == |route.stops| && |route.trips| < 0x1_0000
    && (forall p | 0 <= p < |route.stops| :: route.stops[p] < |td.stops|)
    && (forall t | 0 <= t < |route.trips| :: |route.trips[t].times| == |route.stops|)
  }
}
