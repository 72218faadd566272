/** The data the monitor works on: availability rows returned by the search
    service, the route configuration searched, and the tagged results. */
module Records {
  import opened Wrappers

  /** The nested `Route` object of an availability row; each key may be missing. */
  datatype RouteInfo = RouteInfo(
    source: Option<string>,
    originAirport: Option<string>,
    destinationAirport: Option<string>)

  /** One availability row as the search service returns it. Every key may be
      missing (or null); `None` stands for both. */
  datatype Record = Record(
    route: Option<RouteInfo>,
    date: Option<string>,
    jAvailable: Option<bool>,
    jRemainingSeats: Option<int>,
    jMileageCost: Option<int>,
    jAirlines: Option<string>,
    jDirect: Option<bool>)

  /** One sub-rule of a route's preferences: the row must leave from one of
      `origins`, arrive at one of `destinations` and, when `airlines` is not
      empty, be flown by one of `airlines`. */
  datatype RoutePreference = RoutePreference(
    origins: seq<string>,
    destinations: seq<string>,
    airlines: seq<string>)

  /** One configured search and the criteria its rows must meet. */
  datatype RouteSpec = RouteSpec(
    name: string,
    origins: seq<string>,
    destinations: seq<string>,
    airlines: Option<seq<string>>,
    maxMiles: int,
    directOnly: bool,
    routePreferences: Option<seq<RoutePreference>>)

  /** The routes searched for one loyalty program. */
  datatype ProgramRoutes = ProgramRoutes(program: string, routes: seq<RouteSpec>)

  /** A named date window and the programs searched in it. */
  datatype Period = Period(name: string, startDate: string, endDate: string, programs: seq<ProgramRoutes>)

  /** The whole search configuration, in the order it is searched. */
  type Config = seq<Period>

  /** A qualifying row, tagged with the period, program and route that found it. */
  datatype MatchResult = MatchResult(
    period: string,
    program: string,
    routeName: string,
    origin: string,
    destination: string,
    date: string,
    miles: int,
    seats: int,
    airlines: string,
    isDirect: bool)

  // Field reads with the defaults the monitor uses for a missing key.

  function SourceOf(r: Record): string {
    if r.route.Some? then r.route.value.source.GetOr("") else ""
  }

  function OriginOf(r: Record): string {
    if r.route.Some? then r.route.value.originAirport.GetOr("") else ""
  }

  function DestinationOf(r: Record): string {
    if r.route.Some? then r.route.value.destinationAirport.GetOr("") else ""
  }

  function DateOf(r: Record): string { r.date.GetOr("") }

  /** Truthiness of `JAvailable`: a missing flag counts as not available. */
  predicate IsAvailable(r: Record) { r.jAvailable.GetOr(false) }

  function SeatsOf(r: Record): int { r.jRemainingSeats.GetOr(0) }

  /** `int(JMileageCost or 0)`: a missing, null or zero cost reads as 0. */
  function MilesOf(r: Record): (m: int)
    ensures r.jMileageCost.None? ==> m == 0
    ensures r.jMileageCost.Some? ==> m == r.jMileageCost.value
  {
    match r.jMileageCost
    case None => 0
    case Some(c) => if c == 0 then 0 else c
  }

  function AirlinesOf(r: Record): string { r.jAirlines.GetOr("") }

  predicate IsDirect(r: Record) { r.jDirect.GetOr(false) }
}
