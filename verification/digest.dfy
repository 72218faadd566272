/** The "flights found" message: results grouped by period and then program,
    each group sorted by (date, miles), each group's flights sub-grouped by
    route name with at most five listed per route and the rest summarised.
    The message is modelled as a list of structured lines, not as text. */
module Digest {
  import opened Wrappers
  import opened Records
  import opened Ordering
  import opened Grouping

  /** Most flights listed under one route name. */
  const MaxFlightsPerRoute: nat := 5

  datatype Line =
    | FoundHeader(now: int)                                  // title and timestamp
    | PeriodHeader(period: string)                           // one per period
    | ProgramHeader(period: string, program: string, count: nat)  // "<PROGRAM>: <count> found"
    | RouteHeader(routeName: string)                         // one per route name
    | FlightLine(flight: MatchResult)                        // one listed flight
    | MoreLine(remaining: nat)                               // "... and <remaining> more flights"

  /** The results of one (period, program) group, in input order. */
  function Keyed(rs: seq<MatchResult>, period: string, program: string): seq<MatchResult> {
    Select(Select(rs, ByPeriod, period), ByProgram, program)
  }

  /** The programs of one period, in order of first appearance. */
  function ProgramKeys(rs: seq<MatchResult>, period: string): seq<string> {
    Keys(Select(rs, ByPeriod, period), ByProgram)
  }

  function Min(a: nat, b: nat): nat { if a <= b then a else b }

  function FlightLines(fs: seq<MatchResult>): seq<Line>
    decreases |fs|
  {
    if fs == [] then [] else FlightLines(fs[..|fs| - 1]) + [FlightLine(fs[|fs| - 1])]
  }

  /** One route's section: its header, its first five flights and, when it
      has more, one line with how many were left out. */
  function RouteLines(name: string, fs: seq<MatchResult>): seq<Line> {
    [RouteHeader(name)] + FlightLines(fs[..Min(MaxFlightsPerRoute, |fs|)])
      + (if |fs| > MaxFlightsPerRoute then [MoreLine(|fs| - MaxFlightsPerRoute)] else [])
  }

  function RoutesLines(fs: seq<MatchResult>, names: seq<string>): seq<Line>
    decreases |names|
  {
    if names == [] then []
    else RoutesLines(fs, names[..|names| - 1]) + RouteLines(names[|names| - 1], Select(fs, ByRoute, names[|names| - 1]))
  }

  /** One program's section: its header with the group size, then its routes
      in order of first appearance. */
  function ProgramLines(period: string, program: string, fs: seq<MatchResult>): seq<Line> {
    [ProgramHeader(period, program, |fs|)] + RoutesLines(fs, Keys(fs, ByRoute))
  }

  function ProgramsLines(rs: seq<MatchResult>, period: string, programs: seq<string>): seq<Line>
    decreases |programs|
  {
    if programs == [] then []
    else
      var q := programs[|programs| - 1];
      ProgramsLines(rs, period, programs[..|programs| - 1]) + ProgramLines(period, q, SortByDateMiles(Keyed(rs, period, q)))
  }

  function PeriodLines(rs: seq<MatchResult>, period: string): seq<Line> {
    [PeriodHeader(period)] + ProgramsLines(rs, period, ProgramKeys(rs, period))
  }

  function PeriodsLines(rs: seq<MatchResult>, periods: seq<string>): seq<Line>
    decreases |periods|
  {
    if periods == [] then []
    else PeriodsLines(rs, periods[..|periods| - 1]) + PeriodLines(rs, periods[|periods| - 1])
  }

  /** The whole message for a non-empty result list. */
  function FoundLines(rs: seq<MatchResult>, now: int): seq<Line> {
    [FoundHeader(now)] + PeriodsLines(rs, Keys(rs, ByPeriod))
  }

  // ---------------------------------------------------------------------
  // The imperative construction, following the source's loops.

  lemma LinesAssociative(a: seq<Line>, b: seq<Line>, c: seq<Line>)
    ensures (a + b) + c == a + (b + c)
  {
  }

  /** The period keys and each period's program keys after the first pass over `rs`. */
  ghost predicate KeysIndexed(rs: seq<MatchResult>, periods: seq<string>, programsOf: map<string, seq<string>>) {
    && periods == Keys(rs, ByPeriod)
    && (forall p :: p in programsOf <==> p in periods)
    && (forall p :: p in programsOf ==> programsOf[p] == ProgramKeys(rs, p))
  }

  /** Each (period, program) list after the first pass over `rs`. */
  ghost predicate ListsIndexed(rs: seq<MatchResult>, programsOf: map<string, seq<string>>,
                               groups: map<(string, string), seq<MatchResult>>) {
    && (forall k :: k in groups <==> k.0 in programsOf && k.1 in programsOf[k.0])
    && (forall k :: k in groups ==> groups[k] == Keyed(rs, k.0, k.1))
  }

  /** The grouping dictionaries after the first pass over `rs`: the period
      keys, each period's program keys, and each (period, program) list. */
  ghost predicate GroupedAs(rs: seq<MatchResult>, periods: seq<string>,
                            programsOf: map<string, seq<string>>,
                            groups: map<(string, string), seq<MatchResult>>)
  {
    KeysIndexed(rs, periods, programsOf) && ListsIndexed(rs, programsOf, groups)
  }

  lemma KeyedSnoc(rs: seq<MatchResult>, m: MatchResult, p: string, q: string)
    ensures Keyed(rs + [m], p, q) == Keyed(rs, p, q) + (if m.period == p && m.program == q then [m] else [])
  {
    SelectSnoc(rs, m, ByPeriod, p);
    var s := Select(rs, ByPeriod, p);
    if m.period == p {
      assert Select(rs + [m], ByPeriod, p) == s + [m];
      SelectSnoc(s, m, ByProgram, q);
      assert Select(s, ByProgram, q) + [] == Select(s, ByProgram, q);
    } else {
      assert Select(rs + [m], ByPeriod, p) == s;
      assert Keyed(rs, p, q) + [] == Keyed(rs, p, q);
    }
  }

  lemma ProgramKeysSnoc(rs: seq<MatchResult>, m: MatchResult, p: string)
    ensures ProgramKeys(rs + [m], p) ==
      if m.period != p then ProgramKeys(rs, p)
      else if m.program in ProgramKeys(rs, p) then ProgramKeys(rs, p)
      else ProgramKeys(rs, p) + [m.program]
  {
    SelectSnoc(rs, m, ByPeriod, p);
    var s := Select(rs, ByPeriod, p);
    if m.period == p {
      assert Select(rs + [m], ByPeriod, p) == s + [m];
      KeysSnoc(s, m, ByProgram);
    } else {
      assert Select(rs + [m], ByPeriod, p) == s;
    }
  }

  lemma NewKeyIsEmpty(rs: seq<MatchResult>, p: string, q: string)
    ensures p !in Keys(rs, ByPeriod) ==> ProgramKeys(rs, p) == [] && Keyed(rs, p, q) == []
    ensures q !in ProgramKeys(rs, p) ==> Keyed(rs, p, q) == []
  {
    KeysExact(rs, ByPeriod);
    KeysExact(Select(rs, ByPeriod, p), ByProgram);
  }

  /** Opening the period of `m` where needed keeps the period keys in order
      of first appearance. */
  lemma PeriodsStep(rs: seq<MatchResult>, m: MatchResult, periods: seq<string>, programsOf: map<string, seq<string>>,
                    periods': seq<string>, programsOf': map<string, seq<string>>)
    requires periods == Keys(rs, ByPeriod)
    requires forall p :: p in programsOf <==> p in periods
    requires periods' == if m.period in programsOf then periods else periods + [m.period]
    requires programsOf'.Keys == programsOf.Keys + {m.period}
    ensures periods' == Keys(rs + [m], ByPeriod)
    ensures forall p :: p in programsOf' <==> p in periods'
  {
    KeysSnoc(rs, m, ByPeriod);
  }

  /** Opening the program of `m` where needed keeps each period's program
      keys in order of first appearance. */
  lemma ProgramsStep(rs: seq<MatchResult>, m: MatchResult, programsOf: map<string, seq<string>>,
                     programsOf': map<string, seq<string>>, before: seq<string>)
    requires forall p :: p in programsOf ==> programsOf[p] == ProgramKeys(rs, p)
    requires m.period !in programsOf ==> ProgramKeys(rs, m.period) == []
    requires before == if m.period in programsOf then programsOf[m.period] else []
    requires programsOf'.Keys == programsOf.Keys + {m.period}
    requires forall p :: p in programsOf && p != m.period ==> programsOf'[p] == programsOf[p]
    requires programsOf'[m.period] == if m.program in before then before else before + [m.program]
    ensures forall p :: p in programsOf' ==> programsOf'[p] == ProgramKeys(rs + [m], p)
  {
    forall p | p in programsOf' ensures programsOf'[p] == ProgramKeys(rs + [m], p) {
      ProgramKeysSnoc(rs, m, p);
    }
  }

  /** The (period, program) pairs that have a list follow the program keys. */
  lemma ListsDomainStep(m: MatchResult, programsOf: map<string, seq<string>>, programsOf': map<string, seq<string>>,
                        groups: map<(string, string), seq<MatchResult>>, groups': map<(string, string), seq<MatchResult>>)
    requires forall k :: k in groups <==> k.0 in programsOf && k.1 in programsOf[k.0]
    requires programsOf'.Keys == programsOf.Keys + {m.period}
    requires forall p :: p in programsOf && p != m.period ==> programsOf'[p] == programsOf[p]
    requires forall x :: x in programsOf'[m.period] <==> x == m.program || (m.period in programsOf && x in programsOf[m.period])
    requires groups'.Keys == groups.Keys + {(m.period, m.program)}
    ensures forall k :: k in groups' <==> k.0 in programsOf' && k.1 in programsOf'[k.0]
  {
  }

  /** Each list after the step is the filtered prefix extended by `m`. */
  lemma ListsValuesStep(rs: seq<MatchResult>, m: MatchResult,
                        groups: map<(string, string), seq<MatchResult>>, groups': map<(string, string), seq<MatchResult>>)
    requires forall k :: k in groups ==> groups[k] == Keyed(rs, k.0, k.1)
    requires (m.period, m.program) !in groups ==> Keyed(rs, m.period, m.program) == []
    requires groups'.Keys == groups.Keys + {(m.period, m.program)}
    requires forall k :: k in groups && k != (m.period, m.program) ==> groups'[k] == groups[k]
    requires groups'[(m.period, m.program)] == (if (m.period, m.program) in groups then groups[(m.period, m.program)] else []) + [m]
    ensures forall k :: k in groups' ==> groups'[k] == Keyed(rs + [m], k.0, k.1)
  {
    forall k | k in groups' ensures groups'[k] == Keyed(rs + [m], k.0, k.1) {
      KeyedSnoc(rs, m, k.0, k.1);
    }
  }

  /** Opens the period and the program of `m` on first sight. */
  method OpenKeys(ghost rs: seq<MatchResult>, m: MatchResult, periods: seq<string>,
                  programsOf: map<string, seq<string>>)
    returns (periods': seq<string>, programsOf': map<string, seq<string>>, newList: bool)
    requires KeysIndexed(rs, periods, programsOf)
    ensures KeysIndexed(rs + [m], periods', programsOf')
    ensures newList <==> !(m.period in programsOf && m.program in programsOf[m.period])
    ensures programsOf'.Keys == programsOf.Keys + {m.period}
    ensures forall p :: p in programsOf && p != m.period ==> programsOf'[p] == programsOf[p]
    ensures forall x :: x in programsOf'[m.period] <==>
      x == m.program || (m.period in programsOf && x in programsOf[m.period])
  {
    var p, q := m.period, m.program;
    NewKeyIsEmpty(rs, p, q);
    periods' := periods;
    var before: seq<string> := [];
    if p in programsOf {
      before := programsOf[p];
    } else {
      periods' := periods + [p];
    }
    newList := q !in before;
    if newList {
      programsOf' := programsOf[p := before + [q]];
    } else {
      programsOf' := programsOf[p := before];
    }
    PeriodsStep(rs, m, periods, programsOf, periods', programsOf');
    ProgramsStep(rs, m, programsOf, programsOf', before);
  }

  /** Appends `m` to its (period, program) list, opening it when `newList` holds. */
  method FileResult(ghost rs: seq<MatchResult>, m: MatchResult,
                    groups: map<(string, string), seq<MatchResult>>, newList: bool)
    returns (groups': map<(string, string), seq<MatchResult>>)
    requires forall k :: k in groups ==> groups[k] == Keyed(rs, k.0, k.1)
    requires newList <==> (m.period, m.program) !in groups
    requires newList ==> Keyed(rs, m.period, m.program) == []
    ensures groups'.Keys == groups.Keys + {(m.period, m.program)}
    ensures forall k :: k in groups' ==> groups'[k] == Keyed(rs + [m], k.0, k.1)
  {
    var k := (m.period, m.program);
    if newList {
      groups' := groups[k := [m]];
      assert groups'[k] == [] + [m];
    } else {
      groups' := groups[k := groups[k] + [m]];
    }
    ListsValuesStep(rs, m, groups, groups');
  }

  /** One step of the first pass: files `m` under its period and program,
      opening the period and the program on first sight. */
  method AddToGroups(ghost rs: seq<MatchResult>, m: MatchResult, periods: seq<string>,
                     programsOf: map<string, seq<string>>, groups: map<(string, string), seq<MatchResult>>)
    returns (periods': seq<string>, programsOf': map<string, seq<string>>,
             groups': map<(string, string), seq<MatchResult>>)
    requires KeysIndexed(rs, periods, programsOf)
    requires ListsIndexed(rs, programsOf, groups)
    ensures KeysIndexed(rs + [m], periods', programsOf')
    ensures ListsIndexed(rs + [m], programsOf', groups')
  {
    var newList;
    periods', programsOf', newList := OpenKeys(rs, m, periods, programsOf);
    NewKeyIsEmpty(rs, m.period, m.program);
    groups' := FileResult(rs, m, groups, newList);
    ListsDomainStep(m, programsOf, programsOf', groups, groups');
  }

  /** The first pass: the results grouped by period, then by program, each
      key in order of first appearance. */
  method GroupByPeriodAndProgram(rs: seq<MatchResult>)
    returns (periods: seq<string>, programsOf: map<string, seq<string>>,
             groups: map<(string, string), seq<MatchResult>>)
    ensures GroupedAs(rs, periods, programsOf, groups)
  {
    periods, programsOf, groups := [], map[], map[];
    for i := 0 to |rs|
      invariant KeysIndexed(rs[..i], periods, programsOf)
      invariant ListsIndexed(rs[..i], programsOf, groups)
    {
      periods, programsOf, groups := AddToGroups(rs[..i], rs[i], periods, programsOf, groups);
      assert rs[..i + 1] == rs[..i] + [rs[i]];
    }
    assert rs[..|rs|] == rs;
  }

  /** The second pass: every (period, program) list sorted by (date, miles). */
  method SortGroups(periods: seq<string>, programsOf: map<string, seq<string>>,
                    groups: map<(string, string), seq<MatchResult>>)
    returns (sorted: map<(string, string), seq<MatchResult>>)
    requires forall p :: p in programsOf <==> p in periods
    requires forall k :: k in groups <==> k.0 in programsOf && k.1 in programsOf[k.0]
    ensures sorted.Keys == groups.Keys
    ensures forall k :: k in sorted ==> sorted[k] == SortByDateMiles(groups[k])
  {
    sorted := map[];
    for i := 0 to |periods|
      invariant forall k :: k in sorted <==> k in groups && k.0 in periods[..i]
      invariant forall k :: k in sorted ==> sorted[k] == SortByDateMiles(groups[k])
    {
      var p := periods[i];
      var programs := programsOf[p];
      for j := 0 to |programs|
        invariant forall k :: k in sorted <==> k in groups && (k.0 in periods[..i] || (k.0 == p && k.1 in programs[..j]))
        invariant forall k :: k in sorted ==> sorted[k] == SortByDateMiles(groups[k])
      {
        assert programs[..j + 1] == programs[..j] + [programs[j]];
        sorted := sorted[(p, programs[j]) := SortByDateMiles(groups[(p, programs[j])])];
      }
      assert programs[..|programs|] == programs;
      assert periods[..i + 1] == periods[..i] + [p];
    }
    assert periods[..|periods|] == periods;
  }

  lemma RoutesLinesSnoc(fs: seq<MatchResult>, names: seq<string>, j: nat)
    requires j < |names|
    ensures RoutesLines(fs, names[..j + 1]) == RoutesLines(fs, names[..j]) + RouteLines(names[j], Select(fs, ByRoute, names[j]))
  {
    assert names[..j + 1][..j] == names[..j];
  }

  lemma FlightLinesSnoc(fs: seq<MatchResult>, l: nat)
    requires l < |fs|
    ensures FlightLines(fs[..l + 1]) == FlightLines(fs[..l]) + [FlightLine(fs[l])]
  {
    assert fs[..l + 1][..l] == fs[..l];
  }

  /** One route's section, listing at most five of its flights. */
  method RenderRoute(name: string, flights: seq<MatchResult>) returns (lines: seq<Line>)
    ensures lines == RouteLines(name, flights)
  {
    lines := [RouteHeader(name)];
    var shown := Min(MaxFlightsPerRoute, |flights|);
    for l := 0 to shown
      invariant lines == [RouteHeader(name)] + FlightLines(flights[..l])
    {
      FlightLinesSnoc(flights, l);
      LinesAssociative([RouteHeader(name)], FlightLines(flights[..l]), [FlightLine(flights[l])]);
      lines := lines + [FlightLine(flights[l])];
    }
    if |flights| > MaxFlightsPerRoute {
      lines := lines + [MoreLine(|flights| - MaxFlightsPerRoute)];
    }
  }

  /** Appending `f` to its route's list keeps every list equal to the
      route's flights so far. */
  lemma RouteListsStep(rs: seq<MatchResult>, f: MatchResult,
                       byRoute: map<string, seq<MatchResult>>, byRoute': map<string, seq<MatchResult>>)
    requires forall n :: n in byRoute ==> byRoute[n] == Select(rs, ByRoute, n)
    requires f.routeName !in byRoute ==> Select(rs, ByRoute, f.routeName) == []
    requires byRoute'.Keys == byRoute.Keys + {f.routeName}
    requires forall n :: n in byRoute && n != f.routeName ==> byRoute'[n] == byRoute[n]
    requires byRoute'[f.routeName] == (if f.routeName in byRoute then byRoute[f.routeName] else []) + [f]
    ensures forall n :: n in byRoute' ==> byRoute'[n] == Select(rs + [f], ByRoute, n)
  {
    forall n | n in byRoute' ensures byRoute'[n] == Select(rs + [f], ByRoute, n) {
      SelectSnoc(rs, f, ByRoute, n);
    }
  }

  /** The route names of `rs` in order of first appearance, each with its flights. */
  ghost predicate RoutesIndexed(rs: seq<MatchResult>, names: seq<string>, byRoute: map<string, seq<MatchResult>>) {
    && names == Keys(rs, ByRoute)
    && (forall n :: n in byRoute <==> n in names)
    && (forall n :: n in byRoute ==> byRoute[n] == Select(rs, ByRoute, n))
  }

  /** A route name not yet opened has no flights so far. */
  lemma RouteNewIsEmpty(rs: seq<MatchResult>, f: MatchResult, names: seq<string>, byRoute: map<string, seq<MatchResult>>)
    requires RoutesIndexed(rs, names, byRoute)
    ensures f.routeName !in byRoute ==> Select(rs, ByRoute, f.routeName) == []
  {
    KeysExact(rs, ByRoute);
  }

  /** Opening a route name on first sight keeps the names in first-appearance order. */
  lemma RouteNamesStep(rs: seq<MatchResult>, f: MatchResult, names: seq<string>, byRoute: map<string, seq<MatchResult>>,
                       names': seq<string>, byRoute': map<string, seq<MatchResult>>)
    requires RoutesIndexed(rs, names, byRoute)
    requires names' == if f.routeName in byRoute then names else names + [f.routeName]
    requires byRoute'.Keys == byRoute.Keys + {f.routeName}
    ensures names' == Keys(rs + [f], ByRoute)
    ensures forall n :: n in byRoute' <==> n in names'
  {
    KeysSnoc(rs, f, ByRoute);
  }

  /** Files one flight under its route name, opening the route on first sight. */
  method AddToRoute(ghost rs: seq<MatchResult>, f: MatchResult, names: seq<string>, byRoute: map<string, seq<MatchResult>>)
    returns (names': seq<string>, byRoute': map<string, seq<MatchResult>>)
    requires RoutesIndexed(rs, names, byRoute)
    ensures RoutesIndexed(rs + [f], names', byRoute')
  {
    RouteNewIsEmpty(rs, f, names, byRoute);
    if f.routeName !in byRoute {
      names' := names + [f.routeName];
      byRoute' := byRoute[f.routeName := [f]];
      assert byRoute'[f.routeName] == [] + [f];
    } else {
      names' := names;
      byRoute' := byRoute[f.routeName := byRoute[f.routeName] + [f]];
    }
    RouteNamesStep(rs, f, names, byRoute, names', byRoute');
    RouteListsStep(rs, f, byRoute, byRoute');
  }

  /** The route sub-grouping of one program's flights: route names in order
      of first appearance, each with its flights in order. */
  method GroupByRoute(flights: seq<MatchResult>) returns (names: seq<string>, byRoute: map<string, seq<MatchResult>>)
    ensures RoutesIndexed(flights, names, byRoute)
  {
    names, byRoute := [], map[];
    for i := 0 to |flights|
      invariant RoutesIndexed(flights[..i], names, byRoute)
    {
      names, byRoute := AddToRoute(flights[..i], flights[i], names, byRoute);
      assert flights[..i + 1] == flights[..i] + [flights[i]];
    }
    assert flights[..|flights|] == flights;
  }

  /** One program's section: the header with the group size, then the
      flights sub-grouped by route name. */
  method RenderProgram(period: string, program: string, flights: seq<MatchResult>) returns (lines: seq<Line>)
    ensures lines == ProgramLines(period, program, flights)
  {
    var names, byRoute := GroupByRoute(flights);
    var header := [ProgramHeader(period, program, |flights|)];
    lines := header;
    for j := 0 to |names|
      invariant lines == header + RoutesLines(flights, names[..j])
    {
      var section := RenderRoute(names[j], byRoute[names[j]]);
      RoutesLinesSnoc(flights, names, j);
      LinesAssociative(header, RoutesLines(flights, names[..j]), section);
      lines := lines + section;
    }
    assert names[..|names|] == names;
  }

  lemma ProgramsLinesSnoc(rs: seq<MatchResult>, period: string, programs: seq<string>, j: nat)
    requires j < |programs|
    ensures ProgramsLines(rs, period, programs[..j + 1]) ==
      ProgramsLines(rs, period, programs[..j]) + ProgramLines(period, programs[j], SortByDateMiles(Keyed(rs, period, programs[j])))
  {
    assert programs[..j + 1][..j] == programs[..j];
  }

  lemma PeriodsLinesSnoc(rs: seq<MatchResult>, periods: seq<string>, i: nat)
    requires i < |periods|
    ensures PeriodsLines(rs, periods[..i + 1]) == PeriodsLines(rs, periods[..i]) + PeriodLines(rs, periods[i])
  {
    assert periods[..i + 1][..i] == periods[..i];
  }

  /** One period's section: its header, then each of its programs. */
  method RenderPeriod(rs: seq<MatchResult>, period: string, programs: seq<string>,
                      sorted: map<(string, string), seq<MatchResult>>) returns (lines: seq<Line>)
    requires programs == ProgramKeys(rs, period)
    requires forall q :: q in programs ==> (period, q) in sorted && sorted[(period, q)] == SortByDateMiles(Keyed(rs, period, q))
    ensures lines == PeriodLines(rs, period)
  {
    var header := [PeriodHeader(period)];
    lines := header;
    for j := 0 to |programs|
      invariant lines == header + ProgramsLines(rs, period, programs[..j])
    {
      var section := RenderProgram(period, programs[j], sorted[(period, programs[j])]);
      ProgramsLinesSnoc(rs, period, programs, j);
      LinesAssociative(header, ProgramsLines(rs, period, programs[..j]), section);
      lines := lines + section;
    }
    assert programs[..|programs|] == programs;
  }

  /** Builds the "flights found" message: nothing for an empty result list,
      otherwise the grouped, sorted and truncated listing. */
  method CreateFoundMessage(rs: seq<MatchResult>, now: int) returns (msg: Option<seq<Line>>)
    ensures msg.None? <==> rs == []
    ensures msg.Some? ==> msg.value == FoundLines(rs, now)
  {
    if rs == [] {
      return None;
    }
    var periods, programsOf, groups := GroupByPeriodAndProgram(rs);
    var sorted := SortGroups(periods, programsOf, groups);
    var header := [FoundHeader(now)];
    var lines := header;
    for i := 0 to |periods|
      invariant lines == header + PeriodsLines(rs, periods[..i])
    {
      var p := periods[i];
      assert p in programsOf;
      var section := RenderPeriod(rs, p, programsOf[p], sorted);
      PeriodsLinesSnoc(rs, periods, i);
      LinesAssociative(header, PeriodsLines(rs, periods[..i]), section);
      lines := lines + section;
    }
    assert periods[..|periods|] == periods;
    return Some(lines);
  }

  // ---------------------------------------------------------------------
  // What the message says about the results.

  /** How many results a line stands for: a listed flight is one, a
      "... and N more flights" line is N, headers are none. */
  function LineWeight(l: Line): nat {
    match l
    case FlightLine(_) => 1
    case MoreLine(n) => n
    case _ => 0
  }

  function Weight(ls: seq<Line>): nat
    decreases |ls|
  {
    if ls == [] then 0 else Weight(ls[..|ls| - 1]) + LineWeight(ls[|ls| - 1])
  }

  lemma {:induction false} WeightAppend(a: seq<Line>, b: seq<Line>)
    ensures Weight(a + b) == Weight(a) + Weight(b)
    decreases |b|
  {
    if b == [] {
      assert a + b == a;
    } else {
      var b' := b[..|b| - 1];
      assert (a + b)[..|a + b| - 1] == a + b';
      WeightAppend(a, b');
    }
  }

  /** The flight lines list exactly the given flights, in order. */
  lemma {:induction false} FlightLinesExact(fs: seq<MatchResult>)
    ensures |FlightLines(fs)| == |fs|
    ensures forall i :: 0 <= i < |fs| ==> FlightLines(fs)[i] == FlightLine(fs[i])
    ensures Weight(FlightLines(fs)) == |fs|
    decreases |fs|
  {
    if fs != [] {
      FlightLinesExact(fs[..|fs| - 1]);
      assert FlightLines(fs)[..|fs| - 1] == FlightLines(fs[..|fs| - 1]);
    }
  }

  /** A route section lists the route's first five flights in order, and
      states how many more there are exactly when there are more than five. */
  lemma RouteSectionShape(name: string, fs: seq<MatchResult>)
    ensures var ls := RouteLines(name, fs);
      && |ls| == 1 + Min(MaxFlightsPerRoute, |fs|) + (if |fs| > MaxFlightsPerRoute then 1 else 0)
      && ls[0] == RouteHeader(name)
      && (forall i :: 0 <= i < Min(MaxFlightsPerRoute, |fs|) ==> ls[1 + i] == FlightLine(fs[i]))
      && (|fs| > MaxFlightsPerRoute ==> ls[|ls| - 1] == MoreLine(|fs| - MaxFlightsPerRoute))
  {
    FlightLinesExact(fs[..Min(MaxFlightsPerRoute, |fs|)]);
  }

  /** Every flight of a route is either listed or counted in its "more" line. */
  lemma RouteLinesAccount(name: string, fs: seq<MatchResult>)
    ensures Weight(RouteLines(name, fs)) == |fs|
  {
    var shown := fs[..Min(MaxFlightsPerRoute, |fs|)];
    var more: seq<Line> := if |fs| > MaxFlightsPerRoute then [MoreLine(|fs| - MaxFlightsPerRoute)] else [];
    FlightLinesExact(shown);
    WeightAppend([RouteHeader(name)], FlightLines(shown));
    WeightAppend([RouteHeader(name)] + FlightLines(shown), more);
    assert Weight([RouteHeader(name)]) == 0 by {
      assert [RouteHeader(name)][..0] == [];
    }
    if |fs| > MaxFlightsPerRoute {
      assert more[..0] == [];
    }
  }

  lemma {:induction false} RoutesLinesAccount(fs: seq<MatchResult>, names: seq<string>)
    ensures Weight(RoutesLines(fs, names)) == SumSizes(fs, ByRoute, names)
    decreases |names|
  {
    if names != [] {
      var k := names[|names| - 1];
      RoutesLinesAccount(fs, names[..|names| - 1]);
      WeightAppend(RoutesLines(fs, names[..|names| - 1]), RouteLines(k, Select(fs, ByRoute, k)));
      RouteLinesAccount(k, Select(fs, ByRoute, k));
    }
  }

  /** A program section accounts for every flight of its group. */
  lemma ProgramLinesAccount(period: string, program: string, fs: seq<MatchResult>)
    ensures Weight(ProgramLines(period, program, fs)) == |fs|
  {
    var header := [ProgramHeader(period, program, |fs|)];
    WeightAppend(header, RoutesLines(fs, Keys(fs, ByRoute)));
    assert Weight(header) == 0 by {
      assert header[..0] == [];
    }
    RoutesLinesAccount(fs, Keys(fs, ByRoute));
    PartitionSize(fs, ByRoute);
  }

  lemma {:induction false} ProgramsLinesAccount(rs: seq<MatchResult>, period: string, programs: seq<string>)
    ensures Weight(ProgramsLines(rs, period, programs)) == SumSizes(Select(rs, ByPeriod, period), ByProgram, programs)
    decreases |programs|
  {
    if programs != [] {
      var q := programs[|programs| - 1];
      var fs := SortByDateMiles(Keyed(rs, period, q));
      ProgramsLinesAccount(rs, period, programs[..|programs| - 1]);
      WeightAppend(ProgramsLines(rs, period, programs[..|programs| - 1]), ProgramLines(period, q, fs));
      ProgramLinesAccount(period, q, fs);
      SortByDateMilesCorrect(Keyed(rs, period, q));
    }
  }

  lemma PeriodLinesAccount(rs: seq<MatchResult>, period: string)
    ensures Weight(PeriodLines(rs, period)) == |Select(rs, ByPeriod, period)|
  {
    var header := [PeriodHeader(period)];
    WeightAppend(header, ProgramsLines(rs, period, ProgramKeys(rs, period)));
    assert Weight(header) == 0 by {
      assert header[..0] == [];
    }
    ProgramsLinesAccount(rs, period, ProgramKeys(rs, period));
    PartitionSize(Select(rs, ByPeriod, period), ByProgram);
  }

  lemma {:induction false} PeriodsLinesAccount(rs: seq<MatchResult>, periods: seq<string>)
    ensures Weight(PeriodsLines(rs, periods)) == SumSizes(rs, ByPeriod, periods)
    decreases |periods|
  {
    if periods != [] {
      var p := periods[|periods| - 1];
      PeriodsLinesAccount(rs, periods[..|periods| - 1]);
      WeightAppend(PeriodsLines(rs, periods[..|periods| - 1]), PeriodLines(rs, p));
      PeriodLinesAccount(rs, p);
    }
  }

  /** The listed flights plus the "more" counts add up to the number of
      results. */
  lemma FoundLinesAccount(rs: seq<MatchResult>, now: int)
    ensures Weight(FoundLines(rs, now)) == |rs|
  {
    var header := [FoundHeader(now)];
    WeightAppend(header, PeriodsLines(rs, Keys(rs, ByPeriod)));
    assert Weight(header) == 0 by {
      assert header[..0] == [];
    }
    PeriodsLinesAccount(rs, Keys(rs, ByPeriod));
    PartitionSize(rs, ByPeriod);
  }

  /** Every program header in `ls` states the size of its (period, program)
      group, and that size is positive. */
  ghost predicate HeadersCount(rs: seq<MatchResult>, ls: seq<Line>) {
    forall i :: 0 <= i < |ls| && ls[i].ProgramHeader? ==>
      ls[i].count == |Keyed(rs, ls[i].period, ls[i].program)| > 0
  }

  lemma HeadersCountAppend(rs: seq<MatchResult>, a: seq<Line>, b: seq<Line>)
    requires HeadersCount(rs, a) && HeadersCount(rs, b)
    ensures HeadersCount(rs, a + b)
  {
    forall i | 0 <= i < |a + b| && (a + b)[i].ProgramHeader?
      ensures (a + b)[i].count == |Keyed(rs, (a + b)[i].period, (a + b)[i].program)| > 0
    {
      if i >= |a| {
        assert (a + b)[i] == b[i - |a|];
      }
    }
  }

  lemma {:induction false} RoutesLinesHaveNoProgramHeader(fs: seq<MatchResult>, names: seq<string>)
    ensures forall l :: l in RoutesLines(fs, names) ==> !l.ProgramHeader?
    decreases |names|
  {
    if names != [] {
      var k := names[|names| - 1];
      RoutesLinesHaveNoProgramHeader(fs, names[..|names| - 1]);
      var fk := Select(fs, ByRoute, k);
      FlightLinesExact(fk[..Min(MaxFlightsPerRoute, |fk|)]);
    }
  }

  lemma {:induction false} ProgramsLinesCount(rs: seq<MatchResult>, period: string, programs: seq<string>)
    requires forall q :: q in programs ==> q in ProgramKeys(rs, period)
    ensures HeadersCount(rs, ProgramsLines(rs, period, programs))
    decreases |programs|
  {
    if programs != [] {
      var q := programs[|programs| - 1];
      var fs := SortByDateMiles(Keyed(rs, period, q));
      ProgramsLinesCount(rs, period, programs[..|programs| - 1]);
      SortByDateMilesCorrect(Keyed(rs, period, q));
      KeysExact(Select(rs, ByPeriod, period), ByProgram);
      RoutesLinesHaveNoProgramHeader(fs, Keys(fs, ByRoute));
      var section := ProgramLines(period, q, fs);
      var routes := RoutesLines(fs, Keys(fs, ByRoute));
      forall i | 0 < i < |section| ensures !section[i].ProgramHeader? {
        assert section[i] == routes[i - 1];
      }
      assert q in programs;
      assert Keyed(rs, period, q) != [];
      assert HeadersCount(rs, section);
      HeadersCountAppend(rs, ProgramsLines(rs, period, programs[..|programs| - 1]), section);
    }
  }

  lemma {:induction false} PeriodsLinesCount(rs: seq<MatchResult>, periods: seq<string>)
    ensures HeadersCount(rs, PeriodsLines(rs, periods))
    decreases |periods|
  {
    if periods != [] {
      var p := periods[|periods| - 1];
      PeriodsLinesCount(rs, periods[..|periods| - 1]);
      ProgramsLinesCount(rs, p, ProgramKeys(rs, p));
      HeadersCountAppend(rs, [PeriodHeader(p)], ProgramsLines(rs, p, ProgramKeys(rs, p)));
      HeadersCountAppend(rs, PeriodsLines(rs, periods[..|periods| - 1]), PeriodLines(rs, p));
    }
  }

  /** Each "<PROGRAM>: N found" header reports the number of results of
      that period and program, never zero. */
  lemma ProgramHeadersCount(rs: seq<MatchResult>, now: int)
    ensures HeadersCount(rs, FoundLines(rs, now))
  {
    PeriodsLinesCount(rs, Keys(rs, ByPeriod));
    HeadersCountAppend(rs, [FoundHeader(now)], PeriodsLines(rs, Keys(rs, ByPeriod)));
  }

  /** Selecting one key from a sorted list keeps it sorted. */
  lemma {:induction false} SelectSorted(fs: seq<MatchResult>, g: GroupKey, k: string)
    requires Sorted(fs)
    ensures Sorted(Select(fs, g, k))
    decreases |fs|
  {
    if fs != [] {
      var init, last := fs[..|fs| - 1], fs[|fs| - 1];
      assert fs == init + [last];
      SelectSnoc(init, last, g, k);
      SelectSorted(init, g, k);
      var s := Select(init, g, k);
      SelectMembers(init, g, k);
      forall i | 0 <= i < |s| ensures KeyLe(s[i], last) {
        assert s[i] in init;
        var j :| 0 <= j < |init| && init[j] == s[i];
        assert fs[j] == s[i];
      }
    }
  }

  /** The flights listed under a route name come in (date, miles) order. */
  lemma RouteFlightsSorted(rs: seq<MatchResult>, period: string, program: string, routeName: string)
    ensures Sorted(Select(SortByDateMiles(Keyed(rs, period, program)), ByRoute, routeName))
  {
    SortByDateMilesCorrect(Keyed(rs, period, program));
    SelectSorted(SortByDateMiles(Keyed(rs, period, program)), ByRoute, routeName);
  }

  /** The flights a list of lines names, in order. */
  function Listed(ls: seq<Line>): seq<MatchResult>
    decreases |ls|
  {
    if ls == [] then []
    else Listed(ls[..|ls| - 1]) + (if ls[|ls| - 1].FlightLine? then [ls[|ls| - 1].flight] else [])
  }

  lemma {:induction false} ListedAppend(a: seq<Line>, b: seq<Line>)
    ensures Listed(a + b) == Listed(a) + Listed(b)
    decreases |b|
  {
    if b == [] {
      assert a + b == a;
    } else {
      var b' := b[..|b| - 1];
      assert (a + b)[..|a + b| - 1] == a + b';
      ListedAppend(a, b');
    }
  }

  lemma {:induction false} ListedFlightLines(fs: seq<MatchResult>)
    ensures Listed(FlightLines(fs)) == fs
    decreases |fs|
  {
    if fs != [] {
      var init := fs[..|fs| - 1];
      ListedFlightLines(init);
      ListedAppend(FlightLines(init), [FlightLine(fs[|fs| - 1])]);
      assert [FlightLine(fs[|fs| - 1])][..0] == [];
      assert fs == init + [fs[|fs| - 1]];
    }
  }

  /** Every element of `m` has its key in `ks`, and occurs in `m` at most
      as often as in `whole`. */
  ghost predicate BoundedBy(m: multiset<MatchResult>, whole: multiset<MatchResult>, g: GroupKey, ks: seq<string>) {
    forall x :: m[x] <= if KeyOf(x, g) in ks then whole[x] else 0
  }

  /** Adding a piece bounded by key `k` to pieces bounded by keys `ks`. */
  lemma BoundStep(a: multiset<MatchResult>, b: multiset<MatchResult>, whole: multiset<MatchResult>,
                  g: GroupKey, ks: seq<string>, k: string)
    requires k !in ks
    requires BoundedBy(a, whole, g, ks) && BoundedBy(b, whole, g, [k])
    ensures BoundedBy(a + b, whole, g, ks + [k])
  {
    assert forall x :: KeyOf(x, g) in ks + [k] <==> KeyOf(x, g) in ks || KeyOf(x, g) == k;
  }

  /** A bound on a multiset also bounds anything it includes. */
  lemma BoundedBySub(m: multiset<MatchResult>, m': multiset<MatchResult>, whole: multiset<MatchResult>,
                     g: GroupKey, ks: seq<string>)
    requires m <= m' && BoundedBy(m', whole, g, ks)
    ensures BoundedBy(m, whole, g, ks)
  {
    forall x ensures m[x] <= if KeyOf(x, g) in ks then whole[x] else 0 {
      assert m[x] <= m'[x];
    }
  }

  /** A key's group is bounded by the results with that key. */
  lemma SelectBounded(fs: seq<MatchResult>, g: GroupKey, k: string)
    ensures BoundedBy(multiset(Select(fs, g, k)), multiset(fs), g, [k])
  {
    SelectCounts(fs, g, k);
  }

  /** Pieces bounded by every key are bounded by the whole. */
  lemma BoundedByWhole(m: multiset<MatchResult>, whole: multiset<MatchResult>, g: GroupKey, ks: seq<string>)
    requires BoundedBy(m, whole, g, ks)
    ensures m <= whole
  {
    forall x ensures m[x] <= whole[x] {
      assert m[x] <= if KeyOf(x, g) in ks then whole[x] else 0;
    }
  }

  /** A route section lists exactly the route's first five flights. */
  lemma RouteListed(k: string, sel: seq<MatchResult>)
    ensures Listed(RouteLines(k, sel)) == sel[..Min(MaxFlightsPerRoute, |sel|)]
  {
    var shown := sel[..Min(MaxFlightsPerRoute, |sel|)];
    var more: seq<Line> := if |sel| > MaxFlightsPerRoute then [MoreLine(|sel| - MaxFlightsPerRoute)] else [];
    ListedAppend([RouteHeader(k)], FlightLines(shown));
    ListedAppend([RouteHeader(k)] + FlightLines(shown), more);
    ListedFlightLines(shown);
    assert [RouteHeader(k)][..0] == [];
    if |sel| > MaxFlightsPerRoute {
      assert more[..0] == [];
    }
  }

  /** A route section lists only flights of its route, each at most as often
      as it occurs. */
  lemma RouteListedBound(fs: seq<MatchResult>, k: string)
    ensures BoundedBy(multiset(Listed(RouteLines(k, Select(fs, ByRoute, k)))), multiset(fs), ByRoute, [k])
  {
    var sel := Select(fs, ByRoute, k);
    var shown := sel[..Min(MaxFlightsPerRoute, |sel|)];
    RouteListed(k, sel);
    assert sel == shown + sel[|shown|..];
    assert multiset(shown) <= multiset(sel);
    SelectBounded(fs, ByRoute, k);
    BoundedBySub(multiset(shown), multiset(sel), multiset(fs), ByRoute, [k]);
  }

  lemma {:induction false} RoutesListedBound(fs: seq<MatchResult>, names: seq<string>)
    requires Distinct(names)
    ensures BoundedBy(multiset(Listed(RoutesLines(fs, names))), multiset(fs), ByRoute, names)
    decreases |names|
  {
    if names != [] {
      var init, k := names[..|names| - 1], names[|names| - 1];
      var section := RouteLines(k, Select(fs, ByRoute, k));
      assert names == init + [k];
      assert Distinct(init);
      RoutesListedBound(fs, init);
      RouteListedBound(fs, k);
      assert RoutesLines(fs, names) == RoutesLines(fs, init) + section;
      ListedAppend(RoutesLines(fs, init), section);
      BoundStep(multiset(Listed(RoutesLines(fs, init))), multiset(Listed(section)), multiset(fs), ByRoute, init, k);
    }
  }

  /** A program section lists only flights of its group, each at most as
      often as it occurs there. */
  lemma ProgramListedBound(period: string, program: string, fs: seq<MatchResult>)
    ensures multiset(Listed(ProgramLines(period, program, fs))) <= multiset(fs)
  {
    var names := Keys(fs, ByRoute);
    KeysDistinct(fs, ByRoute);
    RoutesListedBound(fs, names);
    BoundedByWhole(multiset(Listed(RoutesLines(fs, names))), multiset(fs), ByRoute, names);
    ListedAppend([ProgramHeader(period, program, |fs|)], RoutesLines(fs, names));
    assert [ProgramHeader(period, program, |fs|)][..0] == [];
  }

  lemma ProgramStepBound(rs: seq<MatchResult>, period: string, q: string)
    ensures BoundedBy(multiset(Listed(ProgramLines(period, q, SortByDateMiles(Keyed(rs, period, q))))),
                      multiset(Select(rs, ByPeriod, period)), ByProgram, [q])
  {
    var fs := SortByDateMiles(Keyed(rs, period, q));
    ProgramListedBound(period, q, fs);
    SortByDateMilesCorrect(Keyed(rs, period, q));
    SelectBounded(Select(rs, ByPeriod, period), ByProgram, q);
    BoundedBySub(multiset(Listed(ProgramLines(period, q, fs))), multiset(Keyed(rs, period, q)),
                 multiset(Select(rs, ByPeriod, period)), ByProgram, [q]);
  }

  lemma {:induction false} ProgramsListedBound(rs: seq<MatchResult>, period: string, programs: seq<string>)
    requires Distinct(programs)
    ensures BoundedBy(multiset(Listed(ProgramsLines(rs, period, programs))),
                      multiset(Select(rs, ByPeriod, period)), ByProgram, programs)
    decreases |programs|
  {
    if programs != [] {
      var init, q := programs[..|programs| - 1], programs[|programs| - 1];
      var section := ProgramLines(period, q, SortByDateMiles(Keyed(rs, period, q)));
      assert programs == init + [q];
      assert Distinct(init);
      ProgramsListedBound(rs, period, init);
      ProgramStepBound(rs, period, q);
      assert ProgramsLines(rs, period, programs) == ProgramsLines(rs, period, init) + section;
      ListedAppend(ProgramsLines(rs, period, init), section);
      BoundStep(multiset(Listed(ProgramsLines(rs, period, init))), multiset(Listed(section)),
                multiset(Select(rs, ByPeriod, period)), ByProgram, init, q);
    }
  }

  lemma PeriodListedBound(rs: seq<MatchResult>, period: string)
    ensures BoundedBy(multiset(Listed(PeriodLines(rs, period))), multiset(rs), ByPeriod, [period])
  {
    var programs := ProgramKeys(rs, period);
    var sel := Select(rs, ByPeriod, period);
    KeysDistinct(sel, ByProgram);
    ProgramsListedBound(rs, period, programs);
    BoundedByWhole(multiset(Listed(ProgramsLines(rs, period, programs))), multiset(sel), ByProgram, programs);
    ListedAppend([PeriodHeader(period)], ProgramsLines(rs, period, programs));
    assert [PeriodHeader(period)][..0] == [];
    SelectBounded(rs, ByPeriod, period);
    BoundedBySub(multiset(Listed(PeriodLines(rs, period))), multiset(sel), multiset(rs), ByPeriod, [period]);
  }

  lemma {:induction false} PeriodsListedBound(rs: seq<MatchResult>, periods: seq<string>)
    requires Distinct(periods)
    ensures BoundedBy(multiset(Listed(PeriodsLines(rs, periods))), multiset(rs), ByPeriod, periods)
    decreases |periods|
  {
    if periods != [] {
      var init, p := periods[..|periods| - 1], periods[|periods| - 1];
      var section := PeriodLines(rs, p);
      assert periods == init + [p];
      assert Distinct(init);
      PeriodsListedBound(rs, init);
      PeriodListedBound(rs, p);
      assert PeriodsLines(rs, periods) == PeriodsLines(rs, init) + section;
      ListedAppend(PeriodsLines(rs, init), section);
      BoundStep(multiset(Listed(PeriodsLines(rs, init))), multiset(Listed(section)), multiset(rs), ByPeriod, init, p);
    }
  }

  /** The message lists only results, and no result more often than it
      occurs; together with `FoundLinesAccount`, every result is either
      listed or counted in a "more" line. */
  lemma FoundListedAreResults(rs: seq<MatchResult>, now: int)
    ensures multiset(Listed(FoundLines(rs, now))) <= multiset(rs)
    ensures forall l :: l in FoundLines(rs, now) && l.FlightLine? ==> l.flight in rs
  {
    KeysDistinct(rs, ByPeriod);
    PeriodsListedBound(rs, Keys(rs, ByPeriod));
    BoundedByWhole(multiset(Listed(PeriodsLines(rs, Keys(rs, ByPeriod)))), multiset(rs), ByPeriod, Keys(rs, ByPeriod));
    ListedAppend([FoundHeader(now)], PeriodsLines(rs, Keys(rs, ByPeriod)));
    assert [FoundHeader(now)][..0] == [];
    var ls := FoundLines(rs, now);
    assert multiset(Listed(ls)) <= multiset(rs);
    forall l | l in ls && l.FlightLine? ensures l.flight in rs {
      var i :| 0 <= i < |ls| && ls[i] == l;
      ListedHas(ls, i);
      assert l.flight in multiset(Listed(ls));
    }
  }

  /** A flight line's flight is among the listed flights. */
  lemma {:induction false} ListedHas(ls: seq<Line>, i: nat)
    requires i < |ls| && ls[i].FlightLine?
    ensures ls[i].flight in Listed(ls)
    decreases |ls|
  {
    if i < |ls| - 1 {
      ListedHas(ls[..|ls| - 1], i);
    }
  }
}
