/** The search orchestrator: one call to the search service per configured
    route, each returned row run through the filter pipeline, and the rows
    that pass tagged and collected in discovery order. */
module Search {
  import opened Wrappers
  import opened Strings
  import opened Records
  import opened Filters

  /** The cabin every search asks for. */
  const BusinessCabin := "business"

  /** The arguments of one call to the search service. */
  datatype SearchQuery = SearchQuery(
    origins: seq<string>,
    destinations: seq<string>,
    startDate: string,
    endDate: string,
    cabin: string,
    directOnly: bool)

  /** The search service: the rows returned for a query, or `None` when the
      call failed or returned no `data`. It is a function of the query, as the
      service is idempotent. */
  type SearchFn = SearchQuery -> Option<seq<Record>>

  /** One (period, program, route) triple of the configuration. */
  datatype Job = Job(period: string, startDate: string, endDate: string, program: string, route: RouteSpec)

  function QueryOf(job: Job): SearchQuery {
    SearchQuery(job.route.origins, job.route.destinations, job.startDate, job.endDate,
                BusinessCabin, job.route.directOnly)
  }

  /** The rows the search service returned for a job; nothing when it failed. */
  function Fetched(job: Job, search: SearchFn): seq<Record> {
    match search(QueryOf(job))
    case None => []
    case Some(rows) => rows
  }

  /** A route uses its preferences when it has a non-empty list of them, and
      its airline list otherwise. */
  predicate HasPreferences(route: RouteSpec) {
    route.routePreferences.Some? && route.routePreferences.value != []
  }

  /** The five checks a row must pass, in the order they are made. */
  predicate Qualifies(r: Record, job: Job) {
    && Lower(SourceOf(r)) == job.program
    && IsAvailable(r) && SeatsOf(r) > 0
    && WithinMileageCap(r, job.route.maxMiles)
    && (if HasPreferences(job.route) then FilterByRoutePreferences(r, job.route.routePreferences)
        else FilterByAirline(r, job.route.airlines))
    && FilterByDirect(r, job.route.directOnly)
  }

  /** The result recorded for a qualifying row. */
  function Tag(job: Job, r: Record): MatchResult {
    MatchResult(job.period, job.program, job.route.name, OriginOf(r), DestinationOf(r),
                DateOf(r), MilesOf(r), SeatsOf(r), AirlinesOf(r), IsDirect(r))
  }

  /** The tagged rows of `rows` that qualify for `job`, in order. */
  function Survivors(job: Job, rows: seq<Record>): seq<MatchResult>
    decreases |rows|
  {
    if rows == [] then []
    else
      var last := rows[|rows| - 1];
      Survivors(job, rows[..|rows| - 1]) + (if Qualifies(last, job) then [Tag(job, last)] else [])
  }

  /** All results of a sequence of jobs, job by job. */
  function JobsResults(jobs: seq<Job>, search: SearchFn): seq<MatchResult>
    decreases |jobs|
  {
    if jobs == [] then []
    else JobsResults(jobs[..|jobs| - 1], search) + Survivors(jobs[|jobs| - 1], Fetched(jobs[|jobs| - 1], search))
  }

  // The configuration flattened into jobs, in the order it is searched.

  function RoutesJobs(p: Period, program: string, routes: seq<RouteSpec>): seq<Job>
    decreases |routes|
  {
    if routes == [] then []
    else RoutesJobs(p, program, routes[..|routes| - 1]) + [Job(p.name, p.startDate, p.endDate, program, routes[|routes| - 1])]
  }

  function ProgramsJobs(p: Period, programs: seq<ProgramRoutes>): seq<Job>
    decreases |programs|
  {
    if programs == [] then []
    else
      var last := programs[|programs| - 1];
      ProgramsJobs(p, programs[..|programs| - 1]) + RoutesJobs(p, last.program, last.routes)
  }

  function Jobs(config: Config): seq<Job>
    decreases |config|
  {
    if config == [] then []
    else Jobs(config[..|config| - 1]) + ProgramsJobs(config[|config| - 1], config[|config| - 1].programs)
  }

  lemma RoutesJobsSnoc(p: Period, program: string, routes: seq<RouteSpec>, k: nat)
    requires k < |routes|
    ensures RoutesJobs(p, program, routes[..k + 1]) ==
      RoutesJobs(p, program, routes[..k]) + [Job(p.name, p.startDate, p.endDate, program, routes[k])]
  {
    assert routes[..k + 1][..k] == routes[..k];
  }

  lemma ProgramsJobsSnoc(p: Period, programs: seq<ProgramRoutes>, j: nat)
    requires j < |programs|
    ensures ProgramsJobs(p, programs[..j + 1]) ==
      ProgramsJobs(p, programs[..j]) + RoutesJobs(p, programs[j].program, programs[j].routes)
  {
    assert programs[..j + 1][..j] == programs[..j];
  }

  lemma JobsSnoc(config: Config, i: nat)
    requires i < |config|
    ensures Jobs(config[..i + 1]) == Jobs(config[..i]) + ProgramsJobs(config[i], config[i].programs)
  {
    assert config[..i + 1][..i] == config[..i];
  }

  /** What a run of the search produces for a configuration. */
  function SearchResults(config: Config, search: SearchFn): seq<MatchResult> {
    JobsResults(Jobs(config), search)
  }

  lemma {:induction false} JobsResultsAppend(a: seq<Job>, b: seq<Job>, search: SearchFn)
    ensures JobsResults(a + b, search) == JobsResults(a, search) + JobsResults(b, search)
    decreases |b|
  {
    if b != [] {
      var b' := b[..|b| - 1];
      assert (a + b)[..|a + b| - 1] == a + b';
      JobsResultsAppend(a, b', search);
    } else {
      assert a + b == a;
    }
  }

  /** Adding one job at the end adds its survivors at the end. */
  lemma JobsResultsSnoc(jobs: seq<Job>, job: Job, search: SearchFn)
    ensures JobsResults(jobs + [job], search) == JobsResults(jobs, search) + Survivors(job, Fetched(job, search))
  {
    assert (jobs + [job])[..|jobs|] == jobs;
  }

  /** The filter loop over the rows returned for one job: every row that
      passes the checks is appended, tagged, to `acc`. */
  method AppendSurvivors(job: Job, rows: seq<Record>, acc: seq<MatchResult>) returns (results: seq<MatchResult>)
    ensures results == acc + Survivors(job, rows)
  {
    var route := job.route;
    results := acc;
    for l := 0 to |rows|
      invariant results == acc + Survivors(job, rows[..l])
    {
      var row := rows[l];
      assert rows[..l + 1][..l] == rows[..l];
      var source := Lower(SourceOf(row));
      if source != job.program {
        continue;
      }
      if !IsAvailable(row) || SeatsOf(row) <= 0 {
        continue;
      }
      var miles := MilesOf(row);
      if miles > route.maxMiles {
        continue;
      }
      if HasPreferences(route) {
        if !FilterByRoutePreferences(row, route.routePreferences) {
          continue;
        }
      } else {
        if !FilterByAirline(row, route.airlines) {
          continue;
        }
      }
      if !FilterByDirect(row, route.directOnly) {
        continue;
      }
      results := results + [Tag(job, row)];
    }
    assert rows[..|rows|] == rows;
  }

  lemma RoutesResultsStep(p: Period, program: string, routes: seq<RouteSpec>, k: nat, search: SearchFn)
    requires k < |routes|
    ensures var job := Job(p.name, p.startDate, p.endDate, program, routes[k]);
      JobsResults(RoutesJobs(p, program, routes[..k + 1]), search) ==
      JobsResults(RoutesJobs(p, program, routes[..k]), search) + Survivors(job, Fetched(job, search))
  {
    RoutesJobsSnoc(p, program, routes, k);
    JobsResultsSnoc(RoutesJobs(p, program, routes[..k]), Job(p.name, p.startDate, p.endDate, program, routes[k]), search);
  }

  lemma ProgramsResultsStep(p: Period, programs: seq<ProgramRoutes>, j: nat, search: SearchFn)
    requires j < |programs|
    ensures JobsResults(ProgramsJobs(p, programs[..j + 1]), search) ==
      JobsResults(ProgramsJobs(p, programs[..j]), search) + JobsResults(RoutesJobs(p, programs[j].program, programs[j].routes), search)
  {
    ProgramsJobsSnoc(p, programs, j);
    JobsResultsAppend(ProgramsJobs(p, programs[..j]), RoutesJobs(p, programs[j].program, programs[j].routes), search);
  }

  lemma PeriodsResultsStep(config: Config, i: nat, search: SearchFn)
    requires i < |config|
    ensures JobsResults(Jobs(config[..i + 1]), search) ==
      JobsResults(Jobs(config[..i]), search) + JobsResults(ProgramsJobs(config[i], config[i].programs), search)
  {
    JobsSnoc(config, i);
    JobsResultsAppend(Jobs(config[..i]), ProgramsJobs(config[i], config[i].programs), search);
  }

  lemma AppendAssociative(a: seq<MatchResult>, b: seq<MatchResult>, c: seq<MatchResult>)
    ensures (a + b) + c == a + (b + c)
  {
  }

  /** The loop over one program's routes: one search per route, the
      survivors of each appended to `acc`. */
  method SearchProgram(period: Period, program: string, routes: seq<RouteSpec>, search: SearchFn,
                       acc: seq<MatchResult>) returns (results: seq<MatchResult>)
    ensures results == acc + JobsResults(RoutesJobs(period, program, routes), search)
  {
    results := acc;
    for k := 0 to |routes|
      invariant results == acc + JobsResults(RoutesJobs(period, program, routes[..k]), search)
    {
      var job := Job(period.name, period.startDate, period.endDate, program, routes[k]);
      RoutesResultsStep(period, program, routes, k, search);
      AppendAssociative(acc, JobsResults(RoutesJobs(period, program, routes[..k]), search), Survivors(job, Fetched(job, search)));
      var data := search(QueryOf(job));
      if data.None? || data.value == [] {
        continue;
      }
      results := AppendSurvivors(job, data.value, results);
    }
    assert routes[..|routes|] == routes;
  }

  /** The loop over the programs of one period. */
  method SearchPeriod(period: Period, search: SearchFn, acc: seq<MatchResult>) returns (results: seq<MatchResult>)
    ensures results == acc + JobsResults(ProgramsJobs(period, period.programs), search)
  {
    var programs := period.programs;
    results := acc;
    for j := 0 to |programs|
      invariant results == acc + JobsResults(ProgramsJobs(period, programs[..j]), search)
    {
      ProgramsResultsStep(period, programs, j, search);
      AppendAssociative(acc, JobsResults(ProgramsJobs(period, programs[..j]), search),
                        JobsResults(RoutesJobs(period, programs[j].program, programs[j].routes), search));
      results := SearchProgram(period, programs[j].program, programs[j].routes, search, results);
    }
    assert programs[..|programs|] == programs;
  }

  /** Runs the configured searches and returns every qualifying row, tagged
      with the period, program and route that found it, in discovery order.
      A route whose search failed or returned nothing is skipped. */
  method SearchRoutes(config: Config, search: SearchFn) returns (results: seq<MatchResult>)
    ensures results == SearchResults(config, search)
  {
    results := [];
    for i := 0 to |config|
      invariant results == JobsResults(Jobs(config[..i]), search)
    {
      PeriodsResultsStep(config, i, search);
      results := SearchPeriod(config[i], search, results);
    }
    assert config[..|config|] == config;
  }

  /** Every element of `Survivors` is the tag of a qualifying row, and every
      qualifying row contributes its tag. */
  lemma {:induction false} SurvivorsExact(job: Job, rows: seq<Record>)
    ensures forall m :: m in Survivors(job, rows) ==> exists r :: r in rows && Qualifies(r, job) && m == Tag(job, r)
    ensures forall r :: r in rows && Qualifies(r, job) ==> Tag(job, r) in Survivors(job, rows)
    decreases |rows|
  {
    if rows != [] {
      var init := rows[..|rows| - 1];
      SurvivorsExact(job, init);
      assert rows == init + [rows[|rows| - 1]];
    }
  }

  /** Soundness: every result is the tag of a row that some configured job
      fetched and that passed all five checks for that job, so it carries that
      job's period, program and route name. */
  lemma {:induction false} ResultsQualify(jobs: seq<Job>, search: SearchFn)
    ensures forall m :: m in JobsResults(jobs, search) ==>
      exists job, r :: job in jobs && r in Fetched(job, search) && Qualifies(r, job) && m == Tag(job, r)
    decreases |jobs|
  {
    if jobs != [] {
      var init := jobs[..|jobs| - 1];
      var last := jobs[|jobs| - 1];
      ResultsQualify(init, search);
      SurvivorsExact(last, Fetched(last, search));
      forall m | m in JobsResults(jobs, search)
        ensures exists job, r :: job in jobs && r in Fetched(job, search) && Qualifies(r, job) && m == Tag(job, r)
      {
        if m in JobsResults(init, search) {
          var job, r :| job in init && r in Fetched(job, search) && Qualifies(r, job) && m == Tag(job, r);
          assert job in jobs;
        } else {
          assert m in Survivors(last, Fetched(last, search));
          var r :| r in Fetched(last, search) && Qualifies(r, last) && m == Tag(last, r);
          assert last in jobs;
        }
      }
    }
  }

  /** Completeness: every qualifying row fetched for a configured job appears,
      tagged, among the results. */
  lemma {:induction false} QualifyingRowsReported(jobs: seq<Job>, search: SearchFn)
    ensures forall job, r :: job in jobs && r in Fetched(job, search) && Qualifies(r, job) ==>
      Tag(job, r) in JobsResults(jobs, search)
    decreases |jobs|
  {
    if jobs != [] {
      var init := jobs[..|jobs| - 1];
      var last := jobs[|jobs| - 1];
      QualifyingRowsReported(init, search);
      SurvivorsExact(last, Fetched(last, search));
      assert jobs == init + [last];
    }
  }

  /** The mileage cap as seen in the output: every result's miles are within
      the cap of a configured route with the result's period, program and name. */
  lemma ResultsWithinCap(config: Config, search: SearchFn)
    ensures forall m :: m in SearchResults(config, search) ==>
      exists job :: (job in Jobs(config) && job.period == m.period && job.program == m.program
        && job.route.name == m.routeName && m.miles <= job.route.maxMiles)
  {
    ResultsQualify(Jobs(config), search);
    forall m | m in SearchResults(config, search)
      ensures exists job :: (job in Jobs(config) && job.period == m.period && job.program == m.program
        && job.route.name == m.routeName && m.miles <= job.route.maxMiles)
    {
      var job, r :| job in Jobs(config) && r in Fetched(job, search) && Qualifies(r, job) && m == Tag(job, r);
    }
  }

  /** A route whose search failed or returned no rows contributes nothing, and
      the routes before and after it are still searched. */
  lemma FailedRouteSkipped(jobs: seq<Job>, k: nat, search: SearchFn)
    requires k < |jobs|
    requires search(QueryOf(jobs[k])).None? || search(QueryOf(jobs[k])) == Some([])
    ensures JobsResults(jobs, search) == JobsResults(jobs[..k], search) + JobsResults(jobs[k + 1..], search)
  {
    SplitAt(jobs, k);
    SkipEmptyJob(jobs[..k], jobs[k], jobs[k + 1..], search);
  }

  lemma SplitAt(jobs: seq<Job>, k: nat)
    requires k < |jobs|
    ensures jobs == jobs[..k] + [jobs[k]] + jobs[k + 1..]
  {
  }

  lemma SkipEmptyJob(pre: seq<Job>, job: Job, post: seq<Job>, search: SearchFn)
    requires Fetched(job, search) == []
    ensures JobsResults(pre + [job] + post, search) == JobsResults(pre, search) + JobsResults(post, search)
  {
    var before, after := JobsResults(pre, search), JobsResults(post, search);
    calc {
      JobsResults(pre + [job] + post, search);
    == { JobsResultsAppend(pre + [job], post, search); }
      JobsResults(pre + [job], search) + after;
    == { JobsResultsSnoc(pre, job, search); assert Survivors(job, []) == []; }
      (before + []) + after;
    == { assert before + [] == before; }
      before + after;
    }
  }
}
