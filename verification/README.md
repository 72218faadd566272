# flight-monitor, modelled in Dafny

flight-monitor is a cron-driven script. Every few minutes it searches an
award-availability service for business-class seats. The search covers a
configured set of periods, loyalty programs and routes. Each returned row is
kept only if it passes five checks:

- the program matches;
- a seat is available;
- the mileage is within the cap;
- the route preferences or the airline filter accept it;
- it is direct when the route requires that.

When anything qualifies, a "flights found" chat message goes out. That message
groups the results by period and program, sorts each group by (date, miles),
and sub-groups them by route name. At most five flights are listed per route,
and the rest are summarised in one "and N more" line. When nothing qualifies, a
daily gate lets at most one "no flights" update through per UTC day, as long
as its timestamp file can be read and written (a read or save failure makes it
send again). A separate startup gate lets at most one startup notice through
per deployment; nothing in the script calls it.

The model is split into these modules:

- `Wrappers`: `Option`.
- `Strings`: substring search, ASCII lower-casing and code-point order on strings.
- `Records`: availability rows, route configuration and tagged results, with the defaults the script uses for missing keys.
- `Filters`: the three filters and the mileage cap.
- `Search`: the search loops, proved against a flat definition over the list of (period, program, route) jobs.
- `Ordering`: the (date, miles) sort, proved stable.
- `Grouping`: first-appearance grouping, the Python dict semantics.
- `Digest`: the message, as a list of structured lines.
- `Throttle`: the two gates, as a store class.
- `Driver`: one run.

The search service is a function parameter from a query to an optional list
of rows. `None` stands for a failed request. The clock is an integer `now`
(seconds since the epoch, UTC). The outcome of each file or lock operation is
an input.

## Model

| member | source | states |
|---|---|---|
| Strings.Contains | flights_availability_check.py:93 | Python's `code in airlines`, by trying every start position; its meaning is stated by `ContainsIsSubstring` |
| Strings.ContainsIsSubstring | flights_availability_check.py:93 | the `in` test on strings holds exactly when the code occurs at some position of the airline string |
| Strings.Lower | flights_availability_check.py:199 | lower-casing keeps the length, maps each ASCII upper-case letter to its lower-case letter and changes nothing else |
| Strings.StrLess | flights_availability_check.py:264 | Python's `<` on two `str` dates: code-point lexicographic order, a proper prefix first; proved a strict total order by the four lemmas below |
| Strings.StrLessTotal | flights_availability_check.py:264 | any two distinct date strings are ordered one way or the other |
| Strings.StrLessTransitive | flights_availability_check.py:264 | string order is transitive |
| Strings.StrLessAsymmetric | flights_availability_check.py:264 | string order is asymmetric |
| Strings.StrLessIrreflexive | flights_availability_check.py:264 | no string is before itself |
| Strings.StrLessAt | flights_availability_check.py:264 | a common prefix followed by a smaller character puts a string first |
| Records.MilesOf | flights_availability_check.py:209 | a missing or null mileage counts as 0, otherwise the given value |
| Filters.AnyAirlineInIff | flights_availability_check.py:92-93 | some required code occurs as a substring of the row's airlines |
| Filters.FilterByAirline | flights_availability_check.py:87-93 | `filter_by_airline`: no requirement, an empty list, or some code occurring in the row's airlines; stated by `FilterByAirlineIff` |
| Filters.FilterByAirlineIff | flights_availability_check.py:87-93 | accepted iff the requirement is missing or empty, or some required code occurs in the row's airlines |
| Filters.ShortCodeMatchesLongerCode | flights_availability_check.py:93 | code "A" accepts airlines "AA" while "B" does not: the test is a substring test |
| Filters.FilterByDirect | flights_availability_check.py:95-99 | `filter_by_direct`: directness not required, or the row says it is direct; stated by `FilterByDirectIff` |
| Filters.FilterByDirectIff | flights_availability_check.py:95-99 | accepted iff directness is not required, or the row says it is direct |
| Filters.FirstPreferenceMatch | flights_availability_check.py:110-128 | the preference loop with its early return; stated by `FirstPreferenceMatchIff` |
| Filters.FilterByRoutePreferences | flights_availability_check.py:101-128 | `filter_by_route_preferences`: missing or empty preferences accept, otherwise the loop decides; stated by `FilterByRoutePreferencesIff` |
| Filters.FirstPreferenceMatchIff | flights_availability_check.py:110-128 | the early-return loop accepts iff some preference matches origin, destination and airline rule |
| Filters.FilterByRoutePreferencesIff | flights_availability_check.py:101-128 | accepted iff preferences are missing or empty, or some preference matches origin, destination and (no airlines, or one occurring in the row's airlines) |
| Filters.PreferenceExample | flights_availability_check.py:101-128 | with preferences A→B (any airline) and C→D (airline X), a row A→B on Y passes and a row C→D on Z fails |
| Filters.WithinMileageCap | flights_availability_check.py:208-211 | `int(miles) <= max_miles` with a missing mileage as 0; stated by `MileageCapBoundary` |
| Filters.MileageCapBoundary | flights_availability_check.py:208-211 | a cost equal to the cap passes, a cost above it fails, a missing or zero cost passes a non-negative cap |
| Search.Qualifies | flights_availability_check.py:197-224 | the five per-row checks of one job, in the script's order; used by `SurvivorsExact`, `ResultsQualify` and `QualifyingRowsReported` |
| Search.Tag | flights_availability_check.py:227-238 | the result record: the row's fields plus the period, program and route that found it; `ResultsQualify` states each result is such a tag |
| Search.JobsResultsAppend | flights_availability_check.py:177-241 | results of consecutive jobs concatenate in job order |
| Search.AppendSurvivors | flights_availability_check.py:197-239 | the row loop appends exactly the qualifying rows, tagged, in row order |
| Search.SearchRoutes | flights_availability_check.py:175-241 | the nested period/program/route loops return exactly `SearchResults`, the flat list over all (period, program, route) jobs, in search order |
| Search.SearchPeriod | flights_availability_check.py:177-239 | the programs loop of one period appends exactly that period's jobs' results, in order |
| Search.SearchProgram | flights_availability_check.py:180-239 | the routes loop of one program appends exactly that program's jobs' results, in order |
| Search.SurvivorsExact | flights_availability_check.py:197-239 | every kept result comes from a qualifying row, and every qualifying row is kept |
| Search.ResultsQualify | flights_availability_check.py:177-241 | every result is a tagged row that passed all five checks for the job that fetched it |
| Search.QualifyingRowsReported | flights_availability_check.py:177-241 | every fetched row that passes all five checks appears in the results |
| Search.ResultsWithinCap | flights_availability_check.py:208-211 | every result comes from a configured job of its period and program, and its miles are within that job's cap |
| Search.FailedRouteSkipped | flights_availability_check.py:193-194 | a route whose request failed or returned no rows contributes nothing; the other routes' results are unchanged |
| Ordering.KeyLe | flights_availability_check.py:264 | `(date, miles)` compared as a Python tuple; `KeyLeTotal` and `KeyLeTransitive` make it a total preorder |
| Ordering.SortByDateMiles | flights_availability_check.py:262-264 | the per-group sort; stated by `SortByDateMilesCorrect` and `SortStable` |
| Ordering.KeyLeTotal | flights_availability_check.py:264 | the (date, miles) key orders any two results |
| Ordering.KeyLeTransitive | flights_availability_check.py:264 | the (date, miles) key order is transitive |
| Ordering.InsertPermutes | flights_availability_check.py:264 | inserting adds exactly one element |
| Ordering.InsertSorted | flights_availability_check.py:264 | inserting into a sorted list keeps it sorted |
| Ordering.SortByDateMilesCorrect | flights_availability_check.py:262-264 | each group's sort yields a (date, miles)-sorted permutation of the group |
| Ordering.InsertStable | flights_availability_check.py:264 | inserting into a sorted list places the new element after all elements with its key |
| Ordering.SortStable | flights_availability_check.py:264 | the sort is stable: results with equal (date, miles) keep their input order, as Python's `sort` does |
| Ordering.EarlierDateFirst | flights_availability_check.py:264 | with equal miles, a 2025-12-06 flight is sorted before a 2025-12-10 one |
| Grouping.Select | flights_availability_check.py:249-259 | one dict entry's list: the results with that key; its contents are stated by `SelectCounts`, its order by `SelectKeepsOrder` |
| Grouping.SelectKeepsOrder | flights_availability_check.py:254-259 | of two results with the group's key, the earlier one in the input comes earlier in the group |
| Grouping.Keys | flights_availability_check.py:249-259 | the dict's keys; which keys by `KeysExact` and `KeysDistinct`, their order by `KeysFirstAppearanceOrder` |
| Grouping.KeysFirstAppearanceOrder | flights_availability_check.py:254-257 | a key that first appears at some position comes after the key of every earlier result, as in an insertion-ordered dict |
| Grouping.SelectCounts | flights_availability_check.py:249-259 | a group holds exactly the results with that key, each as often as in the input |
| Grouping.KeysExact | flights_availability_check.py:249-259 | a key is listed iff some result has it, iff its group is non-empty |
| Grouping.KeysDistinct | flights_availability_check.py:254-257 | each key is listed once |
| Grouping.PartitionSize | flights_availability_check.py:249-259 | the groups' sizes add up to the number of results |
| Digest.GroupByPeriodAndProgram | flights_availability_check.py:249-259 | the first pass yields the periods and each period's programs in first-appearance order, and each (period, program) list in input order |
| Digest.AddToGroups | flights_availability_check.py:249-259 | one pass step: after it, the keys and lists are those of the results seen so far plus this one |
| Digest.OpenKeys | flights_availability_check.py:254-257 | a period or program is opened exactly on first sight and keeps first-appearance order |
| Digest.FileResult | flights_availability_check.py:259 | the result is appended to its (period, program) list and nothing else changes |
| Digest.SortGroups | flights_availability_check.py:262-264 | every (period, program) list is replaced by its (date, miles) sort |
| Digest.RenderRoute | flights_availability_check.py:286-294 | a route section is its header, its first five flights, and a "more" line only beyond five |
| Digest.GroupByRoute | flights_availability_check.py:278-284 | route names come out in first-appearance order, each with exactly its flights in order |
| Digest.AddToRoute | flights_availability_check.py:281-284 | a flight is filed under its route name, which is opened on first sight |
| Digest.RenderProgram | flights_availability_check.py:274-294 | a program section is its header with the group size, then the routes in first-appearance order |
| Digest.RenderPeriod | flights_availability_check.py:270-296 | a period section is its header, then its programs in first-appearance order |
| Digest.CreateFoundMessage | flights_availability_check.py:243-298 | no message iff there are no results; otherwise the grouped, sorted, truncated message |
| Digest.FoundLines | flights_availability_check.py:243-298 | the message for a non-empty result list; its properties are stated by `CreateFoundMessage`, `FoundLinesAccount`, `FoundListedAreResults`, `ProgramHeadersCount` and `RouteFlightsSorted` |
| Digest.FlightLinesExact | flights_availability_check.py:288-291 | the listed flights are exactly the given ones, in order |
| Digest.RouteSectionShape | flights_availability_check.py:286-294 | a route lists min(5, n) flights, the first ones in sorted order, and ends with "n − 5 more" exactly when n > 5 |
| Digest.RouteLinesAccount | flights_availability_check.py:288-294 | listed flights plus the "more" count equal the route's flight count |
| Digest.FoundLinesAccount | flights_availability_check.py:243-298 | the listed flights plus the "more" counts add up to the number of results |
| Digest.FoundListedAreResults | flights_availability_check.py:243-298 | every listed flight is a result, and no result is listed more often than it occurs; with `FoundLinesAccount`, every result is listed or counted in a "more" line |
| Digest.ProgramHeadersCount | flights_availability_check.py:276 | every "N found" header gives its (period, program) group size, which is positive |
| Digest.SelectSorted | flights_availability_check.py:279-284 | sub-grouping a sorted list by route keeps each route sorted |
| Digest.RouteFlightsSorted | flights_availability_check.py:262-288 | the flights listed under a route come in (date, miles) order |
| Throttle.DayStart | flights_availability_check.py:328 | the current day is the midnight at or before `now`, less than a day earlier |
| Throttle.DecideDaily | flights_availability_check.py:300-353 | the daily gate as a function of the stored time, the clock and the file outcomes; stated by the lemmas below |
| Throttle.DecideStartup | flights_availability_check.py:20-44 | the startup test-and-set as a function of the marker and the file outcomes; stated by `StartupAtMostOnce` |
| Throttle.GateStore.ShouldSendHourlyMessage | flights_availability_check.py:323-353 | the daily gate's decision and the stored timestamp afterwards follow the gate function |
| Throttle.GateStore.ShouldSendStartupMessage | flights_availability_check.py:20-44 | the startup gate's decision and the marker afterwards follow the test-and-set, including a marker created but not written |
| Throttle.DailyDecisionExact | flights_availability_check.py:337-345 | with the lock, it sends iff nothing is stored or the stored time is before today; a send whose save succeeds records today; no send changes nothing |
| Throttle.LockBusyDeclines | flights_availability_check.py:347-349 | lock contention declines and leaves the store unchanged |
| Throttle.UnreadableStoreSends | flights_availability_check.py:300-313 | an unreadable or unparsable timestamp counts as absent, so the gate sends |
| Throttle.EmptiedStoreResends | flights_availability_check.py:315-321 | a save that emptied the file without writing it lets the next call that gets the lock send again |
| Throttle.SameDayTwice | flights_availability_check.py:340-345 | after a recorded send, a second call the same day declines |
| Throttle.NextDaySends | flights_availability_check.py:340-345 | after a recorded send, a call on a later day sends again |
| Throttle.StoredNeverDecreases | flights_availability_check.py:315-342 | with a readable store, the stored time only moves forward, or is lost only by a send whose save emptied the file |
| Throttle.AtMostOncePerDay | flights_availability_check.py:323-353 | over any calls within one day whose reads and saves succeed, at most one update goes out, and exactly one when none was sent that day and some call got the lock |
| Throttle.StartupAtMostOnce | flights_availability_check.py:20-44 | over any calls, the startup notice goes out at most once, and exactly once when it had not gone out and the first call to create the marker also wrote it; the marker exists afterwards iff it did before or some call created it |
| Throttle.UnwrittenMarkerSilences | flights_availability_check.py:34-41 | a marker created but not written silences the notice for the rest of the deployment |
| Driver.Outbox.Send | flights_availability_check.py:67-85 | a sent message is appended to the chat |
| Driver.CheckFlightsOnce | flights_availability_check.py:360-388 | with results, the found message goes out and the daily gate is not consulted; otherwise the update goes out exactly when the gate allows; the run reports the result count |

## Left out

- HTTP calls to the search service and the chat API are left out. `check_seats` is a function parameter, and sending is appending to an `Outbox`. The chat API's own failure is not modelled.
- File I/O and `fcntl.flock` are left out. Lock, read and write outcomes are inputs (`DailyEnv`, `StartupEnv`), and the persisted state lives in `GateStore` fields. The cross-process concurrency the lock guards against is not modelled.
- The hard-coded search configuration is a parameter (`Config`), not the literal periods and routes.
- Environment variables and console output are left out.
- The exception path of `check_flights_once` is left out: the "Monitor Error" message and the `{"status": "error"}` outcome. The model raises no exceptions.
- Message text is left out: emoji, the hard-coded period title, time formatting, upper-cased program names and thousands separators. The message is a list of structured lines.
- `create_no_flights_message` is not modelled beyond its time stamp: its text is fixed.
- Timestamp parsing is left out. `datetime.fromisoformat` and the naive-to-UTC replacement become integer seconds.
- The clock: all of one run's clock reads are the single `now` input.
- Strings.Lower: lower-cases ASCII letters only. Python's `.lower()` also folds non-ASCII letters.
- Records: a JSON `null` in a field is treated like a missing key and given the default. In the script the outcome depends on the field:
  - a null `Route` or `Source` raises `AttributeError` (`.get` at lines 106 and 198, `.lower()` at line 198), which ends in the error path;
  - a null `JRemainingSeats` raises `TypeError` at line 205 when `JAvailable` is true, and ends in the error path;
  - a null `JAirlines` raises `TypeError` only when a non-empty airline list is tested against it (lines 93 and 122); otherwise the result stores `None` (line 236) where the model stores the empty string;
  - a null `Date` raises `TypeError` only when the sort at line 264 compares it with a non-null date; a group of one flight, or one whose dates are all null, sorts without error, and the result stores `None` (line 233) where the model stores the empty string.
- `int(...)` on a non-integral mileage is not modelled: mileage costs are integers.
- Throttle.DecideDaily: unlike a plain "any error declines" reading, the code fails open on storage errors. A timestamp that cannot be read or parsed counts as absent, so the gate sends. A failed save is swallowed, so the gate still sends without recording the day; a save that opened (and so emptied) the file but failed to write leaves no timestamp, so the next call sends again. Only a failure to open the lock file or take the lock makes it decline. The model follows the code. A partly written timestamp is modelled as an empty file.
- Throttle.GateStore.ShouldSendStartupMessage: modelled, but nothing in the script calls it: `main` (lines 390-394) calls only `check_flights_once`, which does not consult the startup gate.
- Driver.CheckFlightsOnce: the script only sends when `create_found_message` returns a message. For non-empty results it always does, which `CreateFoundMessage` proves, so the found message is always sent.
- Digest.SortGroups: the sort writes the sorted lists into a new map instead of sorting each list in place.
