/** The per-row filter predicates: required airlines, direct flights, route
    preferences and the mileage cap. */
module Filters {
  import opened Wrappers
  import opened Strings
  import opened Records

  /** Python's `any(code in airlines for code in codes)`: some code occurs as a
      substring of the airline string, so "A" is found inside "AA". */
  predicate AnyAirlineIn(codes: seq<string>, airlines: string) {
    exists i :: 0 <= i < |codes| && Contains(codes[i], airlines)
  }

  /** `AnyAirlineIn` in terms of the substring relation. */
  lemma AnyAirlineInIff(codes: seq<string>, airlines: string)
    ensures AnyAirlineIn(codes, airlines) <==> exists c :: c in codes && IsSubstring(c, airlines)
  {
    forall i | 0 <= i < |codes| {
      ContainsIsSubstring(codes[i], airlines);
    }
  }

  /** No restriction when the list is missing or empty; otherwise some required
      code must occur in the row's `JAirlines` string. */
  predicate FilterByAirline(r: Record, required: Option<seq<string>>) {
    if required.None? || required.value == [] then true
    else AnyAirlineIn(required.value, AirlinesOf(r))
  }

  lemma FilterByAirlineIff(r: Record, required: Option<seq<string>>)
    ensures FilterByAirline(r, required) <==>
      required.None? || required.value == [] ||
      exists c :: c in required.value && IsSubstring(c, AirlinesOf(r))
  {
    if required.Some? {
      AnyAirlineInIff(required.value, AirlinesOf(r));
    }
  }

  /** Substring semantics: a required code "A" is satisfied by the airline string "AA". */
  lemma ShortCodeMatchesLongerCode(r: Record)
    requires r.jAirlines == Some("AA")
    ensures FilterByAirline(r, Some(["A"]))
    ensures !FilterByAirline(r, Some(["B"]))
  {
    assert AirlinesOf(r) == "AA";
    assert "AA"[..1] == "A";
    assert Contains(["A"][0], "AA");
    assert "AA"[..1] == "A" && "AA"[1..] == "A" && "A"[1..] == "";
    assert "A"[0] != "B"[0];
    assert !Contains(["B"][0], "AA");
  }

  /** No restriction unless direct flights are required; then the row's
      `JDirect` flag decides, a missing flag meaning connecting. */
  predicate FilterByDirect(r: Record, directOnly: bool) {
    if !directOnly then true else IsDirect(r)
  }

  lemma FilterByDirectIff(r: Record, directOnly: bool)
    ensures FilterByDirect(r, directOnly) <==> !directOnly || r.jDirect == Some(true)
  {
  }

  /** One preference matches the row: origin and destination are listed and,
      if the preference names airlines, one of them occurs in the row's airlines. */
  predicate PreferenceMatches(r: Record, pref: RoutePreference) {
    && OriginOf(r) in pref.origins
    && DestinationOf(r) in pref.destinations
    && (pref.airlines == [] || AnyAirlineIn(pref.airlines, AirlinesOf(r)))
  }

  /** The preference loop: skip to the next preference at the first failed
      criterion, succeed on the first preference that passes them all. */
  predicate FirstPreferenceMatch(r: Record, prefs: seq<RoutePreference>)
    decreases |prefs|
  {
    if prefs == [] then false
    else if OriginOf(r) !in prefs[0].origins then FirstPreferenceMatch(r, prefs[1..])
    else if DestinationOf(r) !in prefs[0].destinations then FirstPreferenceMatch(r, prefs[1..])
    else if prefs[0].airlines != [] && !AnyAirlineIn(prefs[0].airlines, AirlinesOf(r)) then
      FirstPreferenceMatch(r, prefs[1..])
    else true
  }

  /** Missing or empty preferences accept every row. */
  predicate FilterByRoutePreferences(r: Record, prefs: Option<seq<RoutePreference>>) {
    if prefs.None? || prefs.value == [] then true
    else FirstPreferenceMatch(r, prefs.value)
  }

  /** The loop succeeds exactly when some preference matches. */
  lemma {:induction false} FirstPreferenceMatchIff(r: Record, prefs: seq<RoutePreference>)
    ensures FirstPreferenceMatch(r, prefs) <==> exists i :: 0 <= i < |prefs| && PreferenceMatches(r, prefs[i])
    decreases |prefs|
  {
    if prefs != [] {
      FirstPreferenceMatchIff(r, prefs[1..]);
      if exists i :: 0 <= i < |prefs| && PreferenceMatches(r, prefs[i]) {
        var i :| 0 <= i < |prefs| && PreferenceMatches(r, prefs[i]);
        if i > 0 {
          assert prefs[1..][i - 1] == prefs[i];
        }
      }
      if exists i :: 0 <= i < |prefs[1..]| && PreferenceMatches(r, prefs[1..][i]) {
        var i :| 0 <= i < |prefs[1..]| && PreferenceMatches(r, prefs[1..][i]);
        assert PreferenceMatches(r, prefs[i + 1]);
      }
    }
  }

  /** The route-preference filter accepts a row exactly when preferences are
      missing or empty, or some preference lists the row's origin and
      destination and either names no airline or names one that occurs as a
      substring of the row's airlines. */
  lemma FilterByRoutePreferencesIff(r: Record, prefs: Option<seq<RoutePreference>>)
    ensures FilterByRoutePreferences(r, prefs) <==>
      prefs.None? || prefs.value == [] ||
      exists p :: p in prefs.value
        && OriginOf(r) in p.origins
        && DestinationOf(r) in p.destinations
        && (p.airlines == [] || exists c :: c in p.airlines && IsSubstring(c, AirlinesOf(r)))
  {
    if prefs.Some? && prefs.value != [] {
      var ps := prefs.value;
      FirstPreferenceMatchIff(r, ps);
      forall p | p in ps {
        AnyAirlineInIff(p.airlines, AirlinesOf(r));
      }
      if FirstPreferenceMatch(r, ps) {
        var i :| 0 <= i < |ps| && PreferenceMatches(r, ps[i]);
        assert ps[i] in ps;
      }
    }
  }

  /** Worked example: with preferences [{A -> B, any airline}, {C -> D, airline X}],
      a row A -> B flown by Y matches the first, and a row C -> D flown by Z matches none. */
  lemma PreferenceExample(r1: Record, r2: Record)
    requires OriginOf(r1) == "A" && DestinationOf(r1) == "B" && AirlinesOf(r1) == "Y"
    requires OriginOf(r2) == "C" && DestinationOf(r2) == "D" && AirlinesOf(r2) == "Z"
    ensures var prefs := Some([RoutePreference(["A"], ["B"], []), RoutePreference(["C"], ["D"], ["X"])]);
      FilterByRoutePreferences(r1, prefs) && !FilterByRoutePreferences(r2, prefs)
  {
    var ps := [RoutePreference(["A"], ["B"], []), RoutePreference(["C"], ["D"], ["X"])];
    assert "Z"[..1] == "Z" && "Z"[1..] == "" && "Z"[0] != "X"[0];
    assert !Contains("X", "Z");
    assert !AnyAirlineIn(["X"], "Z");
    assert !FirstPreferenceMatch(r2, ps[1..][1..]);
    assert !FirstPreferenceMatch(r2, ps[1..]);
  }

  /** `JMileageCost` must not exceed the cap; a missing or zero cost reads as 0. */
  predicate WithinMileageCap(r: Record, maxMiles: int) {
    MilesOf(r) <= maxMiles
  }

  /** The cap is inclusive: a cost above it fails, a cost equal to it passes,
      and a missing, null or zero cost passes every non-negative cap. */
  lemma MileageCapBoundary(r: Record, maxMiles: int)
    ensures r.jMileageCost == Some(maxMiles) ==> WithinMileageCap(r, maxMiles)
    ensures (exists c :: r.jMileageCost == Some(c) && c > maxMiles) ==> !WithinMileageCap(r, maxMiles)
    ensures maxMiles >= 0 && (r.jMileageCost.None? || r.jMileageCost == Some(0)) ==> WithinMileageCap(r, maxMiles)
  {
  }
}
