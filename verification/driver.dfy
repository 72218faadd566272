/** One monitoring run: search, then either send the "flights found" message
    or consult the daily gate and possibly send the daily "no flights" update. */
module Driver {
  import opened Records
  import opened Search
  import opened Digest
  import opened Throttle

  datatype Message =
    | FoundMessage(lines: seq<Line>)   // the grouped "flights found" message
    | DailyUpdate(now: int)            // the fixed "no flights found" text, stamped with the time

  /** The run's reported outcome: `{"status": "success", "flights_found": n}`. */
  datatype RunOutcome = Success(flightsFound: nat)

  /** The chat messages sent so far, oldest first. */
  class Outbox {
    var sent: seq<Message>

    constructor()
      ensures sent == []
    {
      sent := [];
    }

    method Send(m: Message)
      modifies this
      ensures sent == old(sent) + [m]
    {
      sent := sent + [m];
    }
  }

  /** One run at time `now`. With results, the found message goes out and
      the daily gate is left alone; without, the daily update goes out
      exactly when the daily gate lets it through. The startup gate is not
      consulted. */
  method CheckFlightsOnce(config: Config, search: SearchFn, now: int, env: DailyEnv,
                          store: GateStore, outbox: Outbox)
    returns (outcome: RunOutcome)
    modifies store, outbox
    ensures outcome == Success(|SearchResults(config, search)|)
    ensures store.startupSent == old(store.startupSent)
    ensures SearchResults(config, search) != [] ==>
      && outbox.sent == old(outbox.sent) + [FoundMessage(FoundLines(SearchResults(config, search), now))]
      && store.lastDay == old(store.lastDay)
    ensures SearchResults(config, search) == [] ==>
      var d := DecideDaily(old(store.lastDay), now, env);
      && store.lastDay == d.stored
      && outbox.sent == old(outbox.sent) + (if d.send then [DailyUpdate(now)] else [])
  {
    var results := SearchRoutes(config, search);
    if results != [] {
      var message := CreateFoundMessage(results, now);
      if message.Some? {
        outbox.Send(FoundMessage(message.value));
      }
    } else {
      var send := store.ShouldSendHourlyMessage(now, env);
      if send {
        outbox.Send(DailyUpdate(now));
      }
    }
    return Success(|results|);
  }
}
