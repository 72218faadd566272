/** The two send gates. The daily gate lets at most one "no flights" update
    through per UTC day; the startup gate lets one startup notice through per
    deployment. Both persist their state in files guarded by a non-blocking
    exclusive lock; here the persisted state is the fields of a `GateStore`
    and the outcome of each file operation is an input. */
module Throttle {
  import opened Wrappers

  const SecondsPerDay: int := 86400

  /** Midnight UTC of the day holding `now`, in seconds since the epoch. */
  function DayStart(now: int): (d: int)
    ensures d % SecondsPerDay == 0
    ensures d <= now < d + SecondsPerDay
  {
    now - now % SecondsPerDay
  }

  /** How the file operations of one daily-gate call turn out: whether the
      lock was obtained, whether the stored timestamp could be read and
      parsed, whether the timestamp file could be opened for writing (which
      empties it), and whether the new timestamp was then written. */
  datatype DailyEnv = DailyEnv(lockAcquired: bool, readOk: bool, saveOpened: bool, writeOk: bool)

  /** Whether to send, and the stored timestamp afterwards (`None` for a
      missing or emptied file). */
  datatype DailyDecision = DailyDecision(send: bool, stored: Option<int>)

  /** The daily gate. Without the lock it declines. With it, a stored value
      that cannot be read counts as absent; the gate sends when that value is
      absent or before today's midnight, and then saves today's midnight. A
      failed save is swallowed and the gate still sends: when the file could
      not be opened it keeps its old content, when it was opened (and so
      emptied) but not written it is left empty. */
  function DecideDaily(stored: Option<int>, now: int, env: DailyEnv): DailyDecision {
    if !env.lockAcquired then DailyDecision(false, stored)
    else
      var last := if env.readOk then stored else None;
      if last.None? || last.value < DayStart(now) then
        var saved := if !env.saveOpened then stored else if env.writeOk then Some(DayStart(now)) else None;
        DailyDecision(true, saved)
      else DailyDecision(false, stored)
  }

  /** How the file operations of one startup-gate call turn out: whether the
      lock was obtained, whether the "sent" marker could be opened for
      writing (which creates it), and whether the time was then written to it. */
  datatype StartupEnv = StartupEnv(lockAcquired: bool, markerOpened: bool, writeOk: bool)

  datatype StartupDecision = StartupDecision(send: bool, sent: bool)

  /** The startup gate: a test-and-set on the "sent" marker, under the lock.
      Any failure after the lock ends in the error path, which declines; a
      marker that was created but not written still exists afterwards. */
  function DecideStartup(sent: bool, env: StartupEnv): StartupDecision {
    if !env.lockAcquired || sent then StartupDecision(false, sent)
    else if !env.markerOpened then StartupDecision(false, false)
    else if !env.writeOk then StartupDecision(false, true)
    else StartupDecision(true, true)
  }

  /** The persisted state of both gates. */
  class GateStore {
    var lastDay: Option<int>
    var startupSent: bool

    /** A fresh deployment: no timestamp file and no marker. */
    constructor()
      ensures lastDay == None && !startupSent
    {
      lastDay := None;
      startupSent := false;
    }

    /** Decides whether to send the daily "no flights" update. */
    method ShouldSendHourlyMessage(now: int, env: DailyEnv) returns (send: bool)
      modifies this
      ensures DecideDaily(old(lastDay), now, env) == DailyDecision(send, lastDay)
      ensures startupSent == old(startupSent)
    {
      var currentDay := DayStart(now);
      if !env.lockAcquired {
        return false;
      }
      var last := if env.readOk then lastDay else None;
      if last.None? || last.value < currentDay {
        if env.saveOpened {
          lastDay := None;
          if env.writeOk {
            lastDay := Some(currentDay);
          }
        }
        return true;
      }
      return false;
    }

    /** Decides whether to send the startup notice. */
    method ShouldSendStartupMessage(env: StartupEnv) returns (send: bool)
      modifies this
      ensures DecideStartup(old(startupSent), env) == StartupDecision(send, startupSent)
      ensures lastDay == old(lastDay)
    {
      if !env.lockAcquired {
        return false;
      }
      if startupSent {
        return false;
      }
      if !env.markerOpened {
        return false;
      }
      startupSent := true;
      if !env.writeOk {
        return false;
      }
      return true;
    }
  }

  // ---------------------------------------------------------------------
  // Properties of one call.

  /** With the lock and a readable store, the gate sends exactly when
      nothing was sent since today's midnight; after a send that was
      recorded, today's midnight is stored; without a send nothing changes. */
  lemma DailyDecisionExact(stored: Option<int>, now: int, env: DailyEnv)
    requires env.lockAcquired && env.readOk
    ensures var d := DecideDaily(stored, now, env);
      && (d.send <==> stored.None? || stored.value < DayStart(now))
      && (d.send && env.saveOpened && env.writeOk ==> d.stored == Some(DayStart(now)))
      && (!d.send ==> d.stored == stored)
  {
  }

  /** Lock contention declines and leaves the store as it was. */
  lemma LockBusyDeclines(stored: Option<int>, now: int, env: DailyEnv)
    requires !env.lockAcquired
    ensures DecideDaily(stored, now, env) == DailyDecision(false, stored)
  {
  }

  /** An unreadable timestamp file does not block the update: with the lock
      held the gate sends. */
  lemma UnreadableStoreSends(stored: Option<int>, now: int, env: DailyEnv)
    requires env.lockAcquired && !env.readOk
    ensures DecideDaily(stored, now, env).send
  {
  }

  /** A save that emptied the file without writing it makes the next call
      that gets the lock send again, whatever the time. */
  lemma EmptiedStoreResends(stored: Option<int>, now1: int, now2: int, env1: DailyEnv, env2: DailyEnv)
    requires DecideDaily(stored, now1, env1).send && env1.saveOpened && !env1.writeOk
    requires env2.lockAcquired
    ensures DecideDaily(DecideDaily(stored, now1, env1).stored, now2, env2).send
  {
  }

  /** After a recorded send, a second call later the same day declines. */
  lemma SameDayTwice(stored: Option<int>, now1: int, now2: int, env1: DailyEnv, env2: DailyEnv)
    requires DecideDaily(stored, now1, env1).send && env1.saveOpened && env1.writeOk
    requires DayStart(now1) == DayStart(now2) && env2.readOk
    ensures !DecideDaily(DecideDaily(stored, now1, env1).stored, now2, env2).send
  {
  }

  /** A call on a later day, with the lock and a readable store, sends again. */
  lemma NextDaySends(stored: Option<int>, now1: int, now2: int, env1: DailyEnv, env2: DailyEnv)
    requires DecideDaily(stored, now1, env1).send && env1.saveOpened && env1.writeOk
    requires now2 >= DayStart(now1) + SecondsPerDay
    requires env2.lockAcquired && env2.readOk
    ensures DecideDaily(DecideDaily(stored, now1, env1).stored, now2, env2).send
  {
  }

  /** With a readable store the stored timestamp never moves backwards: it
      is only replaced by a later midnight, or lost to a save that emptied
      the file without writing it. */
  lemma StoredNeverDecreases(stored: Option<int>, now: int, env: DailyEnv)
    requires env.readOk
    ensures var d := DecideDaily(stored, now, env);
      && (stored.Some? && d.stored.Some? ==> stored.value <= d.stored.value)
      && (stored.Some? && d.stored.None? ==> d.send && env.saveOpened && !env.writeOk)
  {
  }

  // ---------------------------------------------------------------------
  // Runs of several calls.

  datatype DailyCall = DailyCall(now: int, env: DailyEnv)

  datatype DailyRun = DailyRun(sends: seq<bool>, stored: Option<int>)

  /** The decisions of consecutive daily-gate calls, and the stored
      timestamp after them. */
  function RunDaily(stored: Option<int>, calls: seq<DailyCall>): (r: DailyRun)
    ensures |r.sends| == |calls|
    decreases |calls|
  {
    if calls == [] then DailyRun([], stored)
    else
      var prev := RunDaily(stored, calls[..|calls| - 1]);
      var c := calls[|calls| - 1];
      var d := DecideDaily(prev.stored, c.now, c.env);
      DailyRun(prev.sends + [d.send], d.stored)
  }

  function CountSends(sends: seq<bool>): nat
    decreases |sends|
  {
    if sends == [] then 0
    else CountSends(sends[..|sends| - 1]) + (if sends[|sends| - 1] then 1 else 0)
  }

  /** Some call of `calls` obtained the lock. */
  ghost predicate SomeLocked(calls: seq<DailyCall>) {
    exists i :: 0 <= i < |calls| && calls[i].env.lockAcquired
  }

  lemma SomeLockedSnoc(calls: seq<DailyCall>)
    requires calls != []
    ensures SomeLocked(calls) <==>
      SomeLocked(calls[..|calls| - 1]) || calls[|calls| - 1].env.lockAcquired
  {
    var init := calls[..|calls| - 1];
    if SomeLocked(init) {
      var i :| 0 <= i < |init| && init[i].env.lockAcquired;
      assert calls[i] == init[i];
    }
    if SomeLocked(calls) {
      var i :| 0 <= i < |calls| && calls[i].env.lockAcquired;
      if i < |init| {
        assert init[i] == calls[i];
      }
    }
  }

  /** Over any number of calls within one UTC day, with every file operation
      but the lock succeeding, at most one update goes out; exactly one goes
      out when none had been sent that day and some call got the lock. */
  lemma {:induction false} AtMostOncePerDay(stored: Option<int>, calls: seq<DailyCall>, day: int)
    requires forall i :: 0 <= i < |calls| ==> DayStart(calls[i].now) == day
    requires forall i :: 0 <= i < |calls| ==> calls[i].env.readOk && calls[i].env.saveOpened && calls[i].env.writeOk
    ensures CountSends(RunDaily(stored, calls).sends) <= 1
    ensures CountSends(RunDaily(stored, calls).sends) == 1 <==>
      (stored.None? || stored.value < day) && SomeLocked(calls)
    ensures RunDaily(stored, calls).stored ==
      if CountSends(RunDaily(stored, calls).sends) == 1 then Some(day) else stored
    decreases |calls|
  {
    if calls != [] {
      var init := calls[..|calls| - 1];
      AtMostOncePerDay(stored, init, day);
      SomeLockedSnoc(calls);
      var sends := RunDaily(stored, calls).sends;
      assert sends[..|sends| - 1] == RunDaily(stored, init).sends;
    }
  }

  datatype StartupRun = StartupRun(sends: seq<bool>, sent: bool)

  function RunStartups(sent: bool, envs: seq<StartupEnv>): (r: StartupRun)
    ensures |r.sends| == |envs|
    decreases |envs|
  {
    if envs == [] then StartupRun([], sent)
    else
      var prev := RunStartups(sent, envs[..|envs| - 1]);
      var d := DecideStartup(prev.sent, envs[|envs| - 1]);
      StartupRun(prev.sends + [d.send], d.sent)
  }

  /** Some call of `envs` obtained the lock and created the marker. */
  ghost predicate SomeOpened(envs: seq<StartupEnv>) {
    exists i :: 0 <= i < |envs| && envs[i].lockAcquired && envs[i].markerOpened
  }

  /** The first call of `envs` that created the marker also wrote it. */
  ghost predicate FirstOpenWrote(envs: seq<StartupEnv>) {
    exists i :: 0 <= i < |envs| && envs[i].lockAcquired && envs[i].markerOpened && envs[i].writeOk
      && !SomeOpened(envs[..i])
  }

  lemma SomeOpenedSnoc(envs: seq<StartupEnv>)
    requires envs != []
    ensures SomeOpened(envs) <==>
      SomeOpened(envs[..|envs| - 1]) || (envs[|envs| - 1].lockAcquired && envs[|envs| - 1].markerOpened)
  {
    var init := envs[..|envs| - 1];
    if SomeOpened(init) {
      var i :| 0 <= i < |init| && init[i].lockAcquired && init[i].markerOpened;
      assert envs[i] == init[i];
    }
    if SomeOpened(envs) {
      var i :| 0 <= i < |envs| && envs[i].lockAcquired && envs[i].markerOpened;
      if i < |init| {
        assert init[i] == envs[i];
      }
    }
  }

  lemma FirstOpenWroteSnoc(envs: seq<StartupEnv>)
    requires envs != []
    ensures var init, e := envs[..|envs| - 1], envs[|envs| - 1];
      FirstOpenWrote(envs) <==>
        FirstOpenWrote(init) || (!SomeOpened(init) && e.lockAcquired && e.markerOpened && e.writeOk)
    ensures FirstOpenWrote(envs[..|envs| - 1]) ==> SomeOpened(envs[..|envs| - 1])
  {
    var init := envs[..|envs| - 1];
    if FirstOpenWrote(init) {
      var i :| 0 <= i < |init| && init[i].lockAcquired && init[i].markerOpened && init[i].writeOk
        && !SomeOpened(init[..i]);
      assert envs[i] == init[i] && envs[..i] == init[..i];
    }
    if FirstOpenWrote(envs) {
      var i :| 0 <= i < |envs| && envs[i].lockAcquired && envs[i].markerOpened && envs[i].writeOk
        && !SomeOpened(envs[..i]);
      if i < |init| {
        assert init[i] == envs[i] && init[..i] == envs[..i];
      } else {
        assert envs[..i] == init;
      }
    }
    if !SomeOpened(init) && envs[|envs| - 1].lockAcquired && envs[|envs| - 1].markerOpened && envs[|envs| - 1].writeOk {
      assert envs[..|init|] == init;
    }
  }

  /** Over any run of calls in one deployment the startup notice goes out at
      most once. It goes out exactly when it had not gone out and the first
      call to create the marker also wrote it; the marker exists afterwards
      exactly when it existed before or some call created it. */
  lemma {:induction false} StartupAtMostOnce(sent: bool, envs: seq<StartupEnv>)
    ensures CountSends(RunStartups(sent, envs).sends) <= 1
    ensures CountSends(RunStartups(sent, envs).sends) == 1 <==> !sent && FirstOpenWrote(envs)
    ensures RunStartups(sent, envs).sent <==> sent || SomeOpened(envs)
    decreases |envs|
  {
    if envs != [] {
      var init := envs[..|envs| - 1];
      StartupAtMostOnce(sent, init);
      SomeOpenedSnoc(envs);
      FirstOpenWroteSnoc(envs);
      var sends := RunStartups(sent, envs).sends;
      assert sends[..|sends| - 1] == RunStartups(sent, init).sends;
    }
  }

  /** A marker created but not written silences the notice for the rest of
      the deployment, even when later calls could write it. */
  lemma UnwrittenMarkerSilences(rest: seq<StartupEnv>)
    ensures CountSends(RunStartups(false, [StartupEnv(true, true, false)] + rest).sends) == 0
  {
    var envs := [StartupEnv(true, true, false)] + rest;
    StartupAtMostOnce(false, envs);
    forall i | 0 < i < |envs| ensures SomeOpened(envs[..i]) {
      assert envs[..i][0] == envs[0];
    }
  }
}
