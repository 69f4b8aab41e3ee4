/** The busy clock of v2 rows. A rebuild brings the row of a root up to date whether or not
    its server is connected; only the loss of the connection and its return touch the stale
    mark. */
module Freezing {
  import opened Wrappers
  import opened Sessions
  import opened Aggregates
  import opened Rows

  /** What a v2 row goes through while its root is listed. */
  datatype Episode = Rebuilt(aggregate: Aggregate) | Lost | Restored

  datatype Moment = Moment(what: Episode, at: Instant)

  function Meet(row: Row, what: Episode, now: Instant): Row {
    match what
    case Rebuilt(aggregate) => Updated(row, aggregate, now)
    case Lost => StaleRow(row, true, now)
    case Restored => StaleRow(row, false, now)
  }

  function RunRow(row: Row, history: seq<Moment>): Row {
    if history == [] then row
    else
      var last := history[|history| - 1];
      Meet(RunRow(row, history[..|history| - 1]), last.what, last.at)
  }

  function LastAt(start: Instant, history: seq<Moment>): Instant {
    if history == [] then start else history[|history| - 1].at
  }

  predicate Monotone(start: Instant, history: seq<Moment>) {
    history == [] ||
    (Monotone(start, history[..|history| - 1]) &&
     LastAt(start, history[..|history| - 1]) <= history[|history| - 1].at)
  }

  predicate StaysBusy(history: seq<Moment>) {
    forall i :: 0 <= i < |history| && history[i].what.Rebuilt? ==> history[i].what.aggregate.busy
  }

  /** A busy row whose clock fields lie in the past and whose frozen count can continue. */
  predicate BusyClock(row: Row, now: Instant) {
    && row.busy && row.Baseline().Some? && row.Baseline().value <= now
    && (row.frozen.Some? ==> row.Baseline().value + row.frozen.value <= now)
  }

  /** Whether the row bears the stale mark. */
  function Marked(stale: bool, history: seq<Moment>): bool {
    if history == [] then stale
    else
      match history[|history| - 1].what
      case Lost => true
      case Restored => false
      case Rebuilt(_) => Marked(stale, history[..|history| - 1])
  }

  /** Whether the counter runs: a loss stops it unless the row is stale already, and any
      rebuild starts it again. */
  function Runs(live: bool, stale: bool, history: seq<Moment>): bool {
    if history == [] then live
    else
      var init := history[..|history| - 1];
      match history[|history| - 1].what
      case Rebuilt(_) => true
      case Lost => Runs(live, stale, init) && Marked(stale, init)
      case Restored => Runs(live, stale, init)
  }

  /** The wall time from `start` until `until` during which the counter runs. */
  function RunTime(start: Instant, live: bool, stale: bool, history: seq<Moment>, until: Instant): Duration
    requires Monotone(start, history) && LastAt(start, history) <= until
    decreases |history|
  {
    (if history == [] then 0 else RunTime(start, live, stale, history[..|history| - 1], history[|history| - 1].at))
    + if Runs(live, stale, history) then until - LastAt(start, history) else 0
  }

  lemma MeetKeepsClock(row: Row, what: Episode, now: Instant)
    requires BusyClock(row, now) && (what.Rebuilt? ==> what.aggregate.busy)
    ensures var after := Meet(row, what, now);
      && BusyClock(after, now) && after.BusyElapsed(now) == row.BusyElapsed(now)
      && after.stale == (what.Lost? || (what.Rebuilt? && row.stale))
      && (after.frozen.None? <==> what.Rebuilt? || (row.frozen.None? && !(what.Lost? && !row.stale)))
  {
  }

  lemma ElapsedGrows(row: Row, now: Instant, later: Instant)
    requires BusyClock(row, now) && now <= later
    ensures BusyClock(row, later)
    ensures row.BusyElapsed(now).Some? && row.BusyElapsed(later) ==
            Some(row.BusyElapsed(now).value + if row.frozen.None? then later - now else 0)
  {
  }

  /** The law of the v2 counter: over any history of a busy period it grows by the time
      during which it runs. */
  lemma {:induction false} ElapsedIsRunTime(row: Row, start: Instant, history: seq<Moment>, until: Instant)
    requires BusyClock(row, start) && StaysBusy(history)
    requires Monotone(start, history) && LastAt(start, history) <= until
    ensures var after := RunRow(row, history);
      && BusyClock(after, until)
      && after.stale == Marked(row.stale, history)
      && (after.frozen.None? <==> Runs(row.frozen.None?, row.stale, history))
      && row.BusyElapsed(start).Some?
      && after.BusyElapsed(until) ==
         Some(row.BusyElapsed(start).value + RunTime(start, row.frozen.None?, row.stale, history, until))
    decreases |history|
  {
    if history == [] {
      ElapsedGrows(row, start, until);
    } else {
      var init, last := history[..|history| - 1], history[|history| - 1];
      ElapsedIsRunTime(row, start, init, last.at);
      var before := RunRow(row, init);
      MeetKeepsClock(before, last.what, last.at);
      ElapsedGrows(Meet(before, last.what, last.at), last.at, until);
    }
  }

  // ---------- the promise that a disconnected counter freezes ----------

  /** The connection does not come back. */
  predicate StaysLost(history: seq<Moment>) {
    forall i :: 0 <= i < |history| ==> !history[i].what.Restored?
  }

  /** When the row is first rebuilt. */
  function FirstRebuild(history: seq<Moment>): Option<Instant> {
    if history == [] then None
    else
      var init := FirstRebuild(history[..|history| - 1]);
      if init.Some? then init
      else if history[|history| - 1].what.Rebuilt? then Some(history[|history| - 1].at) else None
  }

  predicate RebuiltBefore(history: seq<Moment>, until: Instant) {
    exists i :: 0 <= i < |history| && history[i].what.Rebuilt? && history[i].at < until
  }

  /** Without the connection nothing runs up to the first rebuild, and everything after it. */
  lemma {:induction false} LostRunTime(start: Instant, history: seq<Moment>, until: Instant)
    requires Monotone(start, history) && LastAt(start, history) <= until && StaysLost(history)
    ensures Marked(true, history) && (Runs(false, true, history) <==> FirstRebuild(history).Some?)
    ensures FirstRebuild(history).Some? ==> start <= FirstRebuild(history).value <= LastAt(start, history)
    ensures RunTime(start, false, true, history, until) ==
            if FirstRebuild(history).Some? then until - FirstRebuild(history).value else 0
    decreases |history|
  {
    if history != [] {
      LostRunTime(start, history[..|history| - 1], history[|history| - 1].at);
      LastNotBefore(start, history[..|history| - 1]);
    }
  }

  lemma {:induction false} LastNotBefore(start: Instant, history: seq<Moment>)
    requires Monotone(start, history)
    ensures start <= LastAt(start, history)
    decreases |history|
  {
    if history != [] {
      LastNotBefore(start, history[..|history| - 1]);
    }
  }

  lemma {:induction false} FirstRebuildIsFirst(start: Instant, history: seq<Moment>, until: Instant)
    requires Monotone(start, history) && LastAt(start, history) <= until
    ensures RebuiltBefore(history, until) <==> FirstRebuild(history).Some? && FirstRebuild(history).value < until
    decreases |history|
  {
    if history != [] {
      var n := |history| - 1;
      var init := history[..n];
      FirstRebuildIsFirst(start, init, until);
      if RebuiltBefore(init, until) {
        var i :| 0 <= i < n && init[i].what.Rebuilt? && init[i].at < until;
        assert history[i] == init[i];
      }
      if RebuiltBefore(history, until) {
        var i :| 0 <= i < |history| && history[i].what.Rebuilt? && history[i].at < until;
        if i < n {
          assert init[i] == history[i];
        } else {
          NotAfterLast(start, init);
        }
      }
    }
  }

  lemma {:induction false} NotAfterLast(start: Instant, history: seq<Moment>)
    requires Monotone(start, history)
    ensures FirstRebuild(history).Some? ==> FirstRebuild(history).value <= LastAt(start, history)
    decreases |history|
  {
    if history != [] {
      NotAfterLast(start, history[..|history| - 1]);
    }
  }

  /** When a v2 counter that ran when the connection was lost shows the time of the loss:
      exactly as long as the row is not rebuilt. From the first rebuild on it runs, although
      the server is still away. */
  lemma FrozenIffNotRebuilt(row: Row, lost: Instant, history: seq<Moment>, until: Instant)
    requires BusyClock(row, lost) && row.frozen.None? && !row.stale
    requires Monotone(lost, history) && LastAt(lost, history) <= until
    requires StaysLost(history) && StaysBusy(history)
    ensures var after := RunRow(Meet(row, Lost, lost), history);
      && after.stale
      && (after.BusyElapsed(until) == row.BusyElapsed(lost) <==> !RebuiltBefore(history, until))
      && after.BusyElapsed(until) ==
         Some(row.BusyElapsed(lost).value + if FirstRebuild(history).Some? then until - FirstRebuild(history).value else 0)
  {
    var frozen := Meet(row, Lost, lost);
    MeetKeepsClock(row, Lost, lost);
    ElapsedIsRunTime(frozen, lost, history, until);
    LostRunTime(lost, history, until);
    FirstRebuildIsFirst(lost, history, until);
  }

  /** A root that works since the origin of the clock, lost after a minute and rebuilt after
      two, shows two minutes after three. */
  lemma FreezeFails(instance: Instance, a: Aggregate)
    requires a.busy
    ensures var row := NewRow(instance, a, Some(0), 0);
      var history := [Moment(Lost, MINUTE), Moment(Rebuilt(a), 2 * MINUTE)];
      && row.BusyElapsed(MINUTE) == Some(MINUTE)
      && RunRow(row, history).stale
      && RunRow(row, history).BusyElapsed(3 * MINUTE) == Some(2 * MINUTE)
  {
    var row := NewRow(instance, a, Some(0), 0);
    var history := [Moment(Lost, MINUTE), Moment(Rebuilt(a), 2 * MINUTE)];
    assert history[..1] == [Moment(Lost, MINUTE)] && history[..1][..0] == [];
    assert RunRow(row, history[..1]) == StaleRow(row, true, MINUTE);
  }
}
