/** Whole runs of the v1 dashboard: reports, losses and returns of any servers, and what they
    mean for the busy counter of one row. */
module ClockRuns {
  import opened Wrappers
  import opened Sessions
  import opened Aggregates
  import opened Matching
  import opened Rows
  import opened Clock

  datatype Step =
    | Projection(instance: Instance, sessions: seq<Session>, at: Instant)
    | Loss(instance: Instance, at: Instant)
    | Return(instance: Instance, at: Instant)

  function LastStep(start: Instant, steps: seq<Step>): Instant {
    if steps == [] then start else steps[|steps| - 1].at
  }

  predicate InOrder(start: Instant, steps: seq<Step>) {
    steps == [] ||
    (InOrder(start, steps[..|steps| - 1]) && LastStep(start, steps[..|steps| - 1]) <= steps[|steps| - 1].at)
  }

  /** The session of the row stays a root in every report of its server. */
  predicate StaysRoot(step: Step, key: Key) {
    step.Projection? ==> UniqueIds(step.sessions) && (step.instance == key.0 ==> key.1 in Roots(TableOf(step.sessions)))
  }

  predicate StayRoot(steps: seq<Step>, key: Key) {
    forall i :: 0 <= i < |steps| ==> StaysRoot(steps[i], key)
  }

  ghost predicate Tells(step: Step, key: Key, moment: Timed) {
    moment.at == step.at &&
    match step
    case Projection(_, sessions, _) => moment.what.Reported? && RootReport(sessions, key.1, moment.what.aggregate)
    case Loss(_, _) => moment.what.Lost?
    case Return(_, _) => moment.what.Restored?
  }

  ghost predicate RootReport(sessions: seq<Session>, root: Id, a: Aggregate) {
    UniqueIds(sessions) && a.id == root && Describes(TableOf(sessions), a)
  }

  /** What the steps mean for the row of `key`: those of its own server, in their order. */
  ghost predicate HistoryOf(steps: seq<Step>, key: Key, history: seq<Timed>) {
    if steps == [] then history == []
    else
      var init, last := steps[..|steps| - 1], steps[|steps| - 1];
      if last.instance != key.0 then HistoryOf(init, key, history)
      else
        history != [] && HistoryOf(init, key, history[..|history| - 1]) && Tells(last, key, history[|history| - 1])
  }

  lemma {:induction false} HistoryInOrder(start: Instant, steps: seq<Step>, key: Key, history: seq<Timed>)
    requires InOrder(start, steps) && HistoryOf(steps, key, history)
    ensures Monotone(start, history) && LastAt(start, history) <= LastStep(start, steps)
    decreases |steps|
  {
    if steps != [] {
      var init, last := steps[..|steps| - 1], steps[|steps| - 1];
      if last.instance != key.0 {
        HistoryInOrder(start, init, key, history);
      } else {
        HistoryInOrder(start, init, key, history[..|history| - 1]);
      }
    }
  }

  lemma HistoryMore(steps: seq<Step>, step: Step, key: Key, history: seq<Timed>, moment: Timed)
    requires HistoryOf(steps, key, history)
    ensures step.instance != key.0 ==> HistoryOf(steps + [step], key, history)
    ensures step.instance == key.0 && Tells(step, key, moment) ==> HistoryOf(steps + [step], key, history + [moment])
  {
    assert (steps + [step])[..|steps|] == steps && (history + [moment])[..|history|] == history;
  }

  lemma RunMore(row: Row, history: seq<Timed>, moment: Timed)
    ensures RunRow(row, history + [moment]) == Happen(RunRow(row, history), moment.what, moment.at)
  {
    assert (history + [moment])[..|history|] == history;
  }

  lemma RowsStayOk(key: Key, row: Row, connected: set<Instance>, now: Instant, later: Instant)
    requires RowOk(key, row, connected, now) && now <= later
    ensures RowOk(key, row, connected, later)
  {
  }

  method Take(dashboard: V1Dashboard, key: Key, step: Step, ghost now: Instant) returns (ghost moment: Timed)
    requires dashboard.Valid(now) && now <= step.at && StaysRoot(step, key)
    requires key in dashboard.rows && key !in dashboard.pendingReady
    modifies dashboard
    ensures dashboard.Valid(step.at) && key in dashboard.rows && key !in dashboard.pendingReady
    ensures step.instance != key.0 ==> dashboard.rows[key] == old(dashboard.rows[key])
    ensures step.instance == key.0 ==>
      Tells(step, key, moment) && dashboard.rows[key] == Happen(old(dashboard.rows[key]), moment.what, moment.at)
  {
    forall k | k in dashboard.rows ensures RowOk(k, dashboard.rows[k], dashboard.connected, step.at) {
      RowsStayOk(k, dashboard.rows[k], dashboard.connected, now, step.at);
    }
    moment := Timed(Lost, step.at);
    match step {
      case Projection(instance, sessions, at) =>
        moment := Report(dashboard, key, instance, sessions, at);
      case Loss(instance, at) =>
        dashboard.Disconnect(instance, at);
      case Return(instance, at) =>
        dashboard.Connect(instance, at);
        moment := Timed(Restored, at);
    }
  }

  method Report(dashboard: V1Dashboard, key: Key, instance: Instance, sessions: seq<Session>, at: Instant) returns (ghost moment: Timed)
    requires dashboard.Valid(at) && UniqueIds(sessions)
    requires instance == key.0 ==> key.1 in Roots(TableOf(sessions))
    requires key in dashboard.rows && key !in dashboard.pendingReady
    modifies dashboard
    ensures dashboard.Valid(at) && key in dashboard.rows && key !in dashboard.pendingReady
    ensures instance != key.0 ==> dashboard.rows[key] == old(dashboard.rows[key])
    ensures instance == key.0 ==>
      && moment.at == at && moment.what.Reported? && RootReport(sessions, key.1, moment.what.aggregate)
      && dashboard.rows[key] == Happen(old(dashboard.rows[key]), moment.what, at)
  {
    ghost var before, seen, pending := dashboard.rows, dashboard.lastNonBusy, dashboard.pendingReady;
    ghost var listed := dashboard.ApplyProjection(instance, sessions, at);
    moment := Timed(Lost, at);
    if instance == key.0 {
      ReportHappens(instance, TableOf(sessions), listed, pending, before, seen, dashboard.rows, at, key.1);
      ghost var a :| Describes(TableOf(sessions), a) && a.id == key.1 && dashboard.rows[key] == Happen(before[key], Reported(a), at);
      moment := Timed(Reported(a), at);
    } else {
      OthersKept(instance, TableOf(sessions), listed, pending, before, seen, dashboard.rows, at, key);
    }
  }

  lemma OthersKept(instance: Instance, table: Table, listed: seq<Aggregate>, pending: set<Key>, before: map<Key, Row>,
                   seen: map<Key, Instant>, after: map<Key, Row>, now: Instant, key: Key)
    requires ReportedRows(instance, table, listed, pending, before, seen, after, now) && key.0 != instance && key in before
    ensures key in after && after[key] == before[key]
  {
    assert ReportedAs(instance, table, listed, key in pending, key, At(before, key), At(seen, key), At(after, key), now);
  }

  /** Over any run the row of a session that stays a root goes through exactly the history
      that the steps of its own server make. */
  method Follow(dashboard: V1Dashboard, key: Key, steps: seq<Step>, ghost start: Instant) returns (ghost history: seq<Timed>)
    requires dashboard.Valid(start) && InOrder(start, steps) && StayRoot(steps, key)
    requires key in dashboard.rows && key !in dashboard.pendingReady
    modifies dashboard
    ensures dashboard.Valid(LastStep(start, steps)) && key in dashboard.rows
    ensures HistoryOf(steps, key, history) && dashboard.rows[key] == RunRow(old(dashboard.rows[key]), history)
  {
    history := [];
    for i := 0 to |steps|
      invariant dashboard.Valid(LastStep(start, steps[..i])) && key in dashboard.rows && key !in dashboard.pendingReady
      invariant HistoryOf(steps[..i], key, history) && dashboard.rows[key] == RunRow(old(dashboard.rows[key]), history)
    {
      assert steps[..i + 1] == steps[..i] + [steps[i]];
      StepInOrder(start, steps, i);
      ghost var moment := Take(dashboard, key, steps[i], LastStep(start, steps[..i]));
      HistoryMore(steps[..i], steps[i], key, history, moment);
      RunMore(old(dashboard.rows[key]), history, moment);
      if steps[i].instance == key.0 {
        history := history + [moment];
      }
    }
    assert steps[..|steps|] == steps;
  }

  lemma {:induction false} StepInOrder(start: Instant, steps: seq<Step>, i: nat)
    requires InOrder(start, steps) && i < |steps|
    ensures LastStep(start, steps[..i]) <= steps[i].at
    decreases |steps|
  {
    if i < |steps| - 1 {
      StepInOrder(start, steps[..|steps| - 1], i);
      assert steps[..|steps| - 1][..i] == steps[..i];
    }
  }

  /** What such a row shows: while its root is reported busy, the counter has grown by the
      time that was not lost between a disconnect and the next report. */
  lemma RunShowsLiveTime(row: Row, start: Instant, steps: seq<Step>, key: Key, history: seq<Timed>, until: Instant)
    requires row.busy && ClockOk(row, start) && InOrder(start, steps) && LastStep(start, steps) <= until
    requires HistoryOf(steps, key, history) && StaysBusy(history)
    ensures Monotone(start, history) && LastAt(start, history) <= until && row.BusyElapsed(start).Some?
    ensures RunRow(row, history).BusyElapsed(until) ==
            Some(row.BusyElapsed(start).value + LiveTime(start, row.frozen.None?, history, until))
  {
    HistoryInOrder(start, steps, key, history);
    ElapsedIsLiveTime(row, start, history, until);
  }
}
