/** The busy clock of v1 rows and the redraw deadline. The dashboard's list of rows, which
    is sorted again after every event, is kept as a map from row keys. */
module Clock {
  import opened Wrappers
  import opened Sessions
  import opened Aggregates
  import opened Matching
  import opened Rows

  // ---------- one row over a busy period ----------

  /** Clock fields a v1 row can have at `now`: a running row has a baseline in the past and
      is not stale; a frozen one could still continue from its count. */
  predicate ClockOk(row: Row, now: Instant) {
    && (row.lastNonBusy.Some? ==> row.lastNonBusy.value <= now)
    && (row.firstBusyObserved.Some? ==> row.firstBusyObserved.value <= now)
    && (row.busy ==> row.Baseline().Some?)
    && (row.frozen.Some? ==> row.busy && row.Baseline().value + row.frozen.value <= now)
    && (row.busy && row.frozen.None? ==> !row.stale)
  }

  /** What a v1 row goes through: a report of its server, the loss of the server's
      connection, and its return. */
  datatype Happening = Reported(aggregate: Aggregate) | Lost | Restored

  datatype Timed = Timed(what: Happening, at: Instant)

  function Happen(row: Row, what: Happening, now: Instant): Row {
    match what
    case Reported(aggregate) => StaleRow(Updated(row, aggregate, now), false, now)
    case Lost => StaleRow(row, true, now)
    case Restored => StaleRow(row, false, now)
  }

  function RunRow(row: Row, history: seq<Timed>): Row {
    if history == [] then row
    else
      var last := history[|history| - 1];
      Happen(RunRow(row, history[..|history| - 1]), last.what, last.at)
  }

  function LastAt(start: Instant, history: seq<Timed>): Instant {
    if history == [] then start else history[|history| - 1].at
  }

  /** The clock does not run backwards. */
  predicate Monotone(start: Instant, history: seq<Timed>) {
    history == [] ||
    (Monotone(start, history[..|history| - 1]) &&
     LastAt(start, history[..|history| - 1]) <= history[|history| - 1].at)
  }

  predicate StaysBusy(history: seq<Timed>) {
    forall i :: 0 <= i < |history| && history[i].what.Reported? ==> history[i].what.aggregate.busy
  }

  /** Whether time counts: not from the loss of the connection up to the next report. */
  function Live(live: bool, history: seq<Timed>): bool {
    if history == [] then live
    else
      match history[|history| - 1].what
      case Reported(_) => true
      case Lost => false
      case Restored => Live(live, history[..|history| - 1])
  }

  /** Wall time from `start` until `until`, less each span that does not count. */
  function LiveTime(start: Instant, live: bool, history: seq<Timed>, until: Instant): Duration
    requires Monotone(start, history) && LastAt(start, history) <= until
    decreases |history|
  {
    (if history == [] then 0 else LiveTime(start, live, history[..|history| - 1], history[|history| - 1].at))
    + if Live(live, history) then until - LastAt(start, history) else 0
  }

  lemma HappenKeepsClock(row: Row, what: Happening, now: Instant)
    requires row.busy && ClockOk(row, now)
    requires what.Reported? ==> what.aggregate.busy
    ensures var after := Happen(row, what, now);
      && after.busy && ClockOk(after, now)
      && after.BusyElapsed(now) == row.BusyElapsed(now)
      && (after.frozen.None? <==> what.Reported? || (what.Restored? && row.frozen.None?))
  {
  }

  lemma ElapsedGrows(row: Row, now: Instant, later: Instant)
    requires row.busy && ClockOk(row, now) && now <= later
    ensures row.BusyElapsed(now).Some? && row.BusyElapsed(later) ==
            Some(row.BusyElapsed(now).value + if row.frozen.None? then later - now else 0)
  {
  }

  /** Within a busy period the counter grows by the time that counts, and only by it;
      in particular resuming from a frozen count never fails. */
  lemma {:induction false} ElapsedIsLiveTime(row: Row, start: Instant, history: seq<Timed>, until: Instant)
    requires row.busy && ClockOk(row, start)
    requires Monotone(start, history) && LastAt(start, history) <= until && StaysBusy(history)
    ensures var after := RunRow(row, history);
      && after.busy && ClockOk(after, until)
      && (after.frozen.None? <==> Live(row.frozen.None?, history))
      && row.BusyElapsed(start).Some?
      && after.BusyElapsed(until) ==
         Some(row.BusyElapsed(start).value + LiveTime(start, row.frozen.None?, history, until))
    decreases |history|
  {
    if history == [] {
      ElapsedGrows(row, start, until);
    } else {
      var init, last := history[..|history| - 1], history[|history| - 1];
      ElapsedIsLiveTime(row, start, init, last.at);
      var before := RunRow(row, init);
      HappenKeepsClock(before, last.what, last.at);
      ElapsedGrows(Happen(before, last.what, last.at), last.at, until);
    }
  }

  /** The server goes and comes back, perhaps more than once, without reporting. */
  predicate Silent(absence: seq<Timed>) {
    forall i :: 0 <= i < |absence| ==> !absence[i].what.Reported?
  }

  lemma {:induction false} AbsenceKeepsClock(row: Row, absence: seq<Timed>)
    requires Silent(absence) && (row.busy ==> row.frozen.Some?) && (!row.busy ==> row.frozen.None?)
    ensures var after := RunRow(row, absence);
      && after.busy == row.busy && after.frozen == row.frozen
      && after.lastNonBusy == row.lastNonBusy && after.firstBusyObserved == row.firstBusyObserved
  {
    if absence != [] {
      AbsenceKeepsClock(row, absence[..|absence| - 1]);
    }
  }

  /** An absence of the server, up to a report that the root is busy, is left out of the
      counter if and only if the root was busy when the connection was lost. A row that was
      idle then counts on from when it was last seen idle. */
  lemma AbsenceLeftOutIff(row: Row, lost: Instant, absence: seq<Timed>, aggregate: Aggregate, now: Instant)
    requires ClockOk(row, lost) && !row.stale && row.frozen.None? && (!row.busy ==> row.lastNonBusy.Some?)
    requires Silent(absence) && Monotone(lost, absence) && LastAt(lost, absence) <= now && lost < now && aggregate.busy
    ensures var after := Happen(RunRow(Happen(row, Lost, lost), absence), Reported(aggregate), now);
      && (after.BusyElapsed(now) == Some(lost - row.Baseline().value) <==> row.busy)
      && (!row.busy ==> after.BusyElapsed(now) == Some(now - row.lastNonBusy.value))
  {
    AbsenceKeepsClock(Happen(row, Lost, lost), absence);
  }

  // ---------- what is on display ----------

  function WholeMinutes(elapsed: Duration): (minutes: nat)
    ensures minutes * MINUTE <= elapsed < (minutes + 1) * MINUTE
  {
    elapsed / SECOND / 60
  }

  /** The minutes shown in the state column of a v1 row, if it shows a counter. */
  function ShownMinutes(row: Row, now: Instant): Option<nat> {
    if row.Occurs().None? && row.busy then
      Some(match row.BusyElapsed(now)
           case Some(elapsed) =>
             if WholeMinutes(elapsed) < MAX_ELAPSED_MINUTES then WholeMinutes(elapsed) else MAX_ELAPSED_MINUTES
           case None => 0)
    else None
  }

  /** The next instant at which `next_redraw` expects a running row to change. */
  function RowDeadline(row: Row, now: Instant): Option<Instant> {
    match row.Baseline()
    case None => None
    case Some(baseline) =>
      var minutes := WholeMinutes(Since(now, baseline));
      if minutes >= MAX_ELAPSED_MINUTES then None else Some(baseline + (minutes + 1) * MINUTE)
  }

  /** The rows `next_redraw` looks at. */
  predicate Runs(row: Row, connected: set<Instance>) {
    row.busy && !row.IsStale() && row.frozen.None? && row.Occurs().None? && row.instance in connected
  }

  /** A running row shows the same minutes right up to its deadline and others at it. */
  lemma RunningRowExact(row: Row, now: Instant, t: Instant)
    requires row.busy && ClockOk(row, now) && row.frozen.None? && row.Occurs().None? && now <= t
    ensures RowDeadline(row, now).None? ==> ShownMinutes(row, t) == ShownMinutes(row, now)
    ensures RowDeadline(row, now).Some? && t < RowDeadline(row, now).value ==> ShownMinutes(row, t) == ShownMinutes(row, now)
    ensures RowDeadline(row, now).Some? ==> RowDeadline(row, now).value > now
    ensures RowDeadline(row, now).Some? ==> ShownMinutes(row, RowDeadline(row, now).value) != ShownMinutes(row, now)
  {
  }

  // ---------- the dashboard ----------

  type Key = (Instance, Id)

  predicate RowOk(key: Key, row: Row, connected: set<Instance>, now: Instant) {
    && row.instance == key.0 && row.id == SessionRow(key.1)
    && row.category.V1? && row.readyEligible && !row.attachmentStale && row.background == 0
    && ClockOk(row, now)
    && (row.busy && row.frozen.None? ==> key.0 in connected)
  }

  class V1Dashboard {
    var rows: map<Key, Row>
    var projections: map<Instance, Table>
    var connected: set<Instance>
    var lastNonBusy: map<Key, Instant>
    var pendingReady: set<Key>

    ghost predicate Valid(now: Instant)
      reads this
    {
      && (forall key :: key in rows ==> RowOk(key, rows[key], connected, now))
      && (forall key :: key in lastNonBusy ==> lastNonBusy[key] <= now)
    }

    constructor ()
      ensures Valid(0) && rows == map[]
    {
      rows, projections, connected, lastNonBusy, pendingReady := map[], map[], {}, map[], {};
    }

    /** `set_stale`. */
    method SetStale(instance: Instance, stale: bool, now: Instant)
      modifies this`rows
      ensures rows.Keys == old(rows).Keys
      ensures forall key :: key in rows ==>
        rows[key] == if old(rows)[key].instance == instance then StaleRow(old(rows)[key], stale, now) else old(rows)[key]
    {
      var rest := rows.Keys;
      while rest != {}
        invariant rest <= rows.Keys == old(rows).Keys
        invariant forall key :: key in rows ==>
          rows[key] == if key !in rest && old(rows)[key].instance == instance
                       then StaleRow(old(rows)[key], stale, now) else old(rows)[key]
        decreases rest
      {
        var key :| key in rest;
        if rows[key].instance == instance {
          rows := rows[key := StaleRow(rows[key], stale, now)];
        }
        rest := rest - {key};
      }
    }

    /** `Disconnected`: running counters freeze. */
    method Disconnect(instance: Instance, now: Instant)
      requires Valid(now)
      modifies this`rows, this`connected
      ensures Valid(now)
      ensures connected == old(connected) - {instance} && rows.Keys == old(rows).Keys
      ensures forall key :: key in rows ==>
        rows[key] == if key.0 == instance then Happen(old(rows)[key], Lost, now) else old(rows)[key]
    {
      connected := connected - {instance};
      SetStale(instance, true, now);
    }

    /** `Connected`: rows lose their stale mark, counters stay frozen until the next report. */
    method Connect(instance: Instance, now: Instant)
      requires Valid(now)
      modifies this`rows, this`connected
      ensures Valid(now)
      ensures connected == old(connected) + {instance} && rows.Keys == old(rows).Keys
      ensures forall key :: key in rows ==>
        rows[key] == if key.0 == instance then Happen(old(rows)[key], Restored, now) else old(rows)[key]
    {
      connected := connected + {instance};
      SetStale(instance, false, now);
    }

    /** `apply_ready` on a v1 instance. */
    method ApplyReady(instance: Instance, root: Id, now: Instant)
      modifies this`rows, this`lastNonBusy, this`pendingReady
      ensures old(Valid(now)) ==> Valid(now)
      ensures var key := (instance, root);
        && lastNonBusy == old(lastNonBusy)[key := now]
        && (key in old(rows) ==> rows == old(rows)[key := ReadyRow(old(rows)[key], now)] && pendingReady == old(pendingReady))
        && (key !in old(rows) ==>
              if instance in projections && root in projections[instance]
              then rows == old(rows)[key := FirstReadyRow(instance, projections[instance][root], now)] && pendingReady == old(pendingReady)
              else rows == old(rows) && pendingReady == old(pendingReady) + {key})
      ensures old(Valid(now)) ==> Attended((instance, root), At(old(rows), (instance, root)), projections, rows, pendingReady, now)
    {
      var key := (instance, root);
      lastNonBusy := lastNonBusy[key := now];
      if key in rows {
        if RowOk(key, rows[key], connected, now) {
          ReadyAgain(key, rows[key], connected, now);
        }
        rows := rows[key := ReadyRow(rows[key], now)];
        return;
      }
      if instance in projections && root in projections[instance] {
        rows := rows[key := FirstReadyRow(instance, projections[instance][root], now)];
      } else {
        pendingReady := pendingReady + {key};
      }
    }

    /** `apply_projection` on a v1 instance: the server counts as connected, and each of its
        roots shows the row that `Reported` describes. */
    method ApplyProjection(instance: Instance, sessions: seq<Session>, now: Instant) returns (ghost aggregates: seq<Aggregate>)
      requires Valid(now) && UniqueIds(sessions)
      modifies this
      ensures Valid(now) && connected == old(connected) + {instance}
      ensures AggregatesOf(TableOf(sessions), aggregates)
      ensures ReportedRows(instance, TableOf(sessions), aggregates, old(pendingReady), old(rows), old(lastNonBusy), rows, now)
      ensures Sighted(instance, TableOf(sessions), aggregates, old(pendingReady), old(lastNonBusy), lastNonBusy, now)
      ensures projections == old(projections)[instance := TableOf(sessions)]
      ensures forall key: Key :: key in pendingReady <==>
        key in old(pendingReady) && !(key.0 == instance && key.1 in TableOf(sessions))
    {
      var table := IndexById(sessions);
      connected := connected + {instance};
      projections := projections[instance := table];
      var listed := AggregateRoots(sessions);
      aggregates := listed;
      DropVanished(instance, table);
      ghost var kept, keptSeen := rows, lastNonBusy;
      ApplyAggregates(instance, listed, now);
      ghost var counted, countedSeen := rows, lastNonBusy;
      ApplyPending(instance, table, now);
      ghost var readied := rows;
      SetStale(instance, false, now);
      StillWaitingAfter(instance, table, listed, old(pendingReady), old(rows), kept, keptSeen, counted, countedSeen, pendingReady, now);
      SightedResult(instance, table, listed, old(pendingReady), old(lastNonBusy), kept, keptSeen, counted, countedSeen, lastNonBusy, now);
      ReportResult(instance, table, listed, old(connected), old(pendingReady), old(rows), old(lastNonBusy), kept, keptSeen,
                   counted, countedSeen, readied, rows, now);
    }

    /** Forgets the roots that the report does not list any more. */
    method DropVanished(instance: Instance, table: Table)
      modifies this`rows, this`lastNonBusy
      ensures AllDropped(instance, table, old(rows), rows) && AllDropped(instance, table, old(lastNonBusy), lastNonBusy)
    {
      rows := rows - (set key | key in rows && key.0 == instance && key.1 !in Roots(table));
      lastNonBusy := lastNonBusy - (set key | key in lastNonBusy && key.0 == instance && key.1 !in Roots(table));
    }

    /** The loop of `apply_projection` over the aggregates. */
    method ApplyAggregates(instance: Instance, listed: seq<Aggregate>, now: Instant)
      requires SortedById(listed)
      modifies this`rows, this`lastNonBusy
      ensures Aggregated(instance, listed, |listed|, old(rows), old(lastNonBusy), rows, lastNonBusy, now)
    {
      for i := 0 to |listed|
        invariant Aggregated(instance, listed, i, old(rows), old(lastNonBusy), rows, lastNonBusy, now)
      {
        ghost var rowsBefore, seenBefore := rows, lastNonBusy;
        ApplyAggregate(instance, listed[i], now);
        AggregatedStep(instance, listed, i, old(rows), old(lastNonBusy), rowsBefore, seenBefore, rows, lastNonBusy, now);
      }
    }

    method ApplyAggregate(instance: Instance, a: Aggregate, now: Instant)
      modifies this`rows, this`lastNonBusy
      ensures OneAggregate(instance, a, old(rows), old(lastNonBusy), rows, lastNonBusy, now)
    {
      var key := (instance, a.id);
      if !a.busy {
        lastNonBusy := lastNonBusy[key := now];
      }
      if key in rows {
        var row := UpdateRow(rows[key], a, now);
        rows := rows[key := row];
      } else if a.busy || a.questions != [] || a.permissions != [] {
        rows := rows[key := NewRow(instance, a, if key in lastNonBusy then Some(lastNonBusy[key]) else None, now)];
      }
    }

    /** Delivers the ready attentions that were waiting for this report. */
    method ApplyPending(instance: Instance, ghost table: Table, now: Instant)
      requires instance in projections && projections[instance] == table
      modifies this`rows, this`lastNonBusy, this`pendingReady
      ensures Pended(instance, table, old(pendingReady), {}, old(rows), rows, now)
      ensures PendedSeen(instance, old(pendingReady), {}, old(lastNonBusy), lastNonBusy, now)
      ensures StillWaiting(instance, table, old(pendingReady), {}, old(rows), pendingReady)
    {
      var ready := set key | key in pendingReady && key.0 == instance;
      var rest := ready;
      while rest != {}
        invariant rest <= ready
        invariant Pended(instance, table, old(pendingReady), rest, old(rows), rows, now)
        invariant PendedSeen(instance, old(pendingReady), rest, old(lastNonBusy), lastNonBusy, now)
        invariant StillWaiting(instance, table, old(pendingReady), rest, old(rows), pendingReady)
        decreases rest
      {
        var key :| key in rest;
        ghost var before, seenBefore, waiting := rows, lastNonBusy, pendingReady;
        DeliverReady(key, now);
        PendedOne(instance, table, old(pendingReady), rest, key, old(rows), before, rows, now);
        StillWaitingOne(instance, table, old(pendingReady), rest, key, old(rows), waiting, pendingReady);
        PendedSeenOne(instance, old(pendingReady), rest, key, old(lastNonBusy), seenBefore, lastNonBusy, now);
        rest := rest - {key};
      }
    }

    /** Takes one attention off the list and applies it; without a session it waits again. */
    method DeliverReady(key: Key, now: Instant)
      requires key.0 in projections && key in pendingReady
      modifies this`rows, this`lastNonBusy, this`pendingReady
      ensures OneReadied(key, projections[key.0], old(rows), rows, now)
      ensures lastNonBusy == old(lastNonBusy)[key := now]
      ensures pendingReady == if key in old(rows) || key.1 in projections[key.0] then old(pendingReady) - {key} else old(pendingReady)
    {
      pendingReady := pendingReady - {key};
      ApplyReady(key.0, key.1, now);
    }

    /** `next_redraw`: nothing on display changes before it, and something does at it. */
    method NextRedraw(now: Instant) returns (next: Option<Instant>)
      requires Valid(now)
      ensures next.Some? ==> next.value > now
      ensures forall key, t: Instant :: key in rows && now <= t && (next.Some? ==> t < next.value) ==>
        ShownMinutes(rows[key], t) == ShownMinutes(rows[key], now)
      ensures next.Some? ==>
        exists key :: key in rows && ShownMinutes(rows[key], next.value) != ShownMinutes(rows[key], now)
    {
      next := None;
      var rest := rows.Keys;
      while rest != {}
        invariant rest <= rows.Keys
        invariant EarliestOf(rows, rows.Keys - rest, connected, now, next)
        decreases rest
      {
        var key :| key in rest;
        var row := rows[key];
        ghost var seen, before := rows.Keys - rest, next;
        if Runs(row, connected) {
          var deadline := RowDeadline(row, now);
          if deadline.Some? && (next.None? || deadline.value < next.value) {
            next := deadline;
          }
        }
        EarliestStep(rows, seen, connected, now, before, key, next);
        rest := rest - {key};
        assert rows.Keys - rest == seen + {key};
      }
      assert rows.Keys - rest == rows.Keys;
      RedrawExact(rows, connected, now, next);
    }
  }

  function FirstReadyRow(instance: Instance, session: Session, now: Instant): Row {
    Row(instance, SessionRow(session.id), Named(session.title), session.slug, false, false, 0, [], [], true, 1, false, false,
        Some(now), None, None, None, V1, None)
  }

  /** A row that is ready again: idle since now, undismissed, and unless something is pending
      it occurs as ready, with a generation of its own. */
  ghost predicate IsReady(row: Row, now: Instant) {
    && !row.busy && !row.retry && row.lastNonBusy == Some(now) && row.frozen == None && row.dismissed == None
    && (forall later: Instant :: row.BusyElapsed(later) == None)
    && row.Occurs() == (if row.questions != [] then Some(Question(row.questions))
                        else if row.permissions != [] then Some(Permission(row.permissions))
                        else Some(Ready(row.readyGeneration)))
  }

  lemma ReadyAgain(key: Key, row: Row, connected: set<Instance>, now: Instant)
    requires RowOk(key, row, connected, now)
    ensures IsReady(ReadyRow(row, now), now) && ReadyRow(row, now).readyGeneration == row.readyGeneration + 1
    ensures ReadyRow(row, now).questions == row.questions && ReadyRow(row, now).permissions == row.permissions
    ensures row.questions == [] && row.permissions == [] ==> ReadyRow(row, now).Occurs() != row.Occurs()
  {
  }

  lemma FirstReady(instance: Instance, session: Session, now: Instant)
    ensures var row := FirstReadyRow(instance, session, now);
      IsReady(row, now) && row.Occurs() == Some(Ready(1)) && row.id == SessionRow(session.id) && row.instance == instance && !row.stale
  {
  }

  /** After an attention the row is there and ready if it was there or its session is listed;
      otherwise the attention waits. */
  ghost predicate Attended(key: Key, before: Option<Row>, projections: map<Instance, Table>, rows: map<Key, Row>,
                           pending: set<Key>, now: Instant) {
    if before.Some? || (key.0 in projections && key.1 in projections[key.0]) then
      && key in rows && IsReady(rows[key], now)
      && rows[key].readyGeneration == if before.Some? then before.value.readyGeneration + 1 else 1
    else key !in rows && key in pending
  }

  /** `next` is the earliest deadline among the running rows in `keys`. */
  ghost predicate EarliestOf(rows: map<Key, Row>, keys: set<Key>, connected: set<Instance>, now: Instant, next: Option<Instant>) {
    && (forall key :: key in keys && key in rows && Runs(rows[key], connected) && RowDeadline(rows[key], now).Some? ==>
          next.Some? && next.value <= RowDeadline(rows[key], now).value)
    && (next.Some? ==> exists key :: key in keys && key in rows && Runs(rows[key], connected) && RowDeadline(rows[key], now) == next)
  }

  lemma EarliestStep(rows: map<Key, Row>, seen: set<Key>, connected: set<Instance>, now: Instant, before: Option<Instant>,
                     key: Key, next: Option<Instant>)
    requires EarliestOf(rows, seen, connected, now, before) && key in rows
    requires next ==
      if Runs(rows[key], connected) && RowDeadline(rows[key], now).Some? &&
         (before.None? || RowDeadline(rows[key], now).value < before.value)
      then RowDeadline(rows[key], now) else before
    ensures EarliestOf(rows, seen + {key}, connected, now, next)
  {
  }

  lemma RedrawExact(rows: map<Key, Row>, connected: set<Instance>, now: Instant, next: Option<Instant>)
    requires forall key :: key in rows ==> RowOk(key, rows[key], connected, now)
    requires EarliestOf(rows, rows.Keys, connected, now, next)
    ensures next.Some? ==> next.value > now
    ensures forall key, t: Instant :: key in rows && now <= t && (next.Some? ==> t < next.value) ==>
              ShownMinutes(rows[key], t) == ShownMinutes(rows[key], now)
    ensures next.Some? ==> exists key :: key in rows && ShownMinutes(rows[key], next.value) != ShownMinutes(rows[key], now)
  {
    forall key, t: Instant | key in rows && now <= t && (next.Some? ==> t < next.value)
      ensures ShownMinutes(rows[key], t) == ShownMinutes(rows[key], now)
    {
      assert RowOk(key, rows[key], connected, now);
      if Runs(rows[key], connected) {
        RunningRowExact(rows[key], now, t);
      }
    }
    if next.Some? {
      var key :| key in rows && Runs(rows[key], connected) && RowDeadline(rows[key], now) == next;
      RunningRowExact(rows[key], now, now);
    }
  }

  // ---------- reports ----------

  function At<V>(m: map<Key, V>, key: Key): Option<V> {
    if key in m then Some(m[key]) else None
  }

  /** When the root was last seen idle, this report included. */
  function SeenIdle(seen: Option<Instant>, a: Aggregate, now: Instant): Option<Instant> {
    if a.busy then seen else Some(now)
  }

  /** A row is updated, or admitted once its root works or waits for an answer. */
  function AggregateRow(instance: Instance, row: Option<Row>, a: Aggregate, seen: Option<Instant>, now: Instant): Option<Row> {
    if row.Some? then Some(Updated(row.value, a, now))
    else if a.busy || a.questions != [] || a.permissions != [] then Some(NewRow(instance, a, SeenIdle(seen, a, now), now))
    else None
  }

  /** A pending ready attention on a row, or on a listed session without one. */
  function Readied(instance: Instance, row: Option<Row>, table: Table, id: Id, now: Instant): Option<Row> {
    if row.Some? then Some(ReadyRow(row.value, now))
    else if id in table then Some(FirstReadyRow(instance, table[id], now))
    else None
  }

  function Freshened(row: Option<Row>, now: Instant): Option<Row> {
    if row.Some? then Some(StaleRow(row.value, false, now)) else None
  }

  lemma RowStaysOk(key: Key, row: Option<Row>, a: Aggregate, seen: Option<Instant>, connected: set<Instance>, now: Instant)
    requires row.Some? ==> RowOk(key, row.value, connected, now)
    requires seen.Some? ==> seen.value <= now
    requires a.background == 0 && a.id == key.1
    ensures var after := Freshened(AggregateRow(key.0, row, a, seen, now), now);
      after.Some? ==> RowOk(key, after.value, connected + {key.0}, now)
  {
  }

  lemma ReadiedRowOk(key: Key, row: Option<Row>, pending: bool, table: Table, connected: set<Instance>, now: Instant)
    requires Freshened(row, now).Some? ==> RowOk(key, Freshened(row, now).value, connected, now)
    ensures var readied := if pending then Readied(key.0, row, table, key.1, now) else row;
      && (Freshened(readied, now).Some? ==> RowOk(key, Freshened(readied, now).value, connected, now))
      && (readied.Some? ==> readied.value.instance == key.0)
  {
  }

  ghost predicate OneAggregate(instance: Instance, a: Aggregate, rowsBefore: map<Key, Row>, seenBefore: map<Key, Instant>,
                               rows: map<Key, Row>, seen: map<Key, Instant>, now: Instant) {
    forall key: Key ::
      if key == (instance, a.id) then
        && At(rows, key) == AggregateRow(instance, At(rowsBefore, key), a, At(seenBefore, key), now)
        && At(seen, key) == SeenIdle(At(seenBefore, key), a, now)
      else At(rows, key) == At(rowsBefore, key) && At(seen, key) == At(seenBefore, key)
  }

  /** One key's row and idle sighting after the first `n` aggregates. */
  predicate AggregatedAt(instance: Instance, listed: seq<Aggregate>, n: nat, key: Key, rowBefore: Option<Row>,
                         seenBefore: Option<Instant>, row: Option<Row>, seen: Option<Instant>, now: Instant)
    requires n <= |listed|
  {
    && ((forall i :: 0 <= i < n ==> key != (instance, listed[i].id)) ==> row == rowBefore && seen == seenBefore)
    && (forall i :: 0 <= i < n && key == (instance, listed[i].id) ==>
          && row == AggregateRow(instance, rowBefore, listed[i], seenBefore, now)
          && seen == SeenIdle(seenBefore, listed[i], now))
  }

  ghost predicate Aggregated(instance: Instance, listed: seq<Aggregate>, n: nat, rowsBefore: map<Key, Row>, seenBefore: map<Key, Instant>,
                             rows: map<Key, Row>, seen: map<Key, Instant>, now: Instant)
    requires n <= |listed|
  {
    forall key: Key ::
      AggregatedAt(instance, listed, n, key, At(rowsBefore, key), At(seenBefore, key), At(rows, key), At(seen, key), now)
  }

  lemma AggregatedStep(instance: Instance, listed: seq<Aggregate>, n: nat, rowsBefore: map<Key, Row>, seenBefore: map<Key, Instant>,
                       rows: map<Key, Row>, seen: map<Key, Instant>, rowsAfter: map<Key, Row>, seenAfter: map<Key, Instant>, now: Instant)
    requires SortedById(listed) && n < |listed|
    requires Aggregated(instance, listed, n, rowsBefore, seenBefore, rows, seen, now)
    requires OneAggregate(instance, listed[n], rows, seen, rowsAfter, seenAfter, now)
    ensures Aggregated(instance, listed, n + 1, rowsBefore, seenBefore, rowsAfter, seenAfter, now)
  {
  }

  /** The rows once the pending attentions outside `rest` are delivered. */
  ghost predicate Pended(instance: Instance, table: Table, pending: set<Key>, rest: set<Key>, before: map<Key, Row>, after: map<Key, Row>, now: Instant) {
    forall key: Key ::
      if key.0 == instance && key in pending && key !in rest
      then At(after, key) == Readied(instance, At(before, key), table, key.1, now)
      else At(after, key) == At(before, key)
  }

  ghost predicate OneReadied(key: Key, table: Table, before: map<Key, Row>, after: map<Key, Row>, now: Instant) {
    && At(after, key) == Readied(key.0, At(before, key), table, key.1, now)
    && forall other: Key :: other != key ==> At(after, other) == At(before, other)
  }

  lemma PendedOne(instance: Instance, table: Table, pending: set<Key>, rest: set<Key>, key: Key,
                  start: map<Key, Row>, before: map<Key, Row>, after: map<Key, Row>, now: Instant)
    requires Pended(instance, table, pending, rest, start, before, now)
    requires key in rest && key in pending && key.0 == instance
    requires OneReadied(key, table, before, after, now)
    ensures Pended(instance, table, pending, rest - {key}, start, after, now)
  {
  }

  lemma PendedSeenOne(instance: Instance, pending: set<Key>, rest: set<Key>, key: Key,
                      start: map<Key, Instant>, before: map<Key, Instant>, after: map<Key, Instant>, now: Instant)
    requires PendedSeen(instance, pending, rest, start, before, now)
    requires key in rest && key in pending && key.0 == instance && after == before[key := now]
    ensures PendedSeen(instance, pending, rest - {key}, start, after, now)
  {
  }

  lemma StillWaitingOne(instance: Instance, table: Table, pending: set<Key>, rest: set<Key>, key: Key, rows: map<Key, Row>,
                        before: set<Key>, after: set<Key>)
    requires StillWaiting(instance, table, pending, rest, rows, before)
    requires key in rest && key in pending && key.0 == instance
    requires after == if key in rows || key.1 in table then before - {key} else before
    ensures StillWaiting(instance, table, pending, rest - {key}, rows, after)
  {
  }

  ghost predicate PendedSeen(instance: Instance, pending: set<Key>, rest: set<Key>, before: map<Key, Instant>, after: map<Key, Instant>, now: Instant) {
    forall key: Key ::
      At(after, key) == (if key.0 == instance && key in pending && key !in rest then Some(now) else At(before, key))
  }

  /** An attention keeps waiting if there is neither a row for it nor a listed session. */
  ghost predicate StillWaiting(instance: Instance, table: Table, pending: set<Key>, rest: set<Key>, rows: map<Key, Row>, after: set<Key>) {
    forall key: Key :: key in after <==>
      key in pending && (key.0 != instance || key in rest || (key !in rows && key.1 !in table))
  }

  /** When the root of one key was last seen idle, after a report: a delivered attention
      counts as a sighting, and roots that vanished are forgotten. */
  ghost predicate SightedAs(instance: Instance, table: Table, listed: seq<Aggregate>, pending: bool, key: Key,
                            seen: Option<Instant>, after: Option<Instant>, now: Instant)
  {
    if key.0 != instance then after == seen
    else if pending then after == Some(now)
    else if key.1 !in Roots(table) then after == None
    else exists a :: a in listed && a.id == key.1 && after == SeenIdle(seen, a, now)
  }

  ghost predicate Sighted(instance: Instance, table: Table, listed: seq<Aggregate>, pending: set<Key>, before: map<Key, Instant>,
                          after: map<Key, Instant>, now: Instant)
  {
    forall key: Key :: SightedAs(instance, table, listed, key in pending, key, At(before, key), At(after, key), now)
  }

  /** What a report makes of the row of one key. Rows of other instances stay; rows of
      sessions that are no roots any more go; a root's row follows its aggregate. Then a
      pending ready attention is delivered and the stale mark cleared. */
  ghost predicate ReportedAs(instance: Instance, table: Table, listed: seq<Aggregate>, pending: bool, key: Key,
                            row: Option<Row>, seen: Option<Instant>, after: Option<Row>, now: Instant)
  {
    if key.0 != instance then after == row
    else if key.1 !in Roots(table) then
      after == Freshened(if pending then Readied(instance, None, table, key.1, now) else None, now)
    else
      exists a :: a in listed && a.id == key.1 &&
        var counted := AggregateRow(instance, row, a, seen, now);
        after == Freshened(if pending then Readied(instance, counted, table, key.1, now) else counted, now)
  }

  ghost predicate ReportedRows(instance: Instance, table: Table, listed: seq<Aggregate>, pending: set<Key>, before: map<Key, Row>,
                               seen: map<Key, Instant>, after: map<Key, Row>, now: Instant)
  {
    forall key: Key ::
      ReportedAs(instance, table, listed, key in pending, key, At(before, key), At(seen, key), At(after, key), now)
  }

  predicate Dropped<V(==)>(instance: Instance, table: Table, key: Key, before: Option<V>, kept: Option<V>) {
    if key.0 == instance && key.1 !in Roots(table) then kept.None? else kept == before
  }

  ghost predicate AllDropped<V>(instance: Instance, table: Table, before: map<Key, V>, kept: map<Key, V>) {
    forall key: Key :: Dropped(instance, table, key, At(before, key), At(kept, key))
  }

  /** The stages of `apply_projection` for one key. */
  lemma ReportAt(instance: Instance, table: Table, listed: seq<Aggregate>, connected: set<Instance>, pending: bool, key: Key,
                 row: Option<Row>, seen: Option<Instant>, kept: Option<Row>, keptSeen: Option<Instant>,
                 counted: Option<Row>, countedSeen: Option<Instant>, readied: Option<Row>, after: Option<Row>, now: Instant)
    requires AggregatesOf(table, listed) && forall a :: a in listed ==> a.background == 0
    requires row.Some? ==> RowOk(key, row.value, connected, now)
    requires seen.Some? ==> seen.value <= now
    requires Dropped(instance, table, key, row, kept) && Dropped(instance, table, key, seen, keptSeen)
    requires AggregatedAt(instance, listed, |listed|, key, kept, keptSeen, counted, countedSeen, now)
    requires readied == if key.0 == instance && pending then Readied(instance, counted, table, key.1, now) else counted
    requires after == if readied.Some? && readied.value.instance == instance then Freshened(readied, now) else readied
    ensures ReportedAs(instance, table, listed, pending, key, row, seen, after, now)
    ensures after.Some? ==> RowOk(key, after.value, connected + {instance}, now)
  {
    EveryRootAggregated(table, listed);
    if key.0 != instance {
      assert counted == kept;
    } else if key.1 !in Roots(table) {
      NotListed(instance, table, listed, key);
      assert counted == None;
      ReadiedRowOk(key, None, pending, table, connected + {instance}, now);
    } else {
      ListedAt(instance, table, listed, connected, pending, key, row, seen, kept, keptSeen, counted, countedSeen, readied, after, now);
    }
  }

  /** The stages for the key of a listed root. */
  lemma ListedAt(instance: Instance, table: Table, listed: seq<Aggregate>, connected: set<Instance>, pending: bool, key: Key,
                 row: Option<Row>, seen: Option<Instant>, kept: Option<Row>, keptSeen: Option<Instant>,
                 counted: Option<Row>, countedSeen: Option<Instant>, readied: Option<Row>, after: Option<Row>, now: Instant)
    requires key.0 == instance && key.1 in Roots(table)
    requires AggregateIds(listed) == Roots(table) && forall a :: a in listed ==> a.background == 0
    requires row.Some? ==> RowOk(key, row.value, connected, now)
    requires seen.Some? ==> seen.value <= now
    requires Dropped(instance, table, key, row, kept) && Dropped(instance, table, key, seen, keptSeen)
    requires AggregatedAt(instance, listed, |listed|, key, kept, keptSeen, counted, countedSeen, now)
    requires readied == if pending then Readied(instance, counted, table, key.1, now) else counted
    requires after == if readied.Some? && readied.value.instance == instance then Freshened(readied, now) else readied
    ensures ReportedAs(instance, table, listed, pending, key, row, seen, after, now)
    ensures after.Some? ==> RowOk(key, after.value, connected + {instance}, now)
  {
    assert key.1 in AggregateIds(listed);
    var a :| a in listed && a.id == key.1;
    var i :| 0 <= i < |listed| && listed[i] == a;
    RowStaysOk(key, row, a, seen, connected, now);
    assert counted == AggregateRow(instance, row, a, seen, now);
    ReadiedRowOk(key, counted, pending, table, connected + {instance}, now);
  }

  lemma NotListed(instance: Instance, table: Table, listed: seq<Aggregate>, key: Key)
    requires AggregateIds(listed) == Roots(table) && key.1 !in Roots(table)
    ensures forall i :: 0 <= i < |listed| ==> key != (instance, listed[i].id)
  {
  }

  lemma ReportResult(instance: Instance, table: Table, listed: seq<Aggregate>, connected: set<Instance>, pending: set<Key>,
                     before: map<Key, Row>, seen: map<Key, Instant>, kept: map<Key, Row>, keptSeen: map<Key, Instant>,
                     counted: map<Key, Row>, countedSeen: map<Key, Instant>, readied: map<Key, Row>, after: map<Key, Row>, now: Instant)
    requires AggregatesOf(table, listed) && forall a :: a in listed ==> a.background == 0
    requires forall key :: key in before ==> RowOk(key, before[key], connected, now)
    requires forall key :: key in seen ==> seen[key] <= now
    requires AllDropped(instance, table, before, kept) && AllDropped(instance, table, seen, keptSeen)
    requires Aggregated(instance, listed, |listed|, kept, keptSeen, counted, countedSeen, now)
    requires Pended(instance, table, pending, {}, counted, readied, now)
    requires after.Keys == readied.Keys && forall key :: key in after ==>
      (after[key] == if readied[key].instance == instance then StaleRow(readied[key], false, now) else readied[key])
    ensures ReportedRows(instance, table, listed, pending, before, seen, after, now)
    ensures forall key :: key in after ==> RowOk(key, after[key], connected + {instance}, now)
  {
    forall key: Key
      ensures ReportedAs(instance, table, listed, key in pending, key, At(before, key), At(seen, key), At(after, key), now)
      ensures key in after ==> RowOk(key, after[key], connected + {instance}, now)
    {
      ReportAt(instance, table, listed, connected, key in pending, key, At(before, key), At(seen, key), At(kept, key),
               At(keptSeen, key), At(counted, key), At(countedSeen, key), At(readied, key), At(after, key), now);
    }
  }

  lemma SightedAt(instance: Instance, table: Table, listed: seq<Aggregate>, pending: bool, key: Key, seen: Option<Instant>,
                  kept: Option<Row>, keptSeen: Option<Instant>, counted: Option<Row>, countedSeen: Option<Instant>,
                  after: Option<Instant>, now: Instant)
    requires AggregatesOf(table, listed) && Dropped(instance, table, key, seen, keptSeen)
    requires AggregatedAt(instance, listed, |listed|, key, kept, keptSeen, counted, countedSeen, now)
    requires after == if key.0 == instance && pending then Some(now) else countedSeen
    ensures SightedAs(instance, table, listed, pending, key, seen, after, now)
    ensures (seen.Some? ==> seen.value <= now) && after.Some? ==> after.value <= now
  {
    EveryRootAggregated(table, listed);
    if key.0 == instance && key.1 in Roots(table) {
      var a :| a in listed && a.id == key.1;
      var i :| 0 <= i < |listed| && listed[i] == a;
      assert countedSeen == SeenIdle(seen, a, now);
    } else if key.0 == instance {
      NotListed(instance, table, listed, key);
    }
  }

  lemma SightedResult(instance: Instance, table: Table, listed: seq<Aggregate>, pending: set<Key>, before: map<Key, Instant>,
                      kept: map<Key, Row>, keptSeen: map<Key, Instant>, counted: map<Key, Row>, countedSeen: map<Key, Instant>,
                      after: map<Key, Instant>, now: Instant)
    requires AggregatesOf(table, listed) && AllDropped(instance, table, before, keptSeen)
    requires Aggregated(instance, listed, |listed|, kept, keptSeen, counted, countedSeen, now)
    requires PendedSeen(instance, pending, {}, countedSeen, after, now)
    ensures Sighted(instance, table, listed, pending, before, after, now)
    ensures (forall key :: key in before ==> before[key] <= now) ==> forall key :: key in after ==> after[key] <= now
  {
    forall key: Key
      ensures SightedAs(instance, table, listed, key in pending, key, At(before, key), At(after, key), now)
      ensures (key in before ==> before[key] <= now) && key in after ==> after[key] <= now
    {
      assert Dropped(instance, table, key, At(before, key), At(keptSeen, key));
      SightedAt(instance, table, listed, key in pending, key, At(before, key), At(kept, key), At(keptSeen, key), At(counted, key),
                At(countedSeen, key), At(after, key), now);
    }
  }

  /** An attention for a root or any other listed session was delivered. */
  lemma StillWaitingAfter(instance: Instance, table: Table, listed: seq<Aggregate>, pending: set<Key>, before: map<Key, Row>,
                          kept: map<Key, Row>, keptSeen: map<Key, Instant>, counted: map<Key, Row>, countedSeen: map<Key, Instant>,
                          after: set<Key>, now: Instant)
    requires AggregatesOf(table, listed) && AllDropped(instance, table, before, kept)
    requires Aggregated(instance, listed, |listed|, kept, keptSeen, counted, countedSeen, now)
    requires StillWaiting(instance, table, pending, {}, counted, after)
    ensures forall key: Key :: key in after <==> key in pending && !(key.0 == instance && key.1 in table)
  {
    EveryRootAggregated(table, listed);
    RootsAreListed(table);
    forall key: Key | key.0 == instance && key.1 !in table ensures key !in counted {
      NotListed(instance, table, listed, key);
      assert Dropped(instance, table, key, At(before, key), At(kept, key));
      assert AggregatedAt(instance, listed, |listed|, key, At(kept, key), At(keptSeen, key), At(counted, key), At(countedSeen, key), now);
    }
  }

  /** The dashboard's contract in terms of one row's history: the row of a root that keeps
      its root, and that no attention is waiting for, goes through the report as `Happen`
      says, with what the report makes of its root. */
  lemma ReportHappens(instance: Instance, table: Table, listed: seq<Aggregate>, pending: set<Key>, before: map<Key, Row>,
                      seen: map<Key, Instant>, after: map<Key, Row>, now: Instant, root: Id)
    requires AggregatesOf(table, listed) && ReportedRows(instance, table, listed, pending, before, seen, after, now)
    requires root in Roots(table) && (instance, root) in before && (instance, root) !in pending
    ensures (instance, root) in after
    ensures exists a :: Describes(table, a) && a.id == root
              && after[(instance, root)] == Happen(before[(instance, root)], Reported(a), now)
  {
    var key: Key := (instance, root);
    assert ReportedAs(instance, table, listed, key in pending, key, At(before, key), At(seen, key), At(after, key), now);
  }
}
