/** Dashboard rows and what happens to one row when its server reports, goes away or
    comes back. Instants and durations are counted in nanoseconds. */
module Rows {
  import opened Wrappers
  import opened Sessions
  import opened Aggregates
  import opened Matching

  type Instant = nat
  type Duration = nat

  const SECOND: nat := 1_000_000_000
  const MINUTE: nat := 60 * SECOND
  const MAX_ELAPSED_MINUTES: nat := 9_999_999

  datatype Occurrence = Question(ids: seq<Id>) | Permission(ids: seq<Id>) | Ready(generation: nat)

  datatype Category = V1 | AttachedRow | Headless | Ambiguous | UnresolvedRow

  /** A row stands for a root session, or for a TUI that could not be assigned. */
  datatype RowId = SessionRow(root: Id) | PidRow(pid: nat)

  /** What names a row: a session's title, or where an unassigned TUI runs and the root it
      may belong to. */
  datatype Title = Named(text: string) | Located(cwd: Path, hint: Option<Id>)

  datatype Row = Row(
    instance: Instance,
    id: RowId,
    title: Title,
    slug: string,
    busy: bool,
    retry: bool,
    background: nat,
    questions: seq<Id>,
    permissions: seq<Id>,
    readyEligible: bool,
    readyGeneration: nat,
    stale: bool,
    attachmentStale: bool,
    lastNonBusy: Option<Instant>,
    firstBusyObserved: Option<Instant>,
    frozen: Option<Duration>,
    dismissed: Option<Occurrence>,
    category: Category,
    tui: Option<TuiKey>)
  {
    /** `DashboardRow::occurrence`. */
    function Occurs(): Option<Occurrence> {
      if questions != [] then Some(Question(questions))
      else if permissions != [] then Some(Permission(permissions))
      else if busy || background > 0 then None
      else if readyEligible && (category.V1? || category.AttachedRow? || category.Headless?) then Some(Ready(readyGeneration))
      else None
    }

    function Baseline(): Option<Instant> {
      if lastNonBusy.Some? then lastNonBusy else firstBusyObserved
    }

    /** `DashboardRow::busy_elapsed`. */
    function BusyElapsed(now: Instant): Option<Duration> {
      if !busy then None
      else if frozen.Some? then frozen
      else match Baseline()
           case Some(baseline) => Some(Since(now, baseline))
           case None => None
    }

    predicate IsStale() { stale || attachmentStale }
  }

  /** `saturating_duration_since`. */
  function Since(now: Instant, start: Instant): Duration {
    if start <= now then now - start else 0
  }

  /** `checked_sub`: instants before the clock's origin do not exist. */
  function CheckedSub(now: Instant, elapsed: Duration): Option<Instant> {
    if elapsed <= now then Some(now - elapsed) else None
  }

  /** `update_row`. A frozen counter goes on from the count it shows; a running one runs on;
      a row that turns busy counts from when it was last seen idle, or else from now; an idle
      row is seen now. A dismissal outlives only a report that finds the root idle with the
      same occurrence as before. */
  method UpdateRow(row: Row, aggregate: Aggregate, now: Instant) returns (r: Row)
    ensures r == Updated(row, aggregate, now)
    ensures r.busy == aggregate.busy && r.background == aggregate.background && r.retry == aggregate.retry
    ensures r.questions == aggregate.questions && r.permissions == aggregate.permissions
    ensures aggregate.busy && row.frozen.Some? && row.Baseline().Some? && row.frozen.value <= now ==>
      forall later: Instant :: now <= later ==> r.BusyElapsed(later) == Some(row.frozen.value + (later - now))
    ensures aggregate.busy && row.busy && row.frozen.None? ==>
      forall later: Instant :: r.BusyElapsed(later) == row.BusyElapsed(later)
    ensures aggregate.busy && !row.busy && row.frozen.None? ==>
      forall later: Instant :: now <= later ==>
        r.BusyElapsed(later) == Some(Since(later, if row.lastNonBusy.Some? then row.lastNonBusy.value else now))
    ensures !aggregate.busy ==> r.lastNonBusy == Some(now) && forall later: Instant :: r.BusyElapsed(later).None?
    ensures r.dismissed == if !aggregate.busy && r.Occurs() == row.Occurs() then row.dismissed else None
  {
    var previous := row.Occurs();
    var wasStale := row.stale;
    var wasBusy := row.busy;
    r := row.(title := Named(aggregate.title), slug := aggregate.slug, busy := aggregate.busy, retry := aggregate.retry,
              background := aggregate.background, questions := aggregate.questions, permissions := aggregate.permissions);
    if r.busy {
      r := Resume(r, wasStale, wasBusy, now);
      r := r.(frozen := None, dismissed := None);
    } else {
      r := r.(lastNonBusy := Some(now), firstBusyObserved := None, frozen := None);
    }
    if previous != r.Occurs() {
      r := r.(dismissed := None);
    }
  }

  /** The baselines of a row that is reported busy. */
  method Resume(row: Row, wasStale: bool, wasBusy: bool, now: Instant) returns (r: Row)
    ensures var clock := ClockAfter(row.(busy := wasBusy), true, now);
      r == row.(lastNonBusy := clock.0, firstBusyObserved := clock.1)
  {
    r := row;
    if (wasStale || row.frozen.Some?) && row.frozen.Some? {
      if row.lastNonBusy.Some? {
        r := r.(lastNonBusy := CheckedSub(now, row.frozen.value));
      } else if row.firstBusyObserved.Some? {
        r := r.(firstBusyObserved := CheckedSub(now, row.frozen.value));
      }
    } else if !wasBusy && row.lastNonBusy.None? {
      r := r.(firstBusyObserved := Some(now));
    }
  }

  /** The clock fields after a report: a busy row continues from its frozen count, a row
      that turns busy starts counting now unless it was seen idle before. */
  function ClockAfter(row: Row, busy: bool, now: Instant): (Option<Instant>, Option<Instant>) {
    if !busy then (Some(now), None)
    else if row.frozen.Some? then
      if row.lastNonBusy.Some? then (CheckedSub(now, row.frozen.value), row.firstBusyObserved)
      else (None, if row.firstBusyObserved.Some? then CheckedSub(now, row.frozen.value) else None)
    else (row.lastNonBusy, if !row.busy && row.lastNonBusy.None? then Some(now) else row.firstBusyObserved)
  }

  function Updated(row: Row, aggregate: Aggregate, now: Instant): Row {
    var clock := ClockAfter(row, aggregate.busy, now);
    var after := row.(title := Named(aggregate.title), slug := aggregate.slug, busy := aggregate.busy, retry := aggregate.retry,
                      background := aggregate.background, questions := aggregate.questions,
                      permissions := aggregate.permissions,
                      lastNonBusy := clock.0, firstBusyObserved := clock.1, frozen := None);
    if aggregate.busy || row.Occurs() != after.Occurs() then after.(dismissed := None) else after
  }

  /** `new_row`. */
  function NewRow(instance: Instance, aggregate: Aggregate, lastNonBusy: Option<Instant>, now: Instant): Row {
    Row(instance, SessionRow(aggregate.id), Named(aggregate.title), aggregate.slug, aggregate.busy, aggregate.retry,
        aggregate.background, aggregate.questions, aggregate.permissions, true, 0, false, false, lastNonBusy,
        if aggregate.busy && lastNonBusy.None? then Some(now) else None, None, None, V1, None)
  }

  /** One row's share of `set_stale`. */
  function StaleRow(row: Row, stale: bool, now: Instant): Row {
    row.(stale := stale,
         frozen := if stale && !row.stale && row.frozen.None? then row.BusyElapsed(now) else row.frozen)
  }

  /** An existing row's share of `apply_ready`. */
  function ReadyRow(row: Row, now: Instant): Row {
    row.(readyGeneration := row.readyGeneration + 1, busy := false, retry := false, lastNonBusy := Some(now),
         firstBusyObserved := None, frozen := None, dismissed := None)
  }
}
