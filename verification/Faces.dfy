/** What the rows of a rebuilt v2 server look like, in terms of its sessions and of the TUIs
    beside it. */
module Faces {
  import opened Wrappers
  import opened Ordering
  import opened Sessions
  import opened Aggregates
  import opened Matching
  import opened Matcher
  import opened Rows
  import opened Rebuild
  import Presence
  import LocationLaws

  /** The sessions at work below `root`, itself excluded. */
  ghost predicate AtWork(table: Table, root: Id, ids: set<Id>) {
    forall id: Id :: id in ids <==>
      id in table && id != root && RootOf(table, id) == root && (table[id].status == Busy || table[id].status == Retry)
  }

  /** What the row of a root says of it. */
  ghost predicate RootFace(scene: Scene, table: Table, root: Id, row: Row) {
    && row.instance == scene.instance && row.id == SessionRow(root)
    && root in table && row.title == Named(table[root].title) && row.slug == table[root].slug
    && (row.busy <==> Presence.Works(table, root)) && (row.retry <==> table[root].status == Retry)
    && (exists ids :: AtWork(table, root, ids) && row.background == |ids|)
    && StrictlyIncreasing(row.questions) && (forall q: Id :: q in row.questions <==> Presence.AsksIn(table, root, q))
    && StrictlyIncreasing(row.permissions) && (forall p: Id :: p in row.permissions <==> Presence.WaitsIn(table, root, p))
    && row.frozen == None
  }

  /** What it occurs as: whatever works in its tree keeps it from being ready. */
  ghost predicate RootOccurs(table: Table, root: Id, row: Row) {
    && Presence.OccursAs(table, root, row)
    && (row.background > 0 && !Presence.Asks(table, root) && !Presence.Waits(table, root) ==> row.Occurs() == None)
  }

  /** Which TUI shows the root, if any does. */
  predicate ShownBy(tui: Option<Tui>, row: Row) {
    if tui.Some? then row.category == AttachedRow && row.tui == Some(tui.value.key) && row.attachmentStale == tui.value.stale
    else row.category == Headless && row.tui == None && !row.attachmentStale
  }

  /** A root that had no row counts since it was last seen idle, or else from now. */
  ghost predicate CountsAnew(scene: Scene, root: Id, row: Row) {
    && !row.stale && row.dismissed == None && row.readyEligible && row.readyGeneration == 0
    && (row.busy ==> forall later: Instant :: scene.now <= later ==>
          row.BusyElapsed(later) ==
          Some(Since(later, if (scene.instance, root) in scene.seen then scene.seen[(scene.instance, root)] else scene.now)))
  }

  /** A root that had a row keeps the row's marks; a dismissal lasts while nothing new occurs. */
  predicate KeepsMarks(before: Row, row: Row) {
    && row.stale == before.stale && row.readyEligible == before.readyEligible && row.readyGeneration == before.readyGeneration
    && (before.category != Ambiguous && before.category != UnresolvedRow ==>
          row.dismissed == if !row.busy && row.Occurs() == before.Occurs() then before.dismissed else None)
  }

  /** A counter goes on from the count it froze at, or runs on; a root that turns busy counts
      since it was last idle. */
  ghost predicate CountsOn(before: Row, row: Row, now: Instant) {
    && (row.busy && before.frozen.Some? && before.Baseline().Some? && before.frozen.value <= now ==>
          forall later: Instant :: now <= later ==> row.BusyElapsed(later) == Some(before.frozen.value + (later - now)))
    && (row.busy && before.frozen == None && before.busy ==>
          forall later: Instant :: row.BusyElapsed(later) == before.BusyElapsed(later))
    && (row.busy && before.frozen == None && !before.busy ==>
          forall later: Instant :: now <= later ==>
            row.BusyElapsed(later) == Some(Since(later, if before.lastNonBusy.Some? then before.lastNonBusy.value else now)))
  }

  ghost predicate Continues(scene: Scene, root: Id, row: Row) {
    match Lookup(scene.previous, root)
    case None => CountsAnew(scene, root, row)
    case Some(before) => KeepsMarks(before, row) && CountsOn(before, row, scene.now)
  }

  /** The row of a TUI that is attached to nothing. It never counts and never occurs. */
  ghost predicate WaitingFace(instance: Instance, tui: Tui, ambiguous: bool, hint: Option<Id>, row: Row) {
    && row.instance == instance && row.id == PidRow(tui.key.pid) && row.tui == Some(tui.key)
    && row.title == Located(tui.cwd, hint) && row.category == (if ambiguous then Ambiguous else UnresolvedRow)
    && row.attachmentStale == tui.stale && !row.stale
    && row.Occurs() == None && forall later: Instant :: row.BusyElapsed(later) == None
  }

  /** The rows that a rebuild takes out belong to the instance. */
  ghost predicate OwnRows(previous: Previous, instance: Instance) {
    forall id :: id in previous ==> previous[id].instance == instance
  }

  lemma {:induction false} PreviousAreOwn(rows: seq<Row>, instance: Instance)
    ensures OwnRows(PreviousRows(rows, instance), instance)
  {
    if rows != [] {
      PreviousAreOwn(rows[..|rows| - 1], instance);
    }
  }

  /** The rows of other instances stay, in their order, and no others: row by row, a row of the
      instance adds nothing to what stays and any other row adds itself. */
  lemma OthersStay(rows: seq<Row>, row: Row, instance: Instance)
    ensures Others([], instance) == []
    ensures row.instance == instance ==> Others(rows + [row], instance) == Others(rows, instance)
    ensures row.instance != instance ==> Others(rows + [row], instance) == Others(rows, instance) + [row]
  {
    assert (rows + [row])[..|rows|] == rows;
  }

  /** The row that the instance had for an id is found under it. */
  lemma {:induction false} PreviousFound(rows: seq<Row>, instance: Instance, i: nat)
    requires i < |rows| && rows[i].instance == instance
    requires forall j :: i < j < |rows| ==> rows[j].instance != instance || rows[j].id != rows[i].id
    ensures rows[i].id in PreviousRows(rows, instance) && PreviousRows(rows, instance)[rows[i].id] == rows[i]
  {
    if i < |rows| - 1 {
      PreviousFound(rows[..|rows| - 1], instance, i);
    }
  }

  /** And nothing is found that it did not have. */
  lemma {:induction false} PreviousOnly(rows: seq<Row>, instance: Instance, id: RowId)
    requires id in PreviousRows(rows, instance)
    ensures PreviousRows(rows, instance)[id] in rows && PreviousRows(rows, instance)[id].instance == instance
  {
    var init := rows[..|rows| - 1];
    if id in PreviousRows(init, instance) {
      PreviousOnly(init, instance, id);
    }
  }

  lemma SceneRowFace(scene: Scene, table: Table, a: Aggregate, row: Row)
    requires Describes(table, a) && a.background == |Background(table, table.Keys, a.id)|
    requires row == SceneRow(scene, a) && OwnRows(scene.previous, scene.instance)
    ensures RootFace(scene, table, a.id, row)
    ensures Lookup(scene.previous, a.id) == None ==> CountsAnew(scene, a.id, row)
  {
    Presence.AggregateSpeaks(table, a);
    assert AtWork(table, a.id, Background(table, table.Keys, a.id));
    assert row.id == SessionRow(a.id);
  }

  /** A row of the rebuild that shows `root`, as it is and as `tui` or nobody shows it. */
  ghost predicate HasRoot(scene: Scene, table: Table, rows: seq<Row>, root: Id, tui: Option<Tui>) {
    exists row :: row in rows && RootFace(scene, table, root, row) && RootOccurs(table, root, row) && ShownBy(tui, row)
                  && Continues(scene, root, row)
  }

  ghost predicate HasWaiting(rows: seq<Row>, instance: Instance, tui: Tui, ambiguous: bool, hint: Option<Id>) {
    exists row :: row in rows && WaitingFace(instance, tui, ambiguous, hint, row)
  }

  lemma ShownFace(scene: Scene, table: Table, a: Aggregate, tui: Option<Tui>, row: Row)
    requires Describes(table, a) && a.background == |Background(table, table.Keys, a.id)| && OwnRows(scene.previous, scene.instance)
    requires row == if tui.Some? then AsAttached(SceneRow(scene, a), tui.value) else AsHeadless(SceneRow(scene, a))
    ensures RootFace(scene, table, a.id, row) && RootOccurs(table, a.id, row) && ShownBy(tui, row)
    ensures Continues(scene, a.id, row)
  {
    SceneRowFace(scene, table, a, SceneRow(scene, a));
    if Lookup(scene.previous, a.id).Some? {
      CarriesOn(Lookup(scene.previous, a.id).value, a, scene.now, tui, row);
    }
    Presence.AggregateSpeaks(table, a);
    SpeakingOccurs(table, a.id, a, row);
  }

  lemma UpdatedKeeps(before: Row, a: Aggregate, now: Instant, tui: Option<Tui>, row: Row)
    requires row == if tui.Some? then AsAttached(Updated(before, a, now), tui.value) else AsHeadless(Updated(before, a, now))
    ensures KeepsMarks(before, row)
  {
  }

  lemma UpdatedCounts(before: Row, a: Aggregate, now: Instant, row: Row)
    requires SameClock(row, Updated(before, a, now))
    ensures CountsOn(before, row, now)
  {
  }

  predicate SameClock(row: Row, other: Row) {
    row.busy == other.busy && row.frozen == other.frozen && row.lastNonBusy == other.lastNonBusy && row.firstBusyObserved == other.firstBusyObserved
  }

  lemma CarriesOn(before: Row, a: Aggregate, now: Instant, tui: Option<Tui>, row: Row)
    requires row == if tui.Some? then AsAttached(Updated(before, a, now), tui.value) else AsHeadless(Updated(before, a, now))
    ensures KeepsMarks(before, row) && CountsOn(before, row, now)
  {
    UpdatedKeeps(before, a, now, tui, row);
    UpdatedCounts(before, a, now, row);
  }

  lemma SpeakingOccurs(table: Table, root: Id, a: Aggregate, row: Row)
    requires Presence.Speaks(table, root, a) && row.questions == a.questions && row.permissions == a.permissions && row.busy == a.busy
    ensures RootOccurs(table, root, row)
  {
    Presence.NothingPending(table, root, a);
    Presence.RowOccurs(table, root, a, row);
  }

  /** Each TUI that the pass attaches shows its root, with everything reported of the root. */
  lemma AttachedShown(scene: Scene, table: Table, resolutions: Resolutions, aggregates: seq<Aggregate>, pair: (Tui, Resolution))
    requires V2AggregatesOf(table, aggregates) && scene.byRoot == ByRoot(aggregates) && Aggregated(scene, resolutions)
    requires OwnRows(scene.previous, scene.instance) && pair in resolutions && pair.1.Attached?
    ensures HasRoot(scene, table, NewRows(scene, resolutions, aggregates), pair.1.root, Some(pair.0))
  {
    ByRootMeaning(aggregates);
    var a := AggregateAt(aggregates, pair.1.root);
    var row := AsAttached(SceneRow(scene, a), pair.0);
    AttachedRowShown(scene, resolutions, pair);
    ShownFace(scene, table, a, Some(pair.0), row);
    assert row in NewRows(scene, resolutions, aggregates);
  }

  /** Some session of the tree of `root` is at work. */
  ghost predicate Active(table: Table, root: Id) {
    exists id :: id in table && RootOf(table, id) == root && (table[id].status == Busy || table[id].status == Retry)
  }

  /** Each root with work that no TUI shows has a row of its own. */
  lemma HeadlessShown(scene: Scene, table: Table, resolutions: Resolutions, aggregates: seq<Aggregate>, root: Id)
    requires V2AggregatesOf(table, aggregates) && Aggregated(scene, resolutions) && OwnRows(scene.previous, scene.instance)
    requires Active(table, root) && root !in AttachedRoots(resolutions)
    ensures HasRoot(scene, table, NewRows(scene, resolutions, aggregates), root, None)
  {
    assert root in ActiveRoots(table) && root in Roots(table);
    var a :| a in aggregates && a.id == root;
    WorkOfAggregate(table, a);
    var row := AsHeadless(SceneRow(scene, a));
    HeadlessRowShown(scene, aggregates, AttachedRoots(resolutions), a);
    ShownFace(scene, table, a, None, row);
    assert row in NewRows(scene, resolutions, aggregates);
  }

  lemma {:induction false} UnresolvedRowShown(instance: Instance, resolutions: Resolutions, pair: (Tui, Resolution))
    requires pair in resolutions && pair.1.Unresolved?
    ensures AsUnresolved(instance, pair.0, pair.1.ambiguous, pair.1.hint) in UnresolvedRows(instance, resolutions)
  {
    var n := |resolutions| - 1;
    if pair != resolutions[n] {
      assert pair in resolutions[..n];
      UnresolvedRowShown(instance, resolutions[..n], pair);
    }
  }

  /** Each other TUI waits in a row that says where it runs, and which root it may belong to. */
  lemma WaitingShown(scene: Scene, resolutions: Resolutions, aggregates: seq<Aggregate>, pair: (Tui, Resolution))
    requires Aggregated(scene, resolutions) && pair in resolutions && pair.1.Unresolved?
    ensures HasWaiting(NewRows(scene, resolutions, aggregates), scene.instance, pair.0, pair.1.ambiguous, pair.1.hint)
  {
    var row := AsUnresolved(scene.instance, pair.0, pair.1.ambiguous, pair.1.hint);
    UnresolvedRowShown(scene.instance, resolutions, pair);
    assert WaitingFace(scene.instance, pair.0, pair.1.ambiguous, pair.1.hint, row);
    assert row in NewRows(scene, resolutions, aggregates);
  }

  /** What the row of an unattached TUI says, from the sessions and the TUI alone. */
  lemma WaitingTells(scene: Scene, table: Table, tuis: seq<Tui>, before: Sticky, after: Sticky, resolutions: Resolutions,
                     aggregates: seq<Aggregate>, j: nat)
    requires UniqueKeys(tuis) && Rebuilt(scene, table, tuis, before, after, resolutions, aggregates) && j < |tuis|
    requires LocationLaws.Unasking(tuis[j]) && (scene.instance, tuis[j].key) !in before
    requires j < |resolutions| && !resolutions[j].1.Attached?
    ensures exists ambiguous, hint ::
      && HasWaiting(NewRows(scene, resolutions, aggregates), scene.instance, tuis[j], ambiguous, hint)
      && LocationLaws.ToldAbout(table, tuis[j], Unresolved(ambiguous, hint))
  {
    LocationLaws.CallFollows(table, tuis, scene.instance, before, after, resolutions, j, 0);
    assert resolutions[j] in resolutions;
    WaitingShown(scene, resolutions, aggregates, resolutions[j]);
  }
}
