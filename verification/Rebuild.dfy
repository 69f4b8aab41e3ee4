/** `rebuild_v2_rows`: the rows of a v2 server are built anew from its sessions and from the
    TUIs that run beside it. */
module Rebuild {
  import opened Wrappers
  import opened Ordering
  import opened Sessions
  import opened Aggregates
  import opened Matching
  import opened Matcher
  import opened Rows
  import Freezing

  type Seen = map<(Instance, Id), Instant>

  type Resolutions = seq<(Tui, Resolution)>

  function Others(rows: seq<Row>, instance: Instance): seq<Row> {
    if rows == [] then []
    else
      var last := rows[|rows| - 1];
      Others(rows[..|rows| - 1], instance) + if last.instance != instance then [last] else []
  }

  type Previous = rows: map<RowId, Row> | forall id :: id in rows ==> rows[id].id == id

  /** The rows the instance had, by their ids. */
  function PreviousRows(rows: seq<Row>, instance: Instance): Previous {
    if rows == [] then map[]
    else
      var last := rows[|rows| - 1];
      var init := PreviousRows(rows[..|rows| - 1], instance);
      if last.instance == instance then init[last.id := last] else init
  }

  function Lookup(previous: Previous, root: Id): Option<Row> {
    if SessionRow(root) in previous then Some(previous[SessionRow(root)]) else None
  }

  function ByRoot(aggregates: seq<Aggregate>): map<Id, Aggregate> {
    if aggregates == [] then map[]
    else
      var last := aggregates[|aggregates| - 1];
      ByRoot(aggregates[..|aggregates| - 1])[last.id := last]
  }

  /** The row of a root before it is classified: its previous row brought up to date, or
      a new one. */
  function RowFor(instance: Instance, previous: Option<Row>, seen: Seen, a: Aggregate, now: Instant): Row {
    match previous
    case Some(row) => Updated(row, a, now)
    case None => NewRow(instance, a, if (instance, a.id) in seen then Some(seen[(instance, a.id)]) else None, now)
  }

  function AsAttached(row: Row, tui: Tui): Row {
    row.(category := AttachedRow, tui := Some(tui.key), attachmentStale := tui.stale)
  }

  function AsHeadless(row: Row): Row {
    row.(category := Headless, attachmentStale := false, tui := None)
  }

  function AsUnresolved(instance: Instance, tui: Tui, ambiguous: bool, hint: Option<Id>): Row {
    Row(instance, PidRow(tui.key.pid), Located(tui.cwd, hint), "", false, false, 0, [], [], false, 0, false, tui.stale,
        None, None, None, None, if ambiguous then Ambiguous else UnresolvedRow, Some(tui.key))
  }

  predicate HasWork(a: Aggregate) {
    a.busy || a.background > 0
  }

  /** Everything a rebuild reads besides the resolutions. */
  datatype Scene = Scene(instance: Instance, previous: Previous, seen: Seen, byRoot: map<Id, Aggregate>, now: Instant)

  predicate Aggregated(scene: Scene, resolutions: Resolutions) {
    forall pair :: pair in resolutions && pair.1.Attached? ==> pair.1.root in scene.byRoot && scene.byRoot[pair.1.root].id == pair.1.root
  }

  function SceneRow(scene: Scene, a: Aggregate): Row {
    RowFor(scene.instance, Lookup(scene.previous, a.id), scene.seen, a, scene.now)
  }

  function AttachedRows(scene: Scene, resolutions: Resolutions): seq<Row>
    requires Aggregated(scene, resolutions)
  {
    if resolutions == [] then []
    else
      var (tui, resolution) := resolutions[|resolutions| - 1];
      var init := AttachedRows(scene, resolutions[..|resolutions| - 1]);
      if resolution.Attached? then init + [AsAttached(SceneRow(scene, scene.byRoot[resolution.root]), tui)] else init
  }

  function AttachedRoots(resolutions: Resolutions): set<Id> {
    set pair | pair in resolutions && pair.1.Attached? :: pair.1.root
  }

  function HeadlessRows(scene: Scene, aggregates: seq<Aggregate>, attached: set<Id>): seq<Row> {
    if aggregates == [] then []
    else
      var last := aggregates[|aggregates| - 1];
      var init := HeadlessRows(scene, aggregates[..|aggregates| - 1], attached);
      if HasWork(last) && last.id !in attached then init + [AsHeadless(SceneRow(scene, last))] else init
  }

  function UnresolvedRows(instance: Instance, resolutions: Resolutions): seq<Row> {
    if resolutions == [] then []
    else
      var (tui, resolution) := resolutions[|resolutions| - 1];
      var init := UnresolvedRows(instance, resolutions[..|resolutions| - 1]);
      match resolution
      case Attached(_) => init
      case Unresolved(ambiguous, hint) => init + [AsUnresolved(instance, tui, ambiguous, hint)]
  }

  // ---------- the rebuild as it runs ----------

  predicate DistinctRoots(resolutions: Resolutions) {
    forall i, j :: 0 <= i < j < |resolutions| && resolutions[i].1.Attached? && resolutions[j].1.Attached? ==>
      resolutions[i].1.root != resolutions[j].1.root
  }

  /** Apart from the roots in `used`, `left` still holds what `previous` held. */
  ghost predicate Remaining(previous: Previous, left: Previous, used: set<Id>) {
    forall root: Id :: root !in used ==> Lookup(left, root) == Lookup(previous, root)
  }

  type Waiting = (Tui, bool, Option<Id>)

  function WaitingOf(resolutions: Resolutions): seq<Waiting> {
    if resolutions == [] then []
    else
      var (tui, resolution) := resolutions[|resolutions| - 1];
      var init := WaitingOf(resolutions[..|resolutions| - 1]);
      match resolution
      case Attached(_) => init
      case Unresolved(ambiguous, hint) => init + [(tui, ambiguous, hint)]
  }

  function WaitingRows(instance: Instance, waiting: seq<Waiting>): seq<Row> {
    seq(|waiting|, i requires 0 <= i < |waiting| => AsUnresolved(instance, waiting[i].0, waiting[i].1, waiting[i].2))
  }

  lemma {:induction false} WaitingRowsAreUnresolved(instance: Instance, resolutions: Resolutions)
    ensures WaitingRows(instance, WaitingOf(resolutions)) == UnresolvedRows(instance, resolutions)
  {
    if resolutions != [] {
      var init := resolutions[..|resolutions| - 1];
      WaitingRowsAreUnresolved(instance, init);
      var (tui, resolution) := resolutions[|resolutions| - 1];
      if resolution.Unresolved? {
        assert WaitingRows(instance, WaitingOf(resolutions)) ==
               WaitingRows(instance, WaitingOf(init)) + [AsUnresolved(instance, tui, resolution.ambiguous, resolution.hint)];
      }
    }
  }

  lemma PrefixAggregated(scene: Scene, resolutions: Resolutions, i: nat)
    requires Aggregated(scene, resolutions) && i <= |resolutions|
    ensures Aggregated(scene, resolutions[..i])
  {
  }

  lemma StepResolutions(scene: Scene, resolutions: Resolutions, i: nat)
    requires Aggregated(scene, resolutions) && i < |resolutions|
    ensures Aggregated(scene, resolutions[..i]) && Aggregated(scene, resolutions[..i + 1])
    ensures var (tui, resolution) := resolutions[i];
      && AttachedRows(scene, resolutions[..i + 1]) ==
         AttachedRows(scene, resolutions[..i])
         + (if resolution.Attached? then [AsAttached(SceneRow(scene, scene.byRoot[resolution.root]), tui)] else [])
      && AttachedRoots(resolutions[..i + 1]) ==
         AttachedRoots(resolutions[..i]) + (if resolution.Attached? then {resolution.root} else {})
      && WaitingOf(resolutions[..i + 1]) ==
         WaitingOf(resolutions[..i]) + (if resolution.Unresolved? then [(tui, resolution.ambiguous, resolution.hint)] else [])
  {
    assert resolutions[..i + 1][..i] == resolutions[..i];
    assert resolutions[..i + 1] == resolutions[..i] + [resolutions[i]];
    assert resolutions[i] in resolutions[..i + 1];
  }

  lemma FreshRoot(resolutions: Resolutions, i: nat)
    requires DistinctRoots(resolutions) && i < |resolutions| && resolutions[i].1.Attached?
    ensures resolutions[i].1.root !in AttachedRoots(resolutions[..i])
  {
  }

  class V2Dashboard {
    var rows: seq<Row>
    var projections: map<Instance, seq<Session>>
    var attachments: map<Instance, seq<Tui>>
    var lastNonBusy: Seen
    var connected: set<Instance>
    const matcher: TuiMatcher

    ghost predicate Valid()
      reads this
    {
      && (forall instance :: instance in projections ==> UniqueIds(projections[instance]))
      && (forall instance :: instance in attachments ==> UniqueKeys(attachments[instance]))
    }

    constructor ()
      ensures Valid() && fresh(matcher) && rows == [] && matcher.sticky == map[]
    {
      rows, projections, attachments, lastNonBusy, connected := [], map[], map[], map[], {};
      matcher := new TuiMatcher();
    }

    /** `set_stale`. */
    method SetStale(instance: Instance, stale: bool, now: Instant)
      modifies this`rows
      ensures |rows| == |old(rows)|
      ensures forall i :: 0 <= i < |rows| ==>
        rows[i] == if old(rows)[i].instance == instance then StaleRow(old(rows)[i], stale, now) else old(rows)[i]
    {
      for i := 0 to |rows|
        invariant |rows| == |old(rows)|
        invariant forall j :: 0 <= j < |rows| ==>
          rows[j] == if j < i && old(rows)[j].instance == instance then StaleRow(old(rows)[j], stale, now) else old(rows)[j]
      {
        if rows[i].instance == instance {
          rows := rows[i := StaleRow(rows[i], stale, now)];
        }
      }
    }

    /** `Disconnected`. */
    method Disconnect(instance: Instance, now: Instant)
      modifies this`rows, this`connected
      ensures connected == old(connected) - {instance} && |rows| == |old(rows)|
      ensures forall i :: 0 <= i < |rows| ==>
        rows[i] == if old(rows)[i].instance == instance then Freezing.Meet(old(rows)[i], Freezing.Lost, now) else old(rows)[i]
    {
      connected := connected - {instance};
      SetStale(instance, true, now);
    }

    /** `Connected`. */
    method Connect(instance: Instance, now: Instant)
      modifies this`rows, this`connected
      ensures connected == old(connected) + {instance} && |rows| == |old(rows)|
      ensures forall i :: 0 <= i < |rows| ==>
        rows[i] == if old(rows)[i].instance == instance then Freezing.Meet(old(rows)[i], Freezing.Restored, now) else old(rows)[i]
    {
      connected := connected + {instance};
      SetStale(instance, false, now);
    }

    /** Takes the rows of the instance out of the list. */
    method TakeRows(instance: Instance) returns (previous: Previous)
      modifies this`rows
      ensures rows == Others(old(rows), instance)
      ensures previous == PreviousRows(old(rows), instance)
    {
      previous := map[];
      var kept: seq<Row> := [];
      for i := 0 to |rows|
        invariant kept == Others(rows[..i], instance)
        invariant previous == PreviousRows(rows[..i], instance)
      {
        assert rows[..i + 1][..i] == rows[..i];
        if rows[i].instance == instance {
          previous := previous[rows[i].id := rows[i]];
        } else {
          kept := kept + [rows[i]];
        }
      }
      assert rows[..|rows|] == rows;
      rows := kept;
    }

    /** The row of a root, moved out of `previous` if it is there. */
    method TakeRow(previous: Previous, instance: Instance, a: Aggregate, now: Instant) returns (row: Row, left: Previous)
      ensures row == RowFor(instance, Lookup(previous, a.id), lastNonBusy, a, now)
      ensures forall root: Id :: root != a.id ==> Lookup(left, root) == Lookup(previous, root)
    {
      left := previous - {SessionRow(a.id)};
      if SessionRow(a.id) in previous {
        row := UpdateRow(previous[SessionRow(a.id)], a, now);
      } else {
        row := NewRow(instance, a, if (instance, a.id) in lastNonBusy then Some(lastNonBusy[(instance, a.id)]) else None, now);
      }
    }

    /** The loop over the resolutions. Neither a root without an aggregate nor a root that
        is attached already is ever met. */
    method AttachRows(scene: Scene, resolutions: Resolutions) returns (left: Previous, attached: set<Id>, waiting: seq<Waiting>)
      requires scene.seen == lastNonBusy && Aggregated(scene, resolutions) && DistinctRoots(resolutions)
      modifies this`rows
      ensures rows == old(rows) + AttachedRows(scene, resolutions)
      ensures attached == AttachedRoots(resolutions) && waiting == WaitingOf(resolutions)
      ensures Remaining(scene.previous, left, attached)
    {
      left, attached, waiting := scene.previous, {}, [];
      for i := 0 to |resolutions|
        invariant Aggregated(scene, resolutions[..i])
        invariant rows == old(rows) + AttachedRows(scene, resolutions[..i])
        invariant attached == AttachedRoots(resolutions[..i]) && waiting == WaitingOf(resolutions[..i])
        invariant Remaining(scene.previous, left, attached)
      {
        StepResolutions(scene, resolutions, i);
        var (tui, resolution) := resolutions[i];
        assert resolutions[i] in resolutions;
        match resolution {
          case Attached(root) =>
            FreshRoot(resolutions, i);
            if root !in scene.byRoot || root in attached {
              assert false;
            }
            var row;
            row, left := TakeRow(left, scene.instance, scene.byRoot[root], scene.now);
            attached := attached + {root};
            rows := rows + [AsAttached(row, tui)];
          case Unresolved(ambiguous, hint) =>
            waiting := waiting + [(tui, ambiguous, hint)];
        }
      }
      assert resolutions[..|resolutions|] == resolutions;
    }

    /** The loop over the aggregates: work that no TUI shows. */
    method AddHeadless(scene: Scene, previous: Previous, aggregates: seq<Aggregate>, attached: set<Id>)
      requires scene.seen == lastNonBusy && SortedById(aggregates) && Remaining(scene.previous, previous, attached)
      modifies this`rows
      ensures rows == old(rows) + HeadlessRows(scene, aggregates, attached)
    {
      var left := previous;
      for i := 0 to |aggregates|
        invariant rows == old(rows) + HeadlessRows(scene, aggregates[..i], attached)
        invariant Remaining(scene.previous, left, attached + AggregateIds(aggregates[..i]))
      {
        var a := aggregates[i];
        StepAggregates(aggregates, i);
        if HasWork(a) && a.id !in attached {
          left := AddHeadlessRow(scene, left, a, attached + AggregateIds(aggregates[..i]));
        }
      }
      assert aggregates[..|aggregates|] == aggregates;
    }

    method AddHeadlessRow(scene: Scene, previous: Previous, a: Aggregate, ghost used: set<Id>) returns (left: Previous)
      requires scene.seen == lastNonBusy && Remaining(scene.previous, previous, used) && a.id !in used
      modifies this`rows
      ensures rows == old(rows) + [AsHeadless(SceneRow(scene, a))]
      ensures Remaining(scene.previous, left, used + {a.id})
    {
      var row;
      row, left := TakeRow(previous, scene.instance, a, scene.now);
      rows := rows + [AsHeadless(row)];
    }

    method AddUnresolved(instance: Instance, waiting: seq<Waiting>)
      modifies this`rows
      ensures rows == old(rows) + WaitingRows(instance, waiting)
    {
      for i := 0 to |waiting|
        invariant rows == old(rows) + WaitingRows(instance, waiting)[..i]
      {
        var (tui, ambiguous, hint) := waiting[i];
        rows := rows + [AsUnresolved(instance, tui, ambiguous, hint)];
      }
      assert WaitingRows(instance, waiting)[..|waiting|] == WaitingRows(instance, waiting);
    }

    /** `rebuild_v2_rows`. Without a projection the instance just loses its rows. */
    method RebuildV2Rows(instance: Instance, now: Instant)
        returns (ghost scene: Scene, ghost resolutions: Resolutions, ghost aggregates: seq<Aggregate>)
      requires Valid()
      modifies this`rows, matcher
      ensures instance !in projections ==>
        rows == Others(old(rows), instance) && matcher.sticky == old(matcher.sticky)
      ensures instance in projections ==>
        && Rebuilt(scene, TableOf(projections[instance]), TuisAt(instance), old(matcher.sticky), matcher.sticky, resolutions, aggregates)
        && scene == Scene(instance, PreviousRows(old(rows), instance), lastNonBusy, ByRoot(aggregates), now)
        && rows == Others(old(rows), instance) + NewRows(scene, resolutions, aggregates)
    {
      scene, resolutions, aggregates := Scene(instance, map[], lastNonBusy, map[], now), [], [];
      var previous := TakeRows(instance);
      if instance in projections {
        scene, resolutions, aggregates := Populate(instance, previous, now);
      }
    }

    /** The new rows of the instance, in place of the previous ones. */
    method Populate(instance: Instance, previous: Previous, now: Instant)
        returns (ghost scene: Scene, ghost resolutions: Resolutions, ghost aggregates: seq<Aggregate>)
      requires Valid() && instance in projections
      modifies this`rows, matcher
      ensures Rebuilt(scene, TableOf(projections[instance]), TuisAt(instance), old(matcher.sticky), matcher.sticky, resolutions, aggregates)
      ensures scene == Scene(instance, previous, lastNonBusy, ByRoot(aggregates), now)
      ensures rows == old(rows) + NewRows(scene, resolutions, aggregates)
    {
      var known, outcome, listed := Gather(instance, previous, now);
      AddRows(known, outcome, listed);
      scene, resolutions, aggregates := known, outcome, listed;
    }

    /** The aggregates of the instance's sessions and the resolutions of its TUIs. */
    method Gather(instance: Instance, previous: Previous, now: Instant)
        returns (scene: Scene, resolutions: Resolutions, aggregates: seq<Aggregate>)
      requires Valid() && instance in projections
      modifies matcher
      ensures Rebuilt(scene, TableOf(projections[instance]), TuisAt(instance), old(matcher.sticky), matcher.sticky, resolutions, aggregates)
      ensures scene == Scene(instance, previous, lastNonBusy, ByRoot(aggregates), now)
      ensures Aggregated(scene, resolutions) && DistinctRoots(resolutions) && SortedById(aggregates)
    {
      var sessions := projections[instance];
      var tuis := TuisAt(instance);
      assert UniqueKeys(tuis);
      aggregates := AggregateV2Roots(sessions);
      var byRoot := IndexByRoot(aggregates);
      resolutions := matcher.ResolveTuis(instance, tuis, sessions);
      scene := Scene(instance, previous, lastNonBusy, byRoot, now);
      RebuiltScene(scene, TableOf(sessions), tuis, old(matcher.sticky), matcher.sticky, resolutions, aggregates);
    }

    method AddRows(scene: Scene, resolutions: Resolutions, aggregates: seq<Aggregate>)
      requires scene.seen == lastNonBusy && SortedById(aggregates)
      requires Aggregated(scene, resolutions) && DistinctRoots(resolutions)
      modifies this`rows
      ensures rows == old(rows) + NewRows(scene, resolutions, aggregates)
    {
      ghost var before := rows;
      var left, attached, waiting := AttachRows(scene, resolutions);
      AddHeadless(scene, left, aggregates, attached);
      AddUnresolved(scene.instance, waiting);
      WaitingRowsAreUnresolved(scene.instance, resolutions);
      Appended(before, AttachedRows(scene, resolutions), HeadlessRows(scene, aggregates, attached),
               UnresolvedRows(scene.instance, resolutions));
    }

    function TuisAt(instance: Instance): seq<Tui>
      reads this`attachments
    {
      if instance in attachments then attachments[instance] else []
    }
  }

  lemma Appended(before: seq<Row>, attached: seq<Row>, headless: seq<Row>, unresolved: seq<Row>)
    ensures before + attached + headless + unresolved == before + (attached + headless + unresolved)
  {
  }

  method IndexByRoot(aggregates: seq<Aggregate>) returns (byRoot: map<Id, Aggregate>)
    ensures byRoot == ByRoot(aggregates)
  {
    byRoot := map[];
    for i := 0 to |aggregates|
      invariant byRoot == ByRoot(aggregates[..i])
    {
      assert aggregates[..i + 1][..i] == aggregates[..i];
      byRoot := byRoot[aggregates[i].id := aggregates[i]];
    }
    assert aggregates[..|aggregates|] == aggregates;
  }

  function NewRows(scene: Scene, resolutions: Resolutions, aggregates: seq<Aggregate>): seq<Row>
    requires Aggregated(scene, resolutions)
  {
    AttachedRows(scene, resolutions)
    + HeadlessRows(scene, aggregates, AttachedRoots(resolutions))
    + UnresolvedRows(scene.instance, resolutions)
  }

  // ---------- what a rebuild shows ----------

  /** The resolutions and the aggregates are those of the sessions and the TUIs. */
  ghost predicate Rebuilt(scene: Scene, table: Table, tuis: seq<Tui>, before: Sticky, after: Sticky, resolutions: Resolutions,
                          aggregates: seq<Aggregate>)
  {
    && PassResult(table, tuis, scene.instance, before, after, resolutions)
    && V2AggregatesOf(table, aggregates)
    && scene.byRoot == ByRoot(aggregates)
    && Aggregated(scene, resolutions)
    && DistinctRoots(resolutions)
  }

  lemma SplitSorted(aggregates: seq<Aggregate>)
    requires SortedById(aggregates) && aggregates != []
    ensures var init, last := aggregates[..|aggregates| - 1], aggregates[|aggregates| - 1];
      && SortedById(init)
      && AggregateIds(aggregates) == AggregateIds(init) + {last.id} && last.id !in AggregateIds(init)
      && forall a :: a in aggregates <==> a in init || a == last
  {
  }

  ghost predicate Indexes(byRoot: map<Id, Aggregate>, aggregates: seq<Aggregate>) {
    && byRoot.Keys == AggregateIds(aggregates)
    && forall a :: a in aggregates ==> a.id in byRoot && byRoot[a.id] == a
  }

  lemma IndexOneMore(byRoot: map<Id, Aggregate>, init: seq<Aggregate>, last: Aggregate, aggregates: seq<Aggregate>)
    requires Indexes(byRoot, init) && last.id !in AggregateIds(init)
    requires AggregateIds(aggregates) == AggregateIds(init) + {last.id}
    requires forall a :: a in aggregates <==> a in init || a == last
    ensures Indexes(byRoot[last.id := last], aggregates)
  {
  }

  lemma {:induction false} ByRootMeaning(aggregates: seq<Aggregate>)
    requires SortedById(aggregates)
    ensures Indexes(ByRoot(aggregates), aggregates)
  {
    if aggregates != [] {
      var init, last := aggregates[..|aggregates| - 1], aggregates[|aggregates| - 1];
      SplitSorted(aggregates);
      ByRootMeaning(init);
      IndexOneMore(ByRoot(init), init, last, aggregates);
    }
  }

  /** Exactly the attachments of the pass are resolved as attached. */
  lemma {:induction false} AttachedExactly(table: Table, tuis: seq<Tui>, stage: Stage, resolutions: Resolutions)
    requires UniqueKeys(tuis) && Sound(table, TuisOf(tuis), stage) && Resolves(table, tuis, stage, resolutions)
    ensures ResolvedAs(tuis, stage.attached, resolutions)
    ensures DistinctRoots(resolutions)
    ensures AttachedRoots(resolutions) == stage.attached.Values
  {
    RootsAttached(tuis, stage.attached, resolutions);
  }

  ghost predicate ResolvedAs(tuis: seq<Tui>, attached: Claims, resolutions: Resolutions) {
    |resolutions| == |tuis| &&
    forall i :: 0 <= i < |tuis| ==>
      && resolutions[i].0 == tuis[i]
      && (resolutions[i].1.Attached? <==> tuis[i].key in attached)
      && (resolutions[i].1.Attached? ==> resolutions[i].1.root == attached[tuis[i].key])
  }

  lemma {:induction false} RootsAttached(tuis: seq<Tui>, attached: Claims, resolutions: Resolutions)
    requires UniqueKeys(tuis) && ResolvedAs(tuis, attached, resolutions)
    requires Injective(attached) && attached.Keys <= TuisOf(tuis).Keys
    ensures DistinctRoots(resolutions)
    ensures AttachedRoots(resolutions) == attached.Values
  {
    forall root | root in attached.Values ensures root in AttachedRoots(resolutions) {
      var key :| key in attached && attached[key] == root;
      TuisOfMeaning(tuis);
      var i :| 0 <= i < |tuis| && tuis[i] == TuisOf(tuis)[key];
      assert resolutions[i] in resolutions;
    }
  }

  lemma {:induction false} RebuiltScene(scene: Scene, table: Table, tuis: seq<Tui>, before: Sticky, after: Sticky, resolutions: Resolutions,
                     aggregates: seq<Aggregate>)
    requires UniqueKeys(tuis) && PassResult(table, tuis, scene.instance, before, after, resolutions)
    requires V2AggregatesOf(table, aggregates) && scene.byRoot == ByRoot(aggregates)
    ensures Rebuilt(scene, table, tuis, before, after, resolutions, aggregates)
  {
    var stage := FinalStage(table, TuisOf(tuis), View(before, scene.instance));
    StagesAreSound(table, TuisOf(tuis), View(before, scene.instance));
    AttachedExactly(table, tuis, stage, resolutions);
    ByRootMeaning(aggregates);
    EveryRootAggregated(table, aggregates);
    forall pair | pair in resolutions && pair.1.Attached?
      ensures pair.1.root in scene.byRoot && scene.byRoot[pair.1.root].id == pair.1.root
    {
      assert pair.1.root in AttachedRoots(resolutions);
      var a :| a in aggregates && a.id == pair.1.root;
    }
  }

  /** How many rows stand for `root`. */
  function Shown(rows: seq<Row>, root: Id): nat {
    if rows == [] then 0
    else Shown(rows[..|rows| - 1], root) + if rows[|rows| - 1].id == SessionRow(root) then 1 else 0
  }

  lemma {:induction false} ShownConcat(left: seq<Row>, right: seq<Row>, root: Id)
    ensures Shown(left + right, root) == Shown(left, root) + Shown(right, root)
  {
    if right == [] {
      assert left + right == left;
    } else {
      assert (left + right)[..|left + right| - 1] == left + right[..|right| - 1];
      ShownConcat(left, right[..|right| - 1], root);
    }
  }

  lemma {:induction false} AttachedShown(scene: Scene, resolutions: Resolutions, root: Id)
    requires Aggregated(scene, resolutions) && DistinctRoots(resolutions)
    ensures Shown(AttachedRows(scene, resolutions), root) == if root in AttachedRoots(resolutions) then 1 else 0
  {
    if resolutions != [] {
      var n := |resolutions| - 1;
      var init := resolutions[..n];
      StepResolutions(scene, resolutions, n);
      assert resolutions[..n + 1] == resolutions;
      AttachedShown(scene, init, root);
      var (tui, resolution) := resolutions[n];
      if resolution.Attached? {
        FreshRoot(resolutions, n);
        AppendShown(AttachedRows(scene, init), AsAttached(SceneRow(scene, scene.byRoot[resolution.root]), tui), root);
      }
    }
  }

  lemma {:induction false} OneRowEach(scene: Scene, resolutions: Resolutions)
    requires Aggregated(scene, resolutions)
    ensures |AttachedRows(scene, resolutions)| + |UnresolvedRows(scene.instance, resolutions)| == |resolutions|
  {
    if resolutions != [] {
      PrefixAggregated(scene, resolutions, |resolutions| - 1);
      OneRowEach(scene, resolutions[..|resolutions| - 1]);
      assert resolutions[|resolutions| - 1].1.Attached? || resolutions[|resolutions| - 1].1.Unresolved?;
    }
  }

  lemma AppendShown(rows: seq<Row>, row: Row, root: Id)
    ensures Shown(rows + [row], root) == Shown(rows, root) + if row.id == SessionRow(root) then 1 else 0
  {
  }

  function Unshown(aggregates: seq<Aggregate>, attached: set<Id>): set<Id> {
    set a | a in aggregates && HasWork(a) && a.id !in attached :: a.id
  }

  lemma UnshownGrows(init: seq<Aggregate>, last: Aggregate, aggregates: seq<Aggregate>, attached: set<Id>)
    requires forall a :: a in aggregates <==> a in init || a == last
    requires last.id !in AggregateIds(init)
    ensures Unshown(aggregates, attached) ==
            if HasWork(last) && last.id !in attached then Unshown(init, attached) + {last.id} else Unshown(init, attached)
    ensures last.id !in Unshown(init, attached)
  {
  }

  lemma {:induction false} HeadlessShown(scene: Scene, aggregates: seq<Aggregate>, attached: set<Id>, root: Id)
    requires SortedById(aggregates)
    ensures CountsAs(HeadlessRows(scene, aggregates, attached), Unshown(aggregates, attached), root)
  {
    if aggregates != [] {
      var init, last := aggregates[..|aggregates| - 1], aggregates[|aggregates| - 1];
      SplitSorted(aggregates);
      HeadlessShown(scene, init, attached, root);
      UnshownGrows(init, last, aggregates, attached);
      CountOneMore(HeadlessRows(scene, init, attached), Unshown(init, attached), AsHeadless(SceneRow(scene, last)), last.id, root);
    }
  }

  /** `rows` has as many rows as `roots` has roots, and a row for `root` if it is one of them. */
  predicate CountsAs(rows: seq<Row>, roots: set<Id>, root: Id) {
    Shown(rows, root) == (if root in roots then 1 else 0) && |rows| == |roots|
  }

  lemma CountOneMore(rows: seq<Row>, roots: set<Id>, row: Row, id: Id, root: Id)
    requires CountsAs(rows, roots, root) && row.id == SessionRow(id) && id !in roots
    ensures CountsAs(rows + [row], roots + {id}, root)
  {
  }

  lemma {:induction false} NoneUnresolvedShown(instance: Instance, resolutions: Resolutions, root: Id)
    ensures Shown(UnresolvedRows(instance, resolutions), root) == 0
  {
    if resolutions != [] {
      var (tui, resolution) := resolutions[|resolutions| - 1];
      NoneUnresolvedShown(instance, resolutions[..|resolutions| - 1], root);
      if resolution.Unresolved? {
        AppendShown(UnresolvedRows(instance, resolutions[..|resolutions| - 1]),
                    AsUnresolved(instance, tui, resolution.ambiguous, resolution.hint), root);
      }
    }
  }

  lemma ActiveAggregates(table: Table, aggregates: seq<Aggregate>, attached: set<Id>)
    requires V2AggregatesOf(table, aggregates)
    ensures Unshown(aggregates, attached) == ActiveRoots(table) - attached
  {
    EveryRootAggregated(table, aggregates);
    forall a | a in aggregates ensures HasWork(a) <==> a.id in ActiveRoots(table) {
      WorkOfAggregate(table, a);
    }
    forall root | root in ActiveRoots(table) ensures exists a :: a in aggregates && a.id == root {
      assert root in AggregateIds(aggregates);
    }
  }

  lemma WorkOfAggregate(table: Table, a: Aggregate)
    requires Describes(table, a) && a.background == |Background(table, table.Keys, a.id)|
    ensures HasWork(a) <==> a.id in ActiveRoots(table)
  {
    RootsAreListed(table);
    var behind := Background(table, table.Keys, a.id);
    if a.id in ActiveRoots(table) && !a.busy {
      var id :| id in table && Working(table[id]) && RootOf(table, id) == a.id;
      assert id in behind;
    }
    if a.background > 0 {
      assert behind != {};
      var id :| id in behind;
    }
    if a.busy {
      var id :| id in table && RootOf(table, id) == a.id;
      assert RootOf(table, a.id) == a.id;
    }
  }

  /** Every root that an attached TUI shows or that has work somewhere below it has exactly
      one row, and no other session has one; each TUI has one row of its own. */
  lemma {:induction false} WorkIsCovered(scene: Scene, table: Table, tuis: seq<Tui>, before: Sticky, after: Sticky,
                                         resolutions: Resolutions, aggregates: seq<Aggregate>, root: Id)
    requires UniqueKeys(tuis) && Rebuilt(scene, table, tuis, before, after, resolutions, aggregates)
    ensures var attached := Pass(table, TuisOf(tuis), View(before, scene.instance)).Values;
      && Shown(NewRows(scene, resolutions, aggregates), root) == (if root in attached || root in ActiveRoots(table) then 1 else 0)
      && |NewRows(scene, resolutions, aggregates)| == |tuis| + |ActiveRoots(table) - attached|
  {
    var view := View(before, scene.instance);
    StagesAreSound(table, TuisOf(tuis), view);
    AttachedExactly(table, tuis, FinalStage(table, TuisOf(tuis), view), resolutions);
    ActiveAggregates(table, aggregates, AttachedRoots(resolutions));
    NewRowsShown(scene, resolutions, aggregates, root);
  }

  lemma {:induction false} NewRowsShown(scene: Scene, resolutions: Resolutions, aggregates: seq<Aggregate>, root: Id)
    requires Aggregated(scene, resolutions) && DistinctRoots(resolutions) && SortedById(aggregates)
    ensures var attached := AttachedRoots(resolutions);
      && Shown(NewRows(scene, resolutions, aggregates), root) ==
         (if root in attached || root in Unshown(aggregates, attached) then 1 else 0)
      && |NewRows(scene, resolutions, aggregates)| == |resolutions| + |Unshown(aggregates, attached)|
  {
    var attached := AttachedRoots(resolutions);
    AttachedShown(scene, resolutions, root);
    OneRowEach(scene, resolutions);
    HeadlessShown(scene, aggregates, attached, root);
    NoneUnresolvedShown(scene.instance, resolutions, root);
    ShownConcat(AttachedRows(scene, resolutions), HeadlessRows(scene, aggregates, attached), root);
    ShownConcat(AttachedRows(scene, resolutions) + HeadlessRows(scene, aggregates, attached),
                UnresolvedRows(scene.instance, resolutions), root);
  }

  // ---------- what one row says ----------

  ghost predicate FromResolution(scene: Scene, resolutions: Resolutions, row: Row)
    requires Aggregated(scene, resolutions)
  {
    exists pair :: pair in resolutions && pair.1.Attached? && row == AsAttached(SceneRow(scene, scene.byRoot[pair.1.root]), pair.0)
  }

  ghost predicate FromAggregate(scene: Scene, aggregates: seq<Aggregate>, attached: set<Id>, row: Row) {
    exists a :: a in aggregates && HasWork(a) && a.id !in attached && row == AsHeadless(SceneRow(scene, a))
  }

  ghost predicate FromUnresolved(instance: Instance, resolutions: Resolutions, row: Row) {
    exists pair :: pair in resolutions && pair.1.Unresolved? && row == AsUnresolved(instance, pair.0, pair.1.ambiguous, pair.1.hint)
  }

  lemma {:induction false} AttachedRowsMeaning(scene: Scene, resolutions: Resolutions, row: Row)
    requires Aggregated(scene, resolutions) && row in AttachedRows(scene, resolutions)
    ensures FromResolution(scene, resolutions, row)
  {
    if resolutions != [] {
      var n := |resolutions| - 1;
      PrefixAggregated(scene, resolutions, n);
      if row in AttachedRows(scene, resolutions[..n]) {
        AttachedRowsMeaning(scene, resolutions[..n], row);
        var pair :| pair in resolutions[..n] && pair.1.Attached? && row == AsAttached(SceneRow(scene, scene.byRoot[pair.1.root]), pair.0);
        assert pair in resolutions;
      } else {
        assert resolutions[n] in resolutions;
      }
    }
  }

  lemma {:induction false} HeadlessRowsMeaning(scene: Scene, aggregates: seq<Aggregate>, attached: set<Id>, row: Row)
    requires row in HeadlessRows(scene, aggregates, attached)
    ensures FromAggregate(scene, aggregates, attached, row)
  {
    if aggregates != [] {
      var n := |aggregates| - 1;
      if row in HeadlessRows(scene, aggregates[..n], attached) {
        HeadlessRowsMeaning(scene, aggregates[..n], attached, row);
        var a :| a in aggregates[..n] && HasWork(a) && a.id !in attached && row == AsHeadless(SceneRow(scene, a));
        assert a in aggregates;
      } else {
        assert aggregates[n] in aggregates;
      }
    }
  }

  lemma {:induction false} UnresolvedRowsMeaning(instance: Instance, resolutions: Resolutions, row: Row)
    requires row in UnresolvedRows(instance, resolutions)
    ensures FromUnresolved(instance, resolutions, row)
  {
    if resolutions != [] {
      var n := |resolutions| - 1;
      if row in UnresolvedRows(instance, resolutions[..n]) {
        UnresolvedRowsMeaning(instance, resolutions[..n], row);
        var pair :| pair in resolutions[..n] && pair.1.Unresolved? &&
          row == AsUnresolved(instance, pair.0, pair.1.ambiguous, pair.1.hint);
        assert pair in resolutions;
      } else {
        assert resolutions[n] in resolutions;
      }
    }
  }

  /** The work of a root, and where it runs, as its row shows them. */
  ghost predicate Tells(table: Table, attached: Claims, row: Row) {
    match row.id
    case SessionRow(root) =>
      && root in table
      && row.busy == Working(table[root]) && row.background == |Background(table, table.Keys, root)|
      && Elements(row.questions) == QuestionsOf(table, table.Keys, root)
      && Elements(row.permissions) == PermissionsOf(table, table.Keys, root)
      && row.frozen.None?
      && (match row.category
          case AttachedRow => row.tui.Some? && row.tui.value in attached && attached[row.tui.value] == root
          case Headless => row.tui.None? && root !in attached.Values && root in ActiveRoots(table)
          case _ => false)
    case PidRow(pid) =>
      && (row.category.Ambiguous? || row.category.UnresolvedRow?)
      && row.tui.Some? && row.tui.value.pid == pid && row.tui.value !in attached
  }

  lemma SceneRowTells(scene: Scene, table: Table, a: Aggregate)
    requires Describes(table, a) && a.background == |Background(table, table.Keys, a.id)|
    ensures var row := SceneRow(scene, a);
      && row.id == SessionRow(a.id) && row.busy == Working(table[a.id]) && row.frozen.None?
      && row.background == |Background(table, table.Keys, a.id)|
      && Elements(row.questions) == QuestionsOf(table, table.Keys, a.id)
      && Elements(row.permissions) == PermissionsOf(table, table.Keys, a.id)
  {
  }

  /** The resolutions of a pass speak for its attachments. */
  ghost predicate Speak(resolutions: Resolutions, attached: Claims) {
    forall pair :: pair in resolutions ==>
      && (pair.1.Attached? <==> pair.0.key in attached)
      && (pair.1.Attached? ==> pair.1.root == attached[pair.0.key])
  }

  lemma {:induction false} PassSpeaks(table: Table, tuis: seq<Tui>, stage: Stage, resolutions: Resolutions)
    requires UniqueKeys(tuis) && Sound(table, TuisOf(tuis), stage) && Resolves(table, tuis, stage, resolutions)
    ensures Speak(resolutions, stage.attached) && AttachedRoots(resolutions) == stage.attached.Values
  {
    AttachedExactly(table, tuis, stage, resolutions);
    forall pair | pair in resolutions
      ensures pair.1.Attached? <==> pair.0.key in stage.attached
      ensures pair.1.Attached? ==> pair.1.root == stage.attached[pair.0.key]
    {
      var i :| 0 <= i < |resolutions| && resolutions[i] == pair;
    }
  }

  /** Every row of a rebuild tells the work of its root and who shows it: the TUI that the
      pass attached to the root, or nobody. */
  lemma {:induction false} RowsTell(scene: Scene, table: Table, tuis: seq<Tui>, before: Sticky, after: Sticky,
                                    resolutions: Resolutions, aggregates: seq<Aggregate>, row: Row)
    requires UniqueKeys(tuis) && Rebuilt(scene, table, tuis, before, after, resolutions, aggregates)
    requires row in NewRows(scene, resolutions, aggregates)
    ensures Tells(table, Pass(table, TuisOf(tuis), View(before, scene.instance)), row)
  {
    var view := View(before, scene.instance);
    StagesAreSound(table, TuisOf(tuis), view);
    PassSpeaks(table, tuis, FinalStage(table, TuisOf(tuis), view), resolutions);
    NewRowsTell(scene, table, Pass(table, TuisOf(tuis), view), resolutions, aggregates, row);
  }

  lemma {:induction false} NewRowsTell(scene: Scene, table: Table, attached: Claims, resolutions: Resolutions,
                                       aggregates: seq<Aggregate>, row: Row)
    requires Speak(resolutions, attached) && AttachedRoots(resolutions) == attached.Values
    requires V2AggregatesOf(table, aggregates) && scene.byRoot == ByRoot(aggregates) && Aggregated(scene, resolutions)
    requires row in NewRows(scene, resolutions, aggregates)
    ensures Tells(table, attached, row)
  {
    if row in AttachedRows(scene, resolutions) {
      AttachedRowsMeaning(scene, resolutions, row);
      AttachedTells(scene, table, attached, resolutions, aggregates, row);
    } else if row in HeadlessRows(scene, aggregates, AttachedRoots(resolutions)) {
      HeadlessRowsMeaning(scene, aggregates, AttachedRoots(resolutions), row);
      HeadlessTells(scene, table, attached, aggregates, row);
    } else {
      UnresolvedRowsMeaning(scene.instance, resolutions, row);
    }
  }

  lemma {:induction false} AttachedTells(scene: Scene, table: Table, attached: Claims, resolutions: Resolutions,
                                         aggregates: seq<Aggregate>, row: Row)
    requires Speak(resolutions, attached)
    requires V2AggregatesOf(table, aggregates) && scene.byRoot == ByRoot(aggregates) && Aggregated(scene, resolutions)
    requires FromResolution(scene, resolutions, row)
    ensures Tells(table, attached, row)
  {
    var pair :| pair in resolutions && pair.1.Attached? && row == AsAttached(SceneRow(scene, scene.byRoot[pair.1.root]), pair.0);
    ByRootMeaning(aggregates);
    var a := AggregateAt(aggregates, pair.1.root);
    SceneRowTells(scene, table, a);
  }

  lemma AggregateAt(aggregates: seq<Aggregate>, root: Id) returns (a: Aggregate)
    requires Indexes(ByRoot(aggregates), aggregates) && root in ByRoot(aggregates)
    ensures a in aggregates && a.id == root && ByRoot(aggregates)[root] == a
  {
    assert root in AggregateIds(aggregates);
    a :| a in aggregates && a.id == root;
  }

  lemma HeadlessTells(scene: Scene, table: Table, attached: Claims, aggregates: seq<Aggregate>, row: Row)
    requires V2AggregatesOf(table, aggregates) && FromAggregate(scene, aggregates, attached.Values, row)
    ensures Tells(table, attached, row)
  {
    var a :| a in aggregates && HasWork(a) && a.id !in attached.Values && row == AsHeadless(SceneRow(scene, a));
    SceneRowTells(scene, table, a);
    WorkOfAggregate(table, a);
  }

  // ---------- the busy clock across a rebuild ----------

  /** Two rows that count alike. */
  predicate SameClock(left: Row, right: Row) {
    && left.busy == right.busy && left.stale == right.stale && left.frozen == right.frozen
    && left.lastNonBusy == right.lastNonBusy && left.firstBusyObserved == right.firstBusyObserved
  }

  lemma {:induction false} AttachedRowShown(scene: Scene, resolutions: Resolutions, pair: (Tui, Resolution))
    requires Aggregated(scene, resolutions) && pair in resolutions && pair.1.Attached?
    ensures AsAttached(SceneRow(scene, scene.byRoot[pair.1.root]), pair.0) in AttachedRows(scene, resolutions)
  {
    var n := |resolutions| - 1;
    PrefixAggregated(scene, resolutions, n);
    if pair != resolutions[n] {
      assert pair in resolutions[..n];
      AttachedRowShown(scene, resolutions[..n], pair);
    }
  }

  lemma {:induction false} HeadlessRowShown(scene: Scene, aggregates: seq<Aggregate>, attached: set<Id>, a: Aggregate)
    requires a in aggregates && HasWork(a) && a.id !in attached
    ensures AsHeadless(SceneRow(scene, a)) in HeadlessRows(scene, aggregates, attached)
  {
    var n := |aggregates| - 1;
    if a != aggregates[n] {
      assert a in aggregates[..n];
      HeadlessRowShown(scene, aggregates[..n], attached, a);
    }
  }

  /** A working root with a row keeps one through a rebuild, connected or not, and its busy
      clock meets the rebuild as `Freezing.Meet` says. */
  lemma {:induction false} RebuildMeets(scene: Scene, table: Table, resolutions: Resolutions, aggregates: seq<Aggregate>,
                                        a: Aggregate, row: Row)
    requires V2AggregatesOf(table, aggregates) && scene.byRoot == ByRoot(aggregates) && Aggregated(scene, resolutions)
    requires a in aggregates && a.busy && Lookup(scene.previous, a.id) == Some(row)
    ensures exists shown :: shown in NewRows(scene, resolutions, aggregates) && shown.id == SessionRow(a.id)
              && SameClock(shown, Freezing.Meet(row, Freezing.Rebuilt(a), scene.now))
  {
    var kept := SceneRow(scene, a);
    if a.id in AttachedRoots(resolutions) {
      var pair :| pair in resolutions && pair.1.Attached? && pair.1.root == a.id;
      ByRootMeaning(aggregates);
      AttachedRowShown(scene, resolutions, pair);
      assert SameClock(AsAttached(kept, pair.0), Updated(row, a, scene.now));
      assert AsAttached(kept, pair.0) in NewRows(scene, resolutions, aggregates);
    } else {
      HeadlessRowShown(scene, aggregates, AttachedRoots(resolutions), a);
      assert SameClock(AsHeadless(kept), Updated(row, a, scene.now));
      assert AsHeadless(kept) in NewRows(scene, resolutions, aggregates);
    }
  }

  lemma StepAggregates(aggregates: seq<Aggregate>, i: nat)
    requires SortedById(aggregates) && i < |aggregates|
    ensures aggregates[..i + 1][..i] == aggregates[..i]
    ensures AggregateIds(aggregates[..i + 1]) == AggregateIds(aggregates[..i]) + {aggregates[i].id}
    ensures aggregates[i].id !in AggregateIds(aggregates[..i])
  {
  }
}
