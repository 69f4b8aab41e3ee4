/** Which roots a v1 report puts on display, since when they count and what they occur as, in
    terms of the sessions reported. */
module Presence {
  import opened Wrappers
  import opened Ordering
  import opened Sessions
  import opened Aggregates
  import opened Matching
  import opened Rows
  import opened Clock

  /** The root works on something in the foreground. */
  predicate Works(table: Table, root: Id) {
    root in table && (table[root].status == Busy || table[root].status == Retry)
  }

  /** Question `q` is pending somewhere in the tree of `root`. */
  ghost predicate AsksIn(table: Table, root: Id, q: Id) {
    exists id :: id in table && RootOf(table, id) == root && q in table[id].questions
  }

  ghost predicate WaitsIn(table: Table, root: Id, p: Id) {
    exists id :: id in table && RootOf(table, id) == root && p in table[id].permissions
  }

  ghost predicate Asks(table: Table, root: Id) {
    exists q: Id :: AsksIn(table, root, q)
  }

  ghost predicate Waits(table: Table, root: Id) {
    exists p: Id :: WaitsIn(table, root, p)
  }

  /** The aggregate of `root` in these terms. */
  ghost predicate Speaks(table: Table, root: Id, a: Aggregate) {
    && root in table && a.title == table[root].title && a.slug == table[root].slug
    && (a.busy <==> Works(table, root)) && (a.retry <==> table[root].status == Retry)
    && StrictlyIncreasing(a.questions) && (forall q: Id :: q in a.questions <==> AsksIn(table, root, q))
    && StrictlyIncreasing(a.permissions) && (forall p: Id :: p in a.permissions <==> WaitsIn(table, root, p))
  }

  lemma AggregateSpeaks(table: Table, a: Aggregate)
    requires Describes(table, a)
    ensures Speaks(table, a.id, a)
  {
    forall q: Id ensures q in a.questions <==> AsksIn(table, a.id, q) {
      assert q in a.questions <==> q in QuestionsOf(table, table.Keys, a.id);
    }
    forall p: Id ensures p in a.permissions <==> WaitsIn(table, a.id, p) {
      assert p in a.permissions <==> p in PermissionsOf(table, table.Keys, a.id);
    }
  }

  lemma NothingPending(table: Table, root: Id, a: Aggregate)
    requires Speaks(table, root, a)
    ensures a.questions != [] <==> Asks(table, root)
    ensures a.permissions != [] <==> Waits(table, root)
  {
    if a.questions != [] {
      assert AsksIn(table, root, a.questions[0]);
    }
    if a.permissions != [] {
      assert WaitsIn(table, root, a.permissions[0]);
    }
  }

  /** A question comes before a permission, and either before everything else. A root that
      rests with nothing pending occurs as ready. */
  ghost predicate OccursAs(table: Table, root: Id, row: Row) {
    if Asks(table, root) then
      exists ids :: row.Occurs() == Some(Question(ids)) && StrictlyIncreasing(ids) && forall q: Id :: q in ids <==> AsksIn(table, root, q)
    else if Waits(table, root) then
      exists ids :: row.Occurs() == Some(Permission(ids)) && StrictlyIncreasing(ids) && forall p: Id :: p in ids <==> WaitsIn(table, root, p)
    else if Works(table, root) then row.Occurs() == None
    else row.readyEligible && row.background == 0 && row.category != Ambiguous && row.category != UnresolvedRow ==>
           row.Occurs() == Some(Ready(row.readyGeneration))
  }

  lemma RowOccurs(table: Table, root: Id, a: Aggregate, row: Row)
    requires Speaks(table, root, a) && row.questions == a.questions && row.permissions == a.permissions && row.busy == a.busy
    ensures OccursAs(table, root, row)
  {
    NothingPending(table, root, a);
  }

  /** What a report does to the row of a listed root that no attention waits for. */
  ghost predicate ShownAs(table: Table, root: Id, before: Option<Row>, seen: Option<Instant>, after: Option<Row>, now: Instant) {
    && (after.Some? <==> before.Some? || Works(table, root) || Asks(table, root) || Waits(table, root))
    && (after.Some? ==>
          && OccursAs(table, root, after.value) && !after.value.stale && after.value.background == 0
          && (after.value.busy <==> Works(table, root))
          && root in table && (after.value.retry <==> table[root].status == Retry)
          && after.value.title == Named(table[root].title) && after.value.slug == table[root].slug)
    && (after.Some? && before.Some? ==>
          && after.value.category == before.value.category && after.value.readyEligible == before.value.readyEligible
          && after.value.readyGeneration == before.value.readyGeneration
          && after.value.dismissed == if !Works(table, root) && after.value.Occurs() == before.value.Occurs() then before.value.dismissed else None)
    && (after.Some? && before.None? ==>
          && after.value.category == V1 && after.value.readyEligible && after.value.dismissed == None
          && (Works(table, root) ==> forall later: Instant :: now <= later ==>
                after.value.BusyElapsed(later) == Some(Since(later, if seen.Some? then seen.value else now))))
  }

  /** The roots on display after a report: those that had a row, that work, or in whose tree
      a question or a permission is pending. A new row counts since the root was last seen
      idle, or else from now. */
  lemma ReportShows(instance: Instance, table: Table, listed: seq<Aggregate>, pending: set<Key>, before: map<Key, Row>,
                    seen: map<Key, Instant>, after: map<Key, Row>, now: Instant, root: Id)
    requires AggregatesOf(table, listed) && ReportedRows(instance, table, listed, pending, before, seen, after, now)
    requires root in Roots(table) && (instance, root) !in pending
    requires forall a :: a in listed ==> a.background == 0
    ensures ShownAs(table, root, At(before, (instance, root)), At(seen, (instance, root)), At(after, (instance, root)), now)
  {
    var key: Key := (instance, root);
    assert ReportedAs(instance, table, listed, key in pending, key, At(before, key), At(seen, key), At(after, key), now);
    var a :| a in listed && a.id == root && At(after, key) == Freshened(AggregateRow(instance, At(before, key), a, At(seen, key), now), now);
    AggregateSpeaks(table, a);
    RowShown(instance, table, a, At(before, key), At(seen, key), At(after, key), now);
  }

  lemma RowShown(instance: Instance, table: Table, a: Aggregate, before: Option<Row>, seen: Option<Instant>, after: Option<Row>, now: Instant)
    requires Speaks(table, a.id, a) && a.background == 0 && after == Freshened(AggregateRow(instance, before, a, seen, now), now)
    ensures ShownAs(table, a.id, before, seen, after, now)
  {
    NothingPending(table, a.id, a);
    if after.Some? {
      RowOccurs(table, a.id, a, after.value);
    }
  }

  /** The idle sighting of such a root: this report, unless the root works. */
  lemma ReportSights(instance: Instance, table: Table, listed: seq<Aggregate>, pending: set<Key>, before: map<Key, Instant>,
                     after: map<Key, Instant>, now: Instant, root: Id)
    requires AggregatesOf(table, listed) && Sighted(instance, table, listed, pending, before, after, now)
    requires root in Roots(table) && (instance, root) !in pending
    ensures At(after, (instance, root)) == if Works(table, root) then At(before, (instance, root)) else Some(now)
  {
    var key: Key := (instance, root);
    assert SightedAs(instance, table, listed, key in pending, key, At(before, key), At(after, key), now);
    var a :| a in listed && a.id == root && At(after, key) == SeenIdle(At(before, key), a, now);
    AggregateSpeaks(table, a);
  }

  /** A session that is no root any more loses its row and its sighting; the rows of other
      servers are not concerned. */
  lemma ReportForgets(instance: Instance, table: Table, listed: seq<Aggregate>, pending: set<Key>, before: map<Key, Row>,
                      seen: map<Key, Instant>, after: map<Key, Row>, seenAfter: map<Key, Instant>, now: Instant, key: Key)
    requires ReportedRows(instance, table, listed, pending, before, seen, after, now)
    requires Sighted(instance, table, listed, pending, seen, seenAfter, now)
    requires key !in pending && (forall id :: id in table ==> (instance, RootOf(table, id)) != key)
    ensures key.0 == instance ==> key !in after && key !in seenAfter
    ensures key.0 != instance ==> At(after, key) == At(before, key) && At(seenAfter, key) == At(seen, key)
  {
    assert ReportedAs(instance, table, listed, key in pending, key, At(before, key), At(seen, key), At(after, key), now);
    assert SightedAs(instance, table, listed, key in pending, key, At(seen, key), At(seenAfter, key), now);
  }

  // ---------- ready attentions ----------

  /** A waiting attention of a listed session is delivered by the report. */
  lemma ReportDelivers(instance: Instance, table: Table, listed: seq<Aggregate>, connected: set<Instance>, pending: set<Key>,
                       before: map<Key, Row>, seen: map<Key, Instant>, after: map<Key, Row>, now: Instant, root: Id)
    requires AggregatesOf(table, listed) && ReportedRows(instance, table, listed, pending, before, seen, after, now)
    requires root in table && (instance, root) in pending && forall a :: a in listed ==> a.background == 0
    requires (instance, root) in before ==> RowOk((instance, root), before[(instance, root)], connected, now)
    requires (instance, root) in seen ==> seen[(instance, root)] <= now
    ensures (instance, root) in after && IsReady(after[(instance, root)], now) && !after[(instance, root)].stale
    ensures root in Roots(table) ==>
      && (after[(instance, root)].questions != [] <==> Asks(table, root))
      && (after[(instance, root)].permissions != [] <==> Waits(table, root))
  {
    var key: Key := (instance, root);
    assert ReportedAs(instance, table, listed, key in pending, key, At(before, key), At(seen, key), At(after, key), now);
    FirstReady(instance, table[root], now);
    if root in Roots(table) {
      var a :| a in listed && a.id == root &&
        At(after, key) == Freshened(Readied(instance, AggregateRow(instance, At(before, key), a, At(seen, key), now), table, root, now), now);
      AggregateSpeaks(table, a);
      DeliveredRow(key, table, a, connected, At(before, key), At(seen, key), At(after, key), now);
    }
  }

  lemma DeliveredRow(key: Key, table: Table, a: Aggregate, connected: set<Instance>, before: Option<Row>, seen: Option<Instant>,
                     after: Option<Row>, now: Instant)
    requires key.1 == a.id && a.id in table && a.background == 0 && Speaks(table, a.id, a)
    requires before.Some? ==> RowOk(key, before.value, connected, now)
    requires seen.Some? ==> seen.value <= now
    requires after == Freshened(Readied(key.0, AggregateRow(key.0, before, a, seen, now), table, a.id, now), now)
    ensures after.Some? && IsReady(after.value, now) && !after.value.stale
    ensures (after.value.questions != [] <==> Asks(table, a.id)) && (after.value.permissions != [] <==> Waits(table, a.id))
  {
    NothingPending(table, a.id, a);
  }
}
