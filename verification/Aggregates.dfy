/** Per-root aggregation of sessions: foreground and background work and the pending
    requests of a whole session tree. */
module Aggregates {
  import opened Ordering
  import opened Sessions

  datatype Aggregate = Aggregate(
    id: Id,
    title: string,
    slug: string,
    busy: bool,
    retry: bool,
    background: nat,
    questions: seq<Id>,
    permissions: seq<Id>)

  function Roots(table: Table): set<Id> {
    set id | id in table :: RootOf(table, id)
  }

  /** The sessions below `root` among those with an id in `ids`. */
  function Members(table: Table, ids: set<Id>, root: Id): set<Id> {
    set id | id in ids && id in table && RootOf(table, id) == root
  }

  /** Working sessions below `root`, the root itself excluded. */
  function Background(table: Table, ids: set<Id>, root: Id): set<Id> {
    set id | id in ids && id in table && RootOf(table, id) == root && id != root && Working(table[id])
  }

  function QuestionsOf(table: Table, ids: set<Id>, root: Id): set<Id> {
    set id, q | id in Members(table, ids, root) && q in table[id].questions :: q
  }

  function PermissionsOf(table: Table, ids: set<Id>, root: Id): set<Id> {
    set id, p | id in Members(table, ids, root) && p in table[id].permissions :: p
  }

  function Ids(sessions: seq<Session>): set<Id> {
    set session | session in sessions :: session.id
  }

  /** What `aggregate` must be for its root, `background` aside. */
  ghost predicate Describes(table: Table, aggregate: Aggregate) {
    && aggregate.id in Roots(table)
    && aggregate.id in table
    && aggregate.title == table[aggregate.id].title
    && aggregate.slug == table[aggregate.id].slug
    && aggregate.busy == Working(table[aggregate.id])
    && aggregate.retry == table[aggregate.id].status.Retry?
    && StrictlyIncreasing(aggregate.questions)
    && Elements(aggregate.questions) == QuestionsOf(table, table.Keys, aggregate.id)
    && StrictlyIncreasing(aggregate.permissions)
    && Elements(aggregate.permissions) == PermissionsOf(table, table.Keys, aggregate.id)
  }

  ghost predicate SortedById(aggregates: seq<Aggregate>) {
    forall i, j :: 0 <= i < j < |aggregates| ==> aggregates[i].id < aggregates[j].id
  }

  /** One aggregate for each root, in id order. */
  ghost predicate AggregatesOf(table: Table, aggregates: seq<Aggregate>) {
    && SortedById(aggregates)
    && (forall a :: a in aggregates ==> Describes(table, a))
    && (forall root :: root in Roots(table) ==> exists a :: a in aggregates && a.id == root)
  }

  ghost predicate V2AggregatesOf(table: Table, aggregates: seq<Aggregate>) {
    && AggregatesOf(table, aggregates)
    && forall a :: a in aggregates ==> a.background == |Background(table, table.Keys, a.id)|
  }

  // ---------- aggregate_roots ----------

  /** The entry of `root` after the sessions with an id in `ids`. */
  ghost predicate Entry(table: Table, ids: set<Id>, root: Id, a: Aggregate) {
    && a.id == root && root in table
    && a.title == table[root].title && a.slug == table[root].slug
    && a.busy == Working(table[root]) && a.retry == table[root].status.Retry?
    && a.background == 0
    && Elements(a.questions) == QuestionsOf(table, ids, root)
    && Elements(a.permissions) == PermissionsOf(table, ids, root)
  }

  ghost predicate Entries(table: Table, ids: set<Id>, entries: map<Id, Aggregate>) {
    && entries.Keys == (set id | id in ids && id in table :: RootOf(table, id))
    && forall root :: root in entries ==> Entry(table, ids, root, entries[root])
  }

  lemma MembersGrow(table: Table, ids: set<Id>, session: Session, root: Id)
    requires session.id in table && table[session.id] == session
    ensures QuestionsOf(table, ids + {session.id}, root) ==
            QuestionsOf(table, ids, root) + if RootOf(table, session.id) == root then Elements(session.questions) else {}
    ensures PermissionsOf(table, ids + {session.id}, root) ==
            PermissionsOf(table, ids, root) + if RootOf(table, session.id) == root then Elements(session.permissions) else {}
  {
  }

  lemma NoMembers(table: Table, ids: set<Id>, root: Id)
    requires root !in (set id | id in ids && id in table :: RootOf(table, id))
    ensures QuestionsOf(table, ids, root) == {} && PermissionsOf(table, ids, root) == {}
  {
  }

  /** The entry that `session` finds or inserts, extended with its requests. */
  function Extend(table: Table, entries: map<Id, Aggregate>, session: Session): (a: Aggregate)
    requires session.id in table && table[session.id] == session
  {
    var rootId := RootOf(table, session.id);
    var root := if rootId in table then table[rootId] else session;
    var a := if rootId in entries then entries[rootId]
             else Aggregate(rootId, root.title, root.slug, Working(root), root.status.Retry?, 0, [], []);
    a.(questions := a.questions + session.questions, permissions := a.permissions + session.permissions)
  }

  lemma ExtendKeepsEntries(table: Table, ids: set<Id>, entries: map<Id, Aggregate>, session: Session)
    requires session.id in table && table[session.id] == session
    requires Entries(table, ids, entries)
    ensures Entries(table, ids + {session.id}, entries[RootOf(table, session.id) := Extend(table, entries, session)])
  {
    var root := RootOf(table, session.id);
    RootIsIdempotent(table, session.id);
    var a := Extend(table, entries, session);
    var after := entries[root := a];
    var all := ids + {session.id};
    assert after.Keys == (set id | id in all && id in table :: RootOf(table, id)) by {
      assert forall id :: id in all ==> id in ids || id == session.id;
    }
    forall r | r in after ensures Entry(table, all, r, after[r]) {
      MembersGrow(table, ids, session, r);
      if r == root {
        if root !in entries {
          NoMembers(table, ids, root);
        }
        var entry := if root in entries then entries[root] else a.(questions := [], permissions := []);
        ElementsConcat(entry.questions, session.questions);
        ElementsConcat(entry.permissions, session.permissions);
      } else {
        assert Entry(table, ids, r, entries[r]);
      }
    }
  }

  method SortKeys(keys: set<Id>) returns (sorted: seq<Id>)
    ensures StrictlyIncreasing(sorted) && Elements(sorted) == keys
  {
    sorted := [];
    var rest := keys;
    while rest != {}
      invariant rest <= keys
      invariant StrictlyIncreasing(sorted) && Elements(sorted) == keys - rest
      decreases rest
    {
      var key :| key in rest;
      assert key !in Elements(sorted);
      InsertStrict(sorted, key);
      InsertElements(sorted, key);
      sorted := Insert(sorted, key);
      rest := rest - {key};
    }
  }

  lemma PrefixIds(sessions: seq<Session>, i: nat)
    requires i < |sessions|
    ensures Ids(sessions[..i + 1]) == Ids(sessions[..i]) + {sessions[i].id}
  {
  }

  lemma AllIds(sessions: seq<Session>)
    requires UniqueIds(sessions)
    ensures Ids(sessions) == TableOf(sessions).Keys
  {
    TableHoldsSessions(sessions);
  }

  /** `aggregate_roots`. */
  method AggregateRoots(sessions: seq<Session>) returns (aggregates: seq<Aggregate>)
    requires UniqueIds(sessions)
    ensures AggregatesOf(TableOf(sessions), aggregates)
    ensures forall a :: a in aggregates ==> a.background == 0
  {
    var table := IndexById(sessions);
    TableHoldsSessions(sessions);
    var entries: map<Id, Aggregate> := map[];
    for i := 0 to |sessions|
      invariant Entries(table, Ids(sessions[..i]), entries)
    {
      assert sessions[i] in sessions;
      var rootId := ResolveRoot(sessions[i], table);
      ExtendKeepsEntries(table, Ids(sessions[..i]), entries, sessions[i]);
      PrefixIds(sessions, i);
      entries := entries[rootId := Extend(table, entries, sessions[i])];
    }
    assert sessions[..|sessions|] == sessions;
    AllIds(sessions);
    aggregates := Finish(table, entries);
  }

  /** Lists the entries in id order, with their requests sorted and without repeats. */
  method Finish(table: Table, entries: map<Id, Aggregate>) returns (aggregates: seq<Aggregate>)
    requires Entries(table, table.Keys, entries)
    ensures AggregatesOf(table, aggregates)
    ensures forall a :: a in aggregates ==> a.background == 0
  {
    assert entries.Keys == Roots(table);
    var keys := SortKeys(entries.Keys);
    aggregates := [];
    for i := 0 to |keys|
      invariant |aggregates| == i
      invariant forall k :: 0 <= k < i ==> Finished(table, keys[k], aggregates[k])
    {
      assert keys[i] in Elements(keys);
      var a := entries[keys[i]];
      assert Entry(table, table.Keys, keys[i], a);
      SortDedupMeaning(a.questions);
      SortDedupMeaning(a.permissions);
      aggregates := aggregates + [a.(questions := Dedup(Sort(a.questions)), permissions := Dedup(Sort(a.permissions)))];
    }
    FinishedAll(table, keys, aggregates);
  }

  ghost predicate Finished(table: Table, key: Id, a: Aggregate) {
    a.id == key && a.background == 0 && Describes(table, a)
  }

  lemma FinishedAll(table: Table, keys: seq<Id>, aggregates: seq<Aggregate>)
    requires StrictlyIncreasing(keys) && Elements(keys) == Roots(table) && |aggregates| == |keys|
    requires forall k :: 0 <= k < |keys| ==> Finished(table, keys[k], aggregates[k])
    ensures AggregatesOf(table, aggregates)
    ensures forall a :: a in aggregates ==> a.background == 0
  {
  }

  // ---------- aggregate_v2_roots ----------

  lemma BackgroundGrows(table: Table, ids: set<Id>, session: Session, root: Id)
    requires session.id in table && table[session.id] == session && session.id !in ids
    ensures |Background(table, ids + {session.id}, root)| ==
            |Background(table, ids, root)| +
            if Working(session) && RootOf(table, session.id) == root && session.id != root then 1 else 0
  {
    var before := Background(table, ids, root);
    var after := Background(table, ids + {session.id}, root);
    if Working(session) && RootOf(table, session.id) == root && session.id != root {
      assert after == before + {session.id};
    } else {
      assert after == before;
    }
  }

  ghost predicate BackgroundCounted(table: Table, ids: set<Id>, base: seq<Aggregate>, aggregates: seq<Aggregate>) {
    && |aggregates| == |base|
    && forall k :: 0 <= k < |base| ==>
         aggregates[k] == base[k].(background := |Background(table, ids, base[k].id)|)
  }

  /** `session` counts for its root, unless it is that root or does not work. */
  ghost predicate CountsFor(table: Table, session: Session, before: Aggregate, after: Aggregate)
    requires session.id in table
  {
    after == before.(background := before.background +
      if Working(session) && RootOf(table, session.id) == before.id && session.id != before.id then 1 else 0)
  }

  lemma CountedOne(table: Table, ids: set<Id>, session: Session, base: seq<Aggregate>, before: seq<Aggregate>, after: seq<Aggregate>)
    requires session.id in table && table[session.id] == session && session.id !in ids
    requires BackgroundCounted(table, ids, base, before)
    requires |after| == |before| && forall k :: 0 <= k < |before| ==> CountsFor(table, session, before[k], after[k])
    ensures BackgroundCounted(table, ids + {session.id}, base, after)
  {
    forall k | 0 <= k < |base|
      ensures after[k] == base[k].(background := |Background(table, ids + {session.id}, base[k].id)|)
    {
      BackgroundGrows(table, ids, session, base[k].id);
      assert CountsFor(table, session, before[k], after[k]);
    }
  }

  /** A working session counts in the background of its root, unless it is that root. */
  method CountSession(table: Table, ghost ids: set<Id>, session: Session, ghost base: seq<Aggregate>, aggregates: seq<Aggregate>)
    returns (after: seq<Aggregate>)
    requires session.id in table && table[session.id] == session && session.id !in ids && Working(session)
    requires SortedById(aggregates) && BackgroundCounted(table, ids, base, aggregates)
    ensures SortedById(after) && BackgroundCounted(table, ids + {session.id}, base, after)
  {
    var rootId := ResolveRoot(session, table);
    after := aggregates;
    if session.id != rootId {
      after := CountBackground(aggregates, rootId);
    }
    CountedOne(table, ids, session, base, aggregates, after);
  }

  /** `aggregate_v2_roots`. */
  method AggregateV2Roots(sessions: seq<Session>) returns (aggregates: seq<Aggregate>)
    requires UniqueIds(sessions)
    ensures V2AggregatesOf(TableOf(sessions), aggregates)
  {
    var table := IndexById(sessions);
    TableHoldsSessions(sessions);
    aggregates := AggregateRoots(sessions);
    ghost var base := aggregates;
    var counted: set<Id> := {};
    for i := 0 to |sessions|
      invariant counted <= Ids(sessions[..i])
      invariant BackgroundCounted(table, Ids(sessions[..i]), base, aggregates)
    {
      var session := sessions[i];
      assert session in sessions;
      PrefixIds(sessions, i);
      assert session.id !in Ids(sessions[..i]);
      if Working(session) && session.id !in counted {
        counted := counted + {session.id};
        aggregates := CountSession(table, Ids(sessions[..i]), session, base, aggregates);
      } else {
        CountedOne(table, Ids(sessions[..i]), session, base, aggregates, aggregates);
      }
    }
    assert sessions[..|sessions|] == sessions;
    AllIds(sessions);
    CountedAggregates(table, base, aggregates);
  }

  /** Counts one more background session for the aggregate of `root`, if there is one. */
  method CountBackground(aggregates: seq<Aggregate>, root: Id) returns (after: seq<Aggregate>)
    requires SortedById(aggregates)
    ensures |after| == |aggregates|
    ensures forall k :: 0 <= k < |aggregates| ==>
              after[k] == aggregates[k].(background := aggregates[k].background + if aggregates[k].id == root then 1 else 0)
  {
    after := aggregates;
    for index := 0 to |aggregates|
      invariant after == aggregates
      invariant forall k :: 0 <= k < index ==> aggregates[k].id != root
    {
      if aggregates[index].id == root {
        return aggregates[index := aggregates[index].(background := aggregates[index].background + 1)];
      }
    }
  }

  lemma CountedAggregates(table: Table, base: seq<Aggregate>, aggregates: seq<Aggregate>)
    requires AggregatesOf(table, base) && BackgroundCounted(table, table.Keys, base, aggregates)
    ensures V2AggregatesOf(table, aggregates)
  {
    forall a | a in aggregates
      ensures Describes(table, a) && a.background == |Background(table, table.Keys, a.id)|
    {
      var k :| 0 <= k < |aggregates| && aggregates[k] == a;
      assert base[k] in base;
    }
    forall root | root in Roots(table) ensures exists a :: a in aggregates && a.id == root {
      var b :| b in base && b.id == root;
      var k :| 0 <= k < |base| && base[k] == b;
      assert aggregates[k] in aggregates;
    }
  }

  // ---------- conservation ----------

  function BusyCount(aggregates: seq<Aggregate>): nat {
    if aggregates == [] then 0
    else (if aggregates[0].busy then 1 else 0) + BusyCount(aggregates[1..])
  }

  function BackgroundSum(aggregates: seq<Aggregate>): nat {
    if aggregates == [] then 0
    else aggregates[0].background + BackgroundSum(aggregates[1..])
  }

  function AggregateIds(aggregates: seq<Aggregate>): set<Id> {
    set a | a in aggregates :: a.id
  }

  /** The working sessions below some of the roots. */
  function WorkBelow(table: Table, roots: set<Id>): set<Id> {
    set id | id in table && Working(table[id]) && RootOf(table, id) in roots
  }

  lemma WorkOfRoot(table: Table, roots: set<Id>, root: Id)
    requires root in Roots(table) && root in table && root !in roots
    ensures |WorkBelow(table, {root} + roots)| ==
            (if Working(table[root]) then 1 else 0) + |Background(table, table.Keys, root)| + |WorkBelow(table, roots)|
  {
    var id :| id in table && RootOf(table, id) == root;
    RootIsIdempotent(table, id);
    var own: set<Id> := if Working(table[root]) then {root} else {};
    var behind := Background(table, table.Keys, root);
    var others := WorkBelow(table, roots);
    WorkSplits(table, roots, root, own, behind, others);
    DisjointSizes(own, behind, others);
  }

  lemma WorkSplits(table: Table, roots: set<Id>, root: Id, own: set<Id>, behind: set<Id>, others: set<Id>)
    requires root in table && RootOf(table, root) == root && root !in roots
    requires own == (if Working(table[root]) then {root} else {})
    requires behind == Background(table, table.Keys, root) && others == WorkBelow(table, roots)
    ensures WorkBelow(table, {root} + roots) == own + behind + others
    ensures own !! behind && own !! others && behind !! others
  {
  }

  lemma DisjointSizes(a: set<Id>, b: set<Id>, c: set<Id>)
    requires a !! b && a !! c && b !! c
    ensures |a + b + c| == |a| + |b| + |c|
  {
  }

  lemma {:induction false} WorkIsConserved(table: Table, aggregates: seq<Aggregate>)
    requires SortedById(aggregates)
    requires forall a :: a in aggregates ==>
      Describes(table, a) && a.background == |Background(table, table.Keys, a.id)|
    ensures BusyCount(aggregates) + BackgroundSum(aggregates) == |WorkBelow(table, AggregateIds(aggregates))|
  {
    if aggregates == [] {
      assert WorkBelow(table, AggregateIds(aggregates)) == {};
    } else {
      var first, rest := aggregates[0], aggregates[1..];
      assert first in aggregates && forall a :: a in rest ==> a in aggregates;
      WorkIsConserved(table, rest);
      assert forall a :: a in aggregates <==> a == first || a in rest;
      assert AggregateIds(aggregates) == {first.id} + AggregateIds(rest);
      WorkOfRoot(table, AggregateIds(rest), first.id);
    }
  }

  lemma EveryRootAggregated(table: Table, aggregates: seq<Aggregate>)
    requires AggregatesOf(table, aggregates)
    ensures AggregateIds(aggregates) == Roots(table)
  {
  }

  /** No work is lost or counted twice: the busy roots and the background counts add up
      to the busy and retrying sessions. */
  lemma AggregationConservesWork(table: Table, aggregates: seq<Aggregate>)
    requires V2AggregatesOf(table, aggregates)
    ensures BusyCount(aggregates) + BackgroundSum(aggregates) == |set id | id in table && Working(table[id])|
  {
    WorkIsConserved(table, aggregates);
    EveryRootAggregated(table, aggregates);
    assert WorkBelow(table, Roots(table)) == set id | id in table && Working(table[id]);
  }

  function IdsOf(aggregates: seq<Aggregate>): (ids: seq<Id>)
    ensures |ids| == |aggregates| && forall i :: 0 <= i < |ids| ==> ids[i] == aggregates[i].id
  {
    seq(|aggregates|, i requires 0 <= i < |aggregates| => aggregates[i].id)
  }

  lemma IdListed(table: Table, left: seq<Aggregate>, right: seq<Aggregate>, id: Id)
    requires AggregatesOf(table, left) && AggregatesOf(table, right) && id in IdsOf(left)
    ensures id in IdsOf(right)
  {
    var i :| 0 <= i < |left| && IdsOf(left)[i] == id;
    assert left[i] in left;
    var a :| a in right && a.id == id;
    var j :| 0 <= j < |right| && right[j] == a;
    assert IdsOf(right)[j] == id;
  }

  /** The aggregates do not depend on the order of the session list. */
  lemma AggregatesUnique(table: Table, left: seq<Aggregate>, right: seq<Aggregate>)
    requires V2AggregatesOf(table, left) && V2AggregatesOf(table, right)
    ensures left == right
  {
    var l, r := IdsOf(left), IdsOf(right);
    forall id ensures id in l <==> id in r {
      if id in l {
        IdListed(table, left, right, id);
      }
      if id in r {
        IdListed(table, right, left, id);
      }
    }
    assert Elements(l) == Elements(r);
    StrictlyIncreasingUnique(l, r);
    assert |left| == |right|;
    forall i | 0 <= i < |left| ensures left[i] == right[i] {
      assert l[i] == r[i];
      assert left[i] in left && right[i] in right;
      StrictlyIncreasingUnique(left[i].questions, right[i].questions);
      StrictlyIncreasingUnique(left[i].permissions, right[i].permissions);
    }
  }
}
