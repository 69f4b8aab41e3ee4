/** How one TUI is resolved from the session list: its location roots are collected, sorted
    and freed of repeats, and ranked by their last update. The sort is unstable, so equal
    ranks may come in any order. */
module Locating {
  import opened Wrappers
  import opened Ordering
  import opened Sessions
  import opened Aggregates
  import opened Matching

  lemma {:induction false} StrictSize(s: seq<nat>)
    requires StrictlyIncreasing(s)
    ensures |Elements(s)| == |s|
  {
    if s == [] {
      assert Elements(s) == {};
    } else {
      StrictSize(s[1..]);
      TailElements(s);
      assert s[0] in Elements(s);
    }
  }

  lemma ListedInTable(sessions: seq<Session>)
    requires UniqueIds(sessions)
    ensures forall session :: session in sessions <==> session.id in TableOf(sessions) && TableOf(sessions)[session.id] == session
    ensures forall id :: id in TableOf(sessions) ==> TableOf(sessions)[id] in sessions
  {
    TableHoldsSessions(sessions);
  }

  /** The roots of the sessions in a list that `chosen` selects. */
  ghost function RootsOfListed(table: Table, sessions: seq<Session>, chosen: Session -> bool): set<Id> {
    set session | session in sessions && session.id in table && chosen(session) :: RootOf(table, session.id)
  }

  lemma OneMoreListed(table: Table, sessions: seq<Session>, i: nat, chosen: Session -> bool)
    requires i < |sessions| && sessions[i].id in table
    ensures RootsOfListed(table, sessions[..i + 1], chosen) ==
            RootsOfListed(table, sessions[..i], chosen) + if chosen(sessions[i]) then {RootOf(table, sessions[i].id)} else {}
  {
  }

  /** `tui_location_roots`. */
  method TuiLocationRoots(tui: Tui, sessions: seq<Session>, table: Table) returns (roots: seq<Id>)
    requires UniqueIds(sessions) && table == TableOf(sessions)
    ensures StrictlyIncreasing(roots) && Elements(roots) == LocationRoots(table, tui)
  {
    var startup: Option<Path> := None;
    if tui.startup.Some? {
      startup := Some(JoinPath(tui.cwd, tui.startup.value));
    }
    var collected: seq<Id> := [];
    ghost var chosen := (session: Session) => SessionAt(session, tui);
    for i := 0 to |sessions|
      invariant Elements(collected) == RootsOfListed(table, sessions[..i], chosen)
    {
      var more := RootIfLocated(tui, startup, sessions, i, table, chosen);
      ElementsConcat(collected, more);
      collected := collected + more;
    }
    assert sessions[..|sessions|] == sessions;
    LocatedRoots(table, sessions, tui);
    SortDedupMeaning(collected);
    roots := Dedup(Sort(collected));
  }

  /** The body of the loop over the sessions. */
  method RootIfLocated(tui: Tui, startup: Option<Path>, sessions: seq<Session>, i: nat, table: Table, ghost chosen: Session -> bool)
    returns (more: seq<Id>)
    requires UniqueIds(sessions) && table == TableOf(sessions) && i < |sessions|
    requires startup == if tui.startup.Some? then Some(JoinPath(tui.cwd, tui.startup.value)) else None
    requires chosen(sessions[i]) == SessionAt(sessions[i], tui)
    ensures RootsOfListed(table, sessions[..i + 1], chosen) == RootsOfListed(table, sessions[..i], chosen) + Elements(more)
  {
    var session := sessions[i];
    ListedInTable(sessions);
    assert session in sessions;
    OneMoreListed(table, sessions, i, chosen);
    if LocationMatches(session, tui.cwd) || (startup.Some? && LocationMatches(session, startup.value)) {
      var root := ResolveRoot(session, table);
      return [root];
    }
    return [];
  }

  lemma LocatedRoots(table: Table, sessions: seq<Session>, tui: Tui)
    requires UniqueIds(sessions) && table == TableOf(sessions)
    ensures RootsOfListed(table, sessions, (session: Session) => SessionAt(session, tui)) == LocationRoots(table, tui)
  {
    ListedInTable(sessions);
  }

  // ---------- ranking ----------

  datatype Ranked = Ranked(root: Id, active: bool, updated: Option<nat>)

  /** `None` comes before every update, as in Rust's order of options. */
  predicate Earlier(left: Option<nat>, right: Option<nat>) {
    right.Some? && (left.None? || left.value < right.value)
  }

  /** `updated` is the latest update below `root` among the sessions with an id in `ids`. */
  ghost predicate Latest(table: Table, ids: set<Id>, root: Id, updated: Option<nat>) {
    && (updated.Some? ==> exists id :: id in ids && id in table && RootOf(table, id) == root && table[id].updated == updated)
    && (forall id :: id in ids && id in table && RootOf(table, id) == root ==> !Earlier(updated, table[id].updated))
  }

  ghost predicate Describes(table: Table, root: Id, entry: Ranked) {
    && entry.root == root
    && (entry.active <==> root in ActiveRoots(table))
    && Latest(table, table.Keys, root, entry.updated)
  }

  ghost predicate ActiveBelow(table: Table, ids: set<Id>, root: Id) {
    exists id :: id in ids && id in table && RootOf(table, id) == root && Working(table[id])
  }

  /** What is known of `root` after the sessions with an id in `ids`. */
  ghost predicate RankedSoFar(table: Table, ids: set<Id>, root: Id, entry: Ranked) {
    entry.root == root && (entry.active <==> ActiveBelow(table, ids, root)) && Latest(table, ids, root, entry.updated)
  }

  function RankMore(entry: Ranked, below: bool, session: Session): Ranked {
    if below then
      Ranked(entry.root, entry.active || Working(session),
             if Earlier(entry.updated, session.updated) then session.updated else entry.updated)
    else entry
  }

  lemma RankedOneMore(table: Table, ids: set<Id>, root: Id, entry: Ranked, session: Session)
    requires session.id in table && table[session.id] == session && RankedSoFar(table, ids, root, entry)
    ensures RankedSoFar(table, ids + {session.id}, root, RankMore(entry, RootOf(table, session.id) == root, session))
  {
  }

  /** One candidate's rank: whether anything below it works, and its latest update. */
  method RankOne(root: Id, sessions: seq<Session>, table: Table) returns (entry: Ranked)
    requires UniqueIds(sessions) && table == TableOf(sessions)
    ensures Describes(table, root, entry)
  {
    ListedInTable(sessions);
    entry := Ranked(root, false, None);
    for i := 0 to |sessions|
      invariant RankedSoFar(table, Ids(sessions[..i]), root, entry)
    {
      var session := sessions[i];
      assert session in sessions;
      var of := ResolveRoot(session, table);
      RankedOneMore(table, Ids(sessions[..i]), root, entry, session);
      PrefixIds(sessions, i);
      entry := RankMore(entry, of == root, session);
    }
    assert sessions[..|sessions|] == sessions;
    AllIds(sessions);
    RankedWhole(table, root, entry);
  }

  lemma RankedWhole(table: Table, root: Id, entry: Ranked)
    requires RankedSoFar(table, table.Keys, root, entry)
    ensures Describes(table, root, entry)
  {
  }

  /** No entry comes before one that was updated later. */
  predicate ByUpdate(ranked: seq<Ranked>) {
    forall i, j :: 0 <= i < j < |ranked| ==> !Earlier(ranked[i].updated, ranked[j].updated)
  }

  /** The unstable sort by latest update, latest first: some permutation in that order. */
  method SortByUpdate(ranked: seq<Ranked>) returns (sorted: seq<Ranked>)
    ensures multiset(sorted) == multiset(ranked) && ByUpdate(sorted)
  {
    sorted := [];
    for i := 0 to |ranked|
      invariant multiset(sorted) == multiset(ranked[..i]) && ByUpdate(sorted)
    {
      assert ranked[..i + 1] == ranked[..i] + [ranked[i]];
      sorted := InsertByUpdate(sorted, ranked[i]);
    }
    assert ranked[..|ranked|] == ranked;
  }

  method InsertByUpdate(sorted: seq<Ranked>, entry: Ranked) returns (after: seq<Ranked>)
    requires ByUpdate(sorted)
    ensures multiset(after) == multiset(sorted) + multiset{entry} && ByUpdate(after)
  {
    var i := 0;
    while i < |sorted| && !Earlier(sorted[i].updated, entry.updated)
      invariant i <= |sorted|
      invariant forall j :: 0 <= j < i ==> !Earlier(sorted[j].updated, entry.updated)
    {
      i := i + 1;
    }
    after := Splice(sorted, i, entry);
  }

  method Splice(sorted: seq<Ranked>, i: nat, entry: Ranked) returns (after: seq<Ranked>)
    requires ByUpdate(sorted) && i <= |sorted|
    requires forall j :: 0 <= j < i ==> !Earlier(sorted[j].updated, entry.updated)
    requires i < |sorted| ==> Earlier(sorted[i].updated, entry.updated)
    ensures multiset(after) == multiset(sorted) + multiset{entry} && ByUpdate(after)
  {
    var front, back := sorted[..i], sorted[i..];
    assert sorted == front + back;
    forall j | 0 <= j < |back| ensures !Earlier(entry.updated, back[j].updated) {
      assert back[j] == sorted[i + j];
    }
    BetweenByUpdate(front, entry, back);
    after := front + [entry] + back;
  }

  lemma BetweenByUpdate(front: seq<Ranked>, entry: Ranked, back: seq<Ranked>)
    requires ByUpdate(front + back)
    requires forall j :: 0 <= j < |front| ==> !Earlier(front[j].updated, entry.updated)
    requires forall j :: 0 <= j < |back| ==> !Earlier(entry.updated, back[j].updated)
    ensures ByUpdate(front + [entry] + back)
  {
    var all, after := front + back, front + [entry] + back;
    forall i, j | 0 <= i < j < |after| ensures !Earlier(after[i].updated, after[j].updated) {
      var p := if i < |front| then i else i - 1;
      var q := if j < |front| then j else j - 1;
      if i != |front| && j != |front| {
        assert after[i] == all[p] && after[j] == all[q];
      } else if i == |front| {
        assert after[j] == back[j - |front| - 1];
      } else {
        assert after[i] == front[i];
      }
    }
  }

  /** The first entry, if it was updated strictly later than the second. */
  method FirstIfAlone(ranked: seq<Ranked>) returns (newest: Option<Id>)
    ensures newest.Some? <==> ranked != [] && ranked[0].updated.Some? && (|ranked| > 1 ==> Earlier(ranked[1].updated, ranked[0].updated))
    ensures newest.Some? ==> newest.value == ranked[0].root
  {
    if ranked != [] && ranked[0].updated.Some? && (|ranked| == 1 || Earlier(ranked[1].updated, ranked[0].updated)) {
      return Some(ranked[0].root);
    }
    return None;
  }

  /** The candidates of `roots`, ranked. */
  ghost predicate Ranks(table: Table, roots: seq<Id>, ranked: seq<Ranked>) {
    |ranked| == |roots| && forall i :: 0 <= i < |roots| ==> Describes(table, roots[i], ranked[i])
  }

  method RankAll(roots: seq<Id>, sessions: seq<Session>, table: Table) returns (ranked: seq<Ranked>)
    requires UniqueIds(sessions) && table == TableOf(sessions)
    ensures Ranks(table, roots, ranked)
  {
    ranked := [];
    for i := 0 to |roots|
      invariant Ranks(table, roots[..i], ranked)
    {
      var entry := RankOne(roots[i], sessions, table);
      ranked := ranked + [entry];
    }
    assert roots[..|roots|] == roots;
  }

  lemma EarlierMeansAfter(table: Table, root: Id, other: Id, entry: Ranked, otherEntry: Ranked)
    requires Describes(table, root, entry) && Describes(table, other, otherEntry)
    ensures Earlier(otherEntry.updated, entry.updated) <==> UpdatedAfter(table, root, other)
  {
  }

  predicate EntryOf(ranked: seq<Ranked>, root: Id) {
    exists i :: 0 <= i < |ranked| && ranked[i].root == root
  }

  /** One entry for each of `roots`, in whatever order. */
  ghost predicate RanksSet(table: Table, roots: set<Id>, ranked: seq<Ranked>) {
    && (forall i :: 0 <= i < |ranked| ==> ranked[i].root in roots && Describes(table, ranked[i].root, ranked[i]))
    && (forall root :: root in roots ==> EntryOf(ranked, root))
    && (forall i, j :: 0 <= i < j < |ranked| ==> ranked[i].root != ranked[j].root)
  }

  lemma {:induction false} RanksAsSet(table: Table, roots: seq<Id>, ranked: seq<Ranked>)
    requires StrictlyIncreasing(roots) && Ranks(table, roots, ranked)
    ensures RanksSet(table, Elements(roots), ranked)
  {
  }

  lemma PermutedRanks(table: Table, roots: set<Id>, ranked: seq<Ranked>, sorted: seq<Ranked>)
    requires RanksSet(table, roots, ranked) && multiset(sorted) == multiset(ranked)
    ensures RanksSet(table, roots, sorted)
  {
    forall i | 0 <= i < |sorted| ensures sorted[i].root in roots && Describes(table, sorted[i].root, sorted[i]) {
      var k := IndexIn(sorted, ranked, i);
    }
    forall root | root in roots ensures EntryOf(sorted, root) {
      assert EntryOf(ranked, root);
      var i :| 0 <= i < |ranked| && ranked[i].root == root;
      var k := IndexIn(ranked, sorted, i);
    }
    forall i, j | 0 <= i < j < |sorted| ensures sorted[i].root != sorted[j].root {
      var k := IndexIn(sorted, ranked, i);
      var l := IndexIn(sorted, ranked, j);
      CountedOnce(ranked, k);
      CountedOnce(sorted, i);
      assert forall m :: 0 <= m < |ranked| && ranked[m] == ranked[k] ==> m == k;
      assert sorted[i] != sorted[j];
    }
  }

  lemma IndexIn<T>(from: seq<T>, to: seq<T>, i: nat) returns (k: nat)
    requires i < |from| && multiset(from) == multiset(to)
    ensures k < |to| && to[k] == from[i]
  {
    assert from[i] in multiset(to);
    k :| 0 <= k < |to| && to[k] == from[i];
  }

  lemma FirstIsNewest(table: Table, roots: set<Id>, sorted: seq<Ranked>)
    requires RanksSet(table, roots, sorted) && ByUpdate(sorted) && sorted != [] && sorted[0].updated.Some?
    requires |sorted| > 1 ==> Earlier(sorted[1].updated, sorted[0].updated)
    ensures IsNewest(table, roots, sorted[0].root)
  {
    forall other | other in roots && other != sorted[0].root ensures UpdatedAfter(table, sorted[0].root, other) {
      assert EntryOf(sorted, other);
      var k :| 0 <= k < |sorted| && sorted[k].root == other;
      assert k > 1 ==> !Earlier(sorted[1].updated, sorted[k].updated);
      EarlierMeansAfter(table, sorted[0].root, other, sorted[0], sorted[k]);
    }
  }

  lemma NewestIsFirst(table: Table, roots: set<Id>, sorted: seq<Ranked>, root: Id)
    requires RanksSet(table, roots, sorted) && ByUpdate(sorted) && IsNewest(table, roots, root)
    ensures sorted != [] && sorted[0].root == root && sorted[0].updated.Some?
    ensures |sorted| > 1 ==> Earlier(sorted[1].updated, sorted[0].updated)
  {
  }

  /** Whatever order ties end up in, the test of the first two entries finds the newest
      root, or that there is none. */
  method NewestByRank(table: Table, roots: seq<Id>, ranked: seq<Ranked>) returns (newest: Option<Id>)
    requires StrictlyIncreasing(roots) && Ranks(table, roots, ranked)
    ensures newest == NewestRoot(table, Elements(roots))
  {
    var sorted := SortByUpdate(ranked);
    RanksAsSet(table, roots, ranked);
    PermutedRanks(table, Elements(roots), ranked, sorted);
    newest := FirstIfAlone(sorted);
    if newest.Some? {
      FirstIsNewest(table, Elements(roots), sorted);
    }
    NewestAgrees(table, Elements(roots), sorted, newest);
  }

  lemma NewestAgrees(table: Table, roots: set<Id>, sorted: seq<Ranked>, newest: Option<Id>)
    requires RanksSet(table, roots, sorted) && ByUpdate(sorted)
    requires newest.Some? ==> IsNewest(table, roots, newest.value)
    requires newest.None? ==>
      sorted == [] || sorted[0].updated.None? || (|sorted| > 1 && !Earlier(sorted[1].updated, sorted[0].updated))
    ensures newest == NewestRoot(table, roots)
  {
    var expected := NewestRoot(table, roots);
    if expected.Some? {
      NewestIsFirst(table, roots, sorted, expected.value);
      if newest.Some? {
        NewestUnique(table, roots, newest.value, expected.value);
      }
    }
  }

  /** How many candidates work, and one of them. */
  method ActiveCandidates(table: Table, roots: seq<Id>, ranked: seq<Ranked>) returns (active: seq<Id>)
    requires StrictlyIncreasing(roots) && Ranks(table, roots, ranked)
    ensures StrictlyIncreasing(active) && Elements(active) == Elements(roots) * ActiveRoots(table)
  {
    active := [];
    for i := 0 to |ranked|
      invariant StrictlyIncreasing(active) && Elements(active) == Elements(roots[..i]) * ActiveRoots(table)
    {
      assert Describes(table, roots[i], ranked[i]);
      assert roots[..i + 1] == roots[..i] + [roots[i]];
      ElementsConcat(roots[..i], [roots[i]]);
      if ranked[i].active {
        ElementsConcat(active, [roots[i]]);
        AppendLarger(active, roots, i);
        active := active + [ranked[i].root];
      }
    }
    assert roots[..|roots|] == roots;
  }

  lemma AppendLarger(active: seq<Id>, roots: seq<Id>, i: nat)
    requires StrictlyIncreasing(active) && StrictlyIncreasing(roots) && i < |roots|
    requires Elements(active) <= Elements(roots[..i])
    ensures StrictlyIncreasing(active + [roots[i]])
  {
    forall j | 0 <= j < |active| ensures active[j] < roots[i] {
      assert active[j] in Elements(active);
      assert active[j] in roots[..i];
      var k :| 0 <= k < i && roots[k] == active[j];
    }
  }

  lemma OnlyElement(s: seq<Id>)
    requires StrictlyIncreasing(s)
    ensures |Elements(s)| == |s|
    ensures |s| == 1 ==> Only(Elements(s)) == s[0]
    ensures s == [] <==> Elements(s) == {}
  {
    StrictSize(s);
    assert s != [] ==> s[0] in Elements(s);
  }

  /** `resolve_tui`, as it runs over the session list. */
  method ResolveTuiFrom(tui: Tui, sessions: seq<Session>, table: Table) returns (resolution: Resolution)
    requires UniqueIds(sessions) && table == TableOf(sessions)
    ensures resolution == ResolveTui(table, tui)
  {
    if tui.explicitSession.Some? {
      var explicit := tui.explicitSession.value;
      if explicit !in table {
        return Unresolved(false, None);
      }
      var root := ResolveRoot(table[explicit], table);
      return Attached(root);
    }
    var roots := TuiLocationRoots(tui, sessions, table);
    OnlyElement(roots);
    if |roots| == 1 {
      return Attached(roots[0]);
    }
    if roots == [] {
      return Unresolved(false, None);
    }
    resolution := ResolveAmong(tui, roots, sessions, table);
  }

  /** The choice between several candidates. */
  method ResolveAmong(tui: Tui, roots: seq<Id>, sessions: seq<Session>, table: Table) returns (resolution: Resolution)
    requires UniqueIds(sessions) && table == TableOf(sessions)
    requires StrictlyIncreasing(roots) && Elements(roots) == LocationRoots(table, tui) && |roots| > 1
    requires tui.explicitSession.None?
    ensures resolution == ResolveTui(table, tui)
  {
    OnlyElement(roots);
    var ranked := RankAll(roots, sessions, table);
    if tui.continueSession {
      var newest := NewestByRank(table, roots, ranked);
      if newest.Some? {
        return Attached(newest.value);
      }
    }
    var active := ActiveCandidates(table, roots, ranked);
    OnlyElement(active);
    var hint: Option<Id>;
    if |active| == 1 {
      hint := Some(active[0]);
    } else {
      hint := NewestByRank(table, roots, ranked);
    }
    return Unresolved(true, hint);
  }

  // ---------- the sets that every pass starts from ----------

  /** The roots of all sessions, and those with work below them. */
  method CollectRoots(sessions: seq<Session>, table: Table) returns (roots: set<Id>, active: set<Id>)
    requires UniqueIds(sessions) && table == TableOf(sessions)
    ensures roots == Roots(table) && active == ActiveRoots(table)
  {
    roots, active := {}, {};
    for i := 0 to |sessions|
      invariant roots == RootsOfListed(table, sessions[..i], (session: Session) => true)
      invariant active == RootsOfListed(table, sessions[..i], (session: Session) => Working(session))
    {
      var session := sessions[i];
      CollectedOneMore(table, sessions, i);
      var root := ResolveRoot(session, table);
      roots := roots + {root};
      if Working(session) {
        active := active + {root};
      }
    }
    assert sessions[..|sessions|] == sessions;
    AllCollected(table, sessions);
  }

  lemma CollectedOneMore(table: Table, sessions: seq<Session>, i: nat)
    requires UniqueIds(sessions) && table == TableOf(sessions) && i < |sessions|
    ensures sessions[i].id in table && table[sessions[i].id] == sessions[i]
    ensures var root := RootOf(table, sessions[i].id);
      && RootsOfListed(table, sessions[..i + 1], (session: Session) => true) ==
         RootsOfListed(table, sessions[..i], (session: Session) => true) + {root}
      && RootsOfListed(table, sessions[..i + 1], (session: Session) => Working(session)) ==
         RootsOfListed(table, sessions[..i], (session: Session) => Working(session)) + if Working(sessions[i]) then {root} else {}
  {
    ListedInTable(sessions);
    assert sessions[i] in sessions;
    OneMoreListed(table, sessions, i, (session: Session) => true);
    OneMoreListed(table, sessions, i, (session: Session) => Working(session));
  }

  lemma AllCollected(table: Table, sessions: seq<Session>)
    requires UniqueIds(sessions) && table == TableOf(sessions)
    ensures RootsOfListed(table, sessions, (session: Session) => true) == Roots(table)
    ensures RootsOfListed(table, sessions, (session: Session) => Working(session)) == ActiveRoots(table)
  {
    ListedInTable(sessions);
  }
}
