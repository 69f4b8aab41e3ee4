/** `resolve_tuis` as it runs: a list of match entries, the used roots and the sticky
    attachments are updated in place, phase by phase. */
module Matcher {
  import opened Wrappers
  import opened Ordering
  import opened Sessions
  import opened Aggregates
  import opened Matching
  import opened Locating

  type Sticky = map<(Instance, TuiKey), Id>

  datatype TuiMatch = TuiMatch(
    tui: Tui,
    locationRoots: seq<Id>,
    fallback: Resolution,
    resolution: Option<Resolution>,
    blocked: bool)

  predicate UniqueKeys(tuis: seq<Tui>) {
    forall i, j :: 0 <= i < j < |tuis| ==> tuis[i].key != tuis[j].key
  }

  function TuisOf(tuis: seq<Tui>): Tuis {
    if tuis == [] then map[]
    else
      var last := tuis[|tuis| - 1];
      TuisOf(tuis[..|tuis| - 1])[last.key := last]
  }

  lemma {:induction false} TuisOfMeaning(tuis: seq<Tui>)
    requires UniqueKeys(tuis)
    ensures forall tui :: tui in tuis <==> tui.key in TuisOf(tuis) && TuisOf(tuis)[tui.key] == tui
    ensures |TuisOf(tuis)| == |tuis|
  {
    if tuis != [] {
      var init, last := tuis[..|tuis| - 1], tuis[|tuis| - 1];
      assert tuis == init + [last];
      TuisOfMeaning(init);
      assert forall tui :: tui in init ==> tui.key != last.key;
    }
  }

  /** The sticky entries of one instance. */
  ghost function View(sticky: Sticky, instance: Instance): (view: Claims)
    ensures forall key :: key in view <==> (instance, key) in sticky
    ensures forall key :: key in view ==> view[key] == sticky[(instance, key)]
  {
    map key | key in (set pair | pair in sticky && pair.0 == instance :: pair.1) :: sticky[(instance, key)]
  }

  type Claim = (nat, Id)

  function RootsOf(claims: seq<Claim>): seq<Id> {
    seq(|claims|, i requires 0 <= i < |claims| => claims[i].1)
  }

  /** How often each root is claimed. */
  method CountRoots(claims: seq<Claim>) returns (counts: map<Id, nat>)
    ensures Counts(claims, counts)
  {
    counts := map[];
    ghost var roots := RootsOf(claims);
    for i := 0 to |claims|
      invariant forall root :: root in counts <==> root in roots[..i]
      invariant forall root :: root in counts ==> counts[root] == multiset(roots[..i])[root]
    {
      var root := claims[i].1;
      assert roots[..i + 1] == roots[..i] + [root];
      counts := counts[root := (if root in counts then counts[root] else 0) + 1];
    }
    assert roots[..|roots|] == roots;
    assert forall a :: 0 <= a < |claims| ==> roots[a] == claims[a].1;
  }

  ghost predicate Counts(claims: seq<Claim>, counts: map<Id, nat>) {
    forall a :: 0 <= a < |claims| ==>
      claims[a].1 in counts && counts[claims[a].1] == multiset(RootsOf(claims))[claims[a].1]
  }

  // ---------- how the entries represent a stage ----------

  predicate Shape(table: Table, tuis: seq<Tui>, matches: seq<TuiMatch>) {
    |matches| == |tuis| &&
    forall i :: 0 <= i < |tuis| ==>
      && matches[i].tui == tuis[i]
      && Elements(matches[i].locationRoots) == LocationRoots(table, tuis[i])
      && matches[i].fallback == ResolveTui(table, tuis[i])
  }

  predicate Unmatched(table: Table, tui: Tui, entry: TuiMatch) {
    && entry.tui == tui && entry.fallback == ResolveTui(table, tui) && entry.resolution.None? && !entry.blocked
    && Elements(entry.locationRoots) == LocationRoots(table, tui)
  }

  predicate EntryAt(table: Table, stage: Stage, entry: TuiMatch) {
    && entry.resolution ==
       (if entry.tui.key in Resolved(stage) then Some(ResolutionIn(stage, entry.tui.key)) else None)
    && (entry.blocked ==> entry.tui.key in Resolved(stage) || OwnClaim(table, entry.tui).Some?)
  }

  predicate Represents(table: Table, matches: seq<TuiMatch>, used: set<Id>, stage: Stage) {
    && (forall i :: 0 <= i < |matches| ==> EntryAt(table, stage, matches[i]))
    && used == stage.attached.Values
  }

  predicate OwnClaimsResolved(table: Table, tuis: seq<Tui>, stage: Stage) {
    forall tui :: tui in tuis && OwnClaim(table, tui).Some? ==> tui.key in Resolved(stage)
  }

  ghost predicate StickyAt(sticky: Sticky, base: Sticky, instance: Instance, stage: Stage) {
    forall owner: Instance, key: TuiKey ::
      if owner == instance && key in Resolved(stage) then
        && ((owner, key) in sticky <==> key in stage.attached)
        && ((owner, key) in sticky ==> sticky[(owner, key)] == stage.attached[key])
      else
        && ((owner, key) in sticky <==> (owner, key) in base)
        && ((owner, key) in sticky ==> sticky[(owner, key)] == base[(owner, key)])
  }

  /** `claims` lists, by entry index, the claims of the map `cm`. */
  ghost predicate Lists(tuis: seq<Tui>, claims: seq<Claim>, cm: Claims) {
    && (forall a :: 0 <= a < |claims| ==> claims[a].0 < |tuis|)
    && (forall a, b :: 0 <= a < b < |claims| ==> claims[a].0 < claims[b].0)
    && (forall a :: 0 <= a < |claims| ==>
          var key := tuis[claims[a].0].key; key in cm && cm[key] == claims[a].1)
    && (forall key :: key in cm ==> exists a :: 0 <= a < |claims| && tuis[claims[a].0].key == key)
  }

  predicate DistinctKeys(matches: seq<TuiMatch>) {
    forall i, j :: 0 <= i < j < |matches| ==> matches[i].tui.key != matches[j].tui.key
  }

  /** A claim wins if and only if its root is counted once and was not used before. */
  lemma WinsByCount(tuis: seq<Tui>, claims: seq<Claim>, cm: Claims, used: set<Id>, a: nat)
    requires UniqueKeys(tuis) && Lists(tuis, claims, cm) && a < |claims|
    ensures var key := tuis[claims[a].0].key;
      Wins(cm, used, key) <==> multiset(RootsOf(claims))[claims[a].1] == 1 && claims[a].1 !in used
  {
    CountedOnce(RootsOf(claims), a);
    var key := tuis[claims[a].0].key;
    if multiset(RootsOf(claims))[claims[a].1] == 1 {
      forall other | other in cm && cm[other] == cm[key] ensures other == key {
        var b :| 0 <= b < |claims| && tuis[claims[b].0].key == other;
        assert RootsOf(claims)[b] == RootsOf(claims)[a];
      }
    }
    if Wins(cm, used, key) {
      forall b | 0 <= b < |claims| && RootsOf(claims)[b] == RootsOf(claims)[a] ensures b == a {
        assert tuis[claims[b].0].key == key;
      }
    }
  }

  /** The stage after the claims of the keys in `done`. */
  ghost predicate Partly(before: Stage, cm: Claims, done: set<TuiKey>, stage: Stage) {
    && stage.missing == before.missing
    && stage.attached == before.attached + (Won(cm, before.attached.Values) - (cm.Keys - done))
    && stage.refused == before.refused + (Lost(cm, before.attached.Values) - (cm.Keys - done))
  }

  function AddResolution(stage: Stage, key: TuiKey, root: Id, wins: bool): Stage {
    if wins then stage.(attached := stage.attached[key := root]) else stage.(refused := stage.refused[key := root])
  }

  lemma RestoreKey(m: Claims, hidden: set<TuiKey>, key: TuiKey)
    requires key in hidden
    ensures key in m ==> m - (hidden - {key}) == (m - hidden)[key := m[key]]
    ensures key !in m ==> m - (hidden - {key}) == m - hidden
  {
  }

  lemma UpdateSum(a: Claims, b: Claims, key: TuiKey, root: Id)
    ensures a + b[key := root] == (a + b)[key := root]
  {
  }

  lemma WonOrLost(cm: Claims, used: set<Id>, key: TuiKey)
    requires key in cm
    ensures if Wins(cm, used, key) then key in Won(cm, used) && key !in Lost(cm, used)
            else key !in Won(cm, used) && key in Lost(cm, used)
    ensures key in Won(cm, used) ==> Won(cm, used)[key] == cm[key]
    ensures key in Lost(cm, used) ==> Lost(cm, used)[key] == cm[key]
  {
  }

  lemma PartlyStep(before: Stage, cm: Claims, done: set<TuiKey>, stage: Stage, key: TuiKey)
    requires Partly(before, cm, done, stage) && key in cm && key !in done
    ensures Partly(before, cm, done + {key}, AddResolution(stage, key, cm[key], Wins(cm, before.attached.Values, key)))
  {
    var used := before.attached.Values;
    var hidden := cm.Keys - done;
    assert cm.Keys - (done + {key}) == hidden - {key};
    WonOrLost(cm, used, key);
    RestoreKey(Won(cm, used), hidden, key);
    RestoreKey(Lost(cm, used), hidden, key);
    UpdateSum(before.attached, Won(cm, used) - hidden, key, cm[key]);
    UpdateSum(before.refused, Lost(cm, used) - hidden, key, cm[key]);
  }

  lemma PartlyDone(before: Stage, cm: Claims, done: set<TuiKey>, stage: Stage)
    requires Partly(before, cm, done, stage) && cm.Keys <= done
    ensures stage == Settle(before, cm)
  {
    assert cm.Keys - done == {};
    assert Won(cm, before.attached.Values) - {} == Won(cm, before.attached.Values);
    assert Lost(cm, before.attached.Values) - {} == Lost(cm, before.attached.Values);
  }

  lemma PartlyNone(before: Stage, cm: Claims)
    ensures Partly(before, cm, {}, before)
  {
  }

  /** A root claimed only once was not used by the claims handled before. */
  lemma PartlyUsed(before: Stage, cm: Claims, done: set<TuiKey>, stage: Stage, key: TuiKey)
    requires Partly(before, cm, done, stage) && key in cm && key !in done
    requires cm.Keys !! Resolved(before)
    requires forall other :: other in cm && cm[other] == cm[key] ==> other == key
    ensures cm[key] in stage.attached.Values <==> cm[key] in before.attached.Values
  {
  }

  lemma AddMeaning(stage: Stage, key: TuiKey, root: Id, wins: bool)
    requires key !in Resolved(stage)
    ensures var after := AddResolution(stage, key, root, wins);
      && Resolved(after) == Resolved(stage) + {key}
      && ResolutionIn(after, key) == (if wins then Attached(root) else Unresolved(true, Some(root)))
      && (forall k :: k in Resolved(stage) ==> ResolutionIn(after, k) == ResolutionIn(stage, k))
      && after.attached.Values == stage.attached.Values + if wins then {root} else {}
  {
  }

  /** After one more resolution, the entries still represent the stage. */
  lemma EntriesStep(table: Table, matches: seq<TuiMatch>, stage: Stage, index: nat, root: Id, wins: bool, after: seq<TuiMatch>)
    requires index < |matches| && DistinctKeys(matches) && matches[index].tui.key !in Resolved(stage)
    requires forall i :: 0 <= i < |matches| ==> EntryAt(table, stage, matches[i])
    requires |after| == |matches|
    requires forall i :: 0 <= i < |matches| && i != index ==> after[i] == matches[i]
    requires after[index].tui == matches[index].tui
    requires after[index].resolution == Some(if wins then Attached(root) else Unresolved(true, Some(root)))
    ensures var stage' := AddResolution(stage, matches[index].tui.key, root, wins);
      forall i :: 0 <= i < |after| ==> EntryAt(table, stage', after[i])
  {
  }

  lemma StickyStep(sticky: Sticky, base: Sticky, instance: Instance, stage: Stage, key: TuiKey, root: Id, wins: bool)
    requires StickyAt(sticky, base, instance, stage) && key !in Resolved(stage)
    ensures StickyAt(if wins then sticky[(instance, key) := root] else sticky - {(instance, key)},
                     base, instance, AddResolution(stage, key, root, wins))
  {
  }

  /** One more resolution, recorded in the entries, the used roots and the sticky map. */
  lemma RecordStep(table: Table, tuis: seq<Tui>, matches: seq<TuiMatch>, used: set<Id>, sticky: Sticky, base: Sticky,
                   instance: Instance, stage: Stage, index: nat, root: Id, wins: bool,
                   matches': seq<TuiMatch>, used': set<Id>, sticky': Sticky)
    requires Shape(table, tuis, matches) && UniqueKeys(tuis)
    requires Represents(table, matches, used, stage) && StickyAt(sticky, base, instance, stage)
    requires index < |matches| && matches[index].tui.key !in Resolved(stage)
    requires matches' == matches[index :=
      if wins then matches[index].(resolution := Some(Attached(root)))
      else matches[index].(blocked := true, resolution := Some(Unresolved(true, Some(root))))]
    requires used' == used + if wins then {root} else {}
    requires var pair := (instance, matches[index].tui.key);
      sticky' == if wins then sticky[pair := root] else sticky - {pair}
    ensures var after := AddResolution(stage, matches[index].tui.key, root, wins);
      Shape(table, tuis, matches') && Represents(table, matches', used', after) && StickyAt(sticky', base, instance, after)
  {
    var key := matches[index].tui.key;
    AddMeaning(stage, key, root, wins);
    StickyStep(sticky, base, instance, stage, key, root, wins);
    EntriesStep(table, matches, stage, index, root, wins, matches');
  }

  /** The keys of the first `a` claims. */
  ghost function DoneKeys(tuis: seq<Tui>, claims: seq<Claim>, a: nat): set<TuiKey>
    requires a <= |claims| && forall b :: 0 <= b < |claims| ==> claims[b].0 < |tuis|
  {
    if a == 0 then {} else DoneKeys(tuis, claims, a - 1) + {tuis[claims[a - 1].0].key}
  }

  lemma {:induction false} DoneMembers(tuis: seq<Tui>, claims: seq<Claim>, a: nat, key: TuiKey)
    requires a <= |claims| && forall b :: 0 <= b < |claims| ==> claims[b].0 < |tuis|
    ensures key in DoneKeys(tuis, claims, a) <==> exists b :: 0 <= b < a && tuis[claims[b].0].key == key
  {
    if a > 0 {
      DoneMembers(tuis, claims, a - 1, key);
    }
  }

  lemma DoneMeaning(tuis: seq<Tui>, claims: seq<Claim>, cm: Claims, a: nat)
    requires Lists(tuis, claims, cm) && a <= |claims|
    ensures DoneKeys(tuis, claims, a) <= cm.Keys
    ensures a == |claims| ==> DoneKeys(tuis, claims, a) == cm.Keys
  {
    forall key ensures key in DoneKeys(tuis, claims, a) ==> key in cm
      ensures a == |claims| && key in cm ==> key in DoneKeys(tuis, claims, a)
    {
      DoneMembers(tuis, claims, a, key);
    }
  }

  lemma PartlyResolved(before: Stage, cm: Claims, done: set<TuiKey>, stage: Stage)
    requires Partly(before, cm, done, stage) && done <= cm.Keys
    ensures Resolved(stage) == Resolved(before) + done
  {
  }

  lemma NextIsNew(tuis: seq<Tui>, claims: seq<Claim>, cm: Claims, a: nat)
    requires UniqueKeys(tuis) && Lists(tuis, claims, cm) && a < |claims|
    ensures tuis[claims[a].0].key !in DoneKeys(tuis, claims, a)
  {
    DoneMembers(tuis, claims, a, tuis[claims[a].0].key);
    assert forall b :: 0 <= b < a ==> claims[b].0 < claims[a].0;
  }

  /** The test of one claim decides as `Wins` does, and its effect is the next partial stage. */
  lemma ClaimStep(tuis: seq<Tui>, claims: seq<Claim>, cm: Claims, before: Stage, stage: Stage, a: nat)
    requires UniqueKeys(tuis) && Lists(tuis, claims, cm) && cm.Keys !! Resolved(before) && a < |claims|
    requires Partly(before, cm, DoneKeys(tuis, claims, a), stage)
    ensures var key, root := tuis[claims[a].0].key, claims[a].1;
      var wins := multiset(RootsOf(claims))[root] == 1 && root !in stage.attached.Values;
      && key !in Resolved(stage)
      && Partly(before, cm, DoneKeys(tuis, claims, a + 1), AddResolution(stage, key, root, wins))
  {
    var key, root := tuis[claims[a].0].key, claims[a].1;
    var done := DoneKeys(tuis, claims, a);
    NextIsNew(tuis, claims, cm, a);
    DoneMeaning(tuis, claims, cm, a);
    PartlyResolved(before, cm, done, stage);
    WinsByCount(tuis, claims, cm, before.attached.Values, a);
    if multiset(RootsOf(claims))[root] == 1 {
      CountedAlone(tuis, claims, cm, a);
      PartlyUsed(before, cm, done, stage, key);
    }
    PartlyStep(before, cm, done, stage, key);
  }

  // ---------- collecting claims ----------

  /** `claims` lists the claims of `cm` made by the first `n` TUIs. */
  ghost predicate ListsUpTo(tuis: seq<Tui>, claims: seq<Claim>, cm: Claims, n: nat)
    requires n <= |tuis|
  {
    && (forall a :: 0 <= a < |claims| ==> claims[a].0 < n)
    && (forall a, b :: 0 <= a < b < |claims| ==> claims[a].0 < claims[b].0)
    && (forall a :: 0 <= a < |claims| ==> tuis[claims[a].0].key in cm && cm[tuis[claims[a].0].key] == claims[a].1)
    && (forall i :: 0 <= i < n && tuis[i].key in cm ==> ListsIndex(claims, i))
  }

  predicate ListsIndex(claims: seq<Claim>, i: int) {
    exists a :: 0 <= a < |claims| && claims[a].0 == i
  }

  lemma ListsPush(tuis: seq<Tui>, claims: seq<Claim>, cm: Claims, n: nat, after: seq<Claim>)
    requires n < |tuis| && ListsUpTo(tuis, claims, cm, n)
    requires after == if tuis[n].key in cm then claims + [(n, cm[tuis[n].key])] else claims
    ensures ListsUpTo(tuis, after, cm, n + 1)
  {
    forall i | 0 <= i < n + 1 && tuis[i].key in cm ensures ListsIndex(after, i) {
      if i < n {
        assert ListsIndex(claims, i);
        var a :| 0 <= a < |claims| && claims[a].0 == i;
        assert after[a].0 == i;
      } else {
        assert after[|claims|].0 == n;
      }
    }
  }

  lemma ListsAll(tuis: seq<Tui>, claims: seq<Claim>, cm: Claims)
    requires UniqueKeys(tuis) && ListsUpTo(tuis, claims, cm, |tuis|) && cm.Keys <= TuisOf(tuis).Keys
    ensures Lists(tuis, claims, cm)
  {
    TuisOfMeaning(tuis);
    forall key | key in cm ensures exists a :: 0 <= a < |claims| && tuis[claims[a].0].key == key {
      assert TuisOf(tuis)[key] in tuis;
      var i :| 0 <= i < |tuis| && tuis[i] == TuisOf(tuis)[key];
      assert ListsIndex(claims, i);
      var a :| 0 <= a < |claims| && claims[a].0 == i;
      assert tuis[claims[a].0].key == key;
    }
  }

  lemma TuiAt(tuis: seq<Tui>, i: nat)
    requires UniqueKeys(tuis) && i < |tuis|
    ensures tuis[i].key in TuisOf(tuis) && TuisOf(tuis)[tuis[i].key] == tuis[i]
  {
    TuisOfMeaning(tuis);
  }

  // ---------- counting candidates ----------

  /** How many of the candidate sets hold `root`. */
  function RootCount(byTui: seq<set<Id>>, root: Id): nat {
    if byTui == [] then 0
    else RootCount(byTui[..|byTui| - 1], root) + if root in byTui[|byTui| - 1] then 1 else 0
  }

  lemma {:induction false} RootCountPositive(byTui: seq<set<Id>>, root: Id)
    ensures RootCount(byTui, root) > 0 <==> exists i :: 0 <= i < |byTui| && root in byTui[i]
  {
    if byTui != [] {
      var init := byTui[..|byTui| - 1];
      RootCountPositive(init, root);
      assert forall i :: 0 <= i < |init| ==> init[i] == byTui[i];
    }
  }

  lemma {:induction false} RootCountOne(byTui: seq<set<Id>>, root: Id, i: nat)
    requires i < |byTui| && root in byTui[i]
    ensures RootCount(byTui, root) == 1 <==> forall j :: 0 <= j < |byTui| && j != i ==> root !in byTui[j]
  {
    var n := |byTui| - 1;
    var init := byTui[..n];
    assert forall j :: 0 <= j < n ==> init[j] == byTui[j];
    RootCountPositive(init, root);
    if i < n {
      RootCountOne(init, root, i);
      assert init[i] == byTui[i];
    }
  }

  ghost predicate RootCounts(byTui: seq<set<Id>>, counts: map<Id, nat>) {
    forall root :: (root in counts <==> RootCount(byTui, root) > 0) &&
                   (root in counts ==> counts[root] == RootCount(byTui, root))
  }

  method CountCandidates(byTui: seq<set<Id>>) returns (counts: map<Id, nat>)
    ensures RootCounts(byTui, counts)
  {
    counts := map[];
    for i := 0 to |byTui|
      invariant RootCounts(byTui[..i], counts)
    {
      counts := CountSet(byTui[..i], byTui[i], counts);
      assert byTui[..i + 1] == byTui[..i] + [byTui[i]];
    }
    assert byTui[..|byTui|] == byTui;
  }

  method CountSet(before: seq<set<Id>>, roots: set<Id>, counts: map<Id, nat>) returns (after: map<Id, nat>)
    requires RootCounts(before, counts)
    ensures RootCounts(before + [roots], after)
  {
    after := counts;
    var rest := roots;
    while rest != {}
      invariant rest <= roots
      invariant RootCounts(before + [roots - rest], after)
      decreases rest
    {
      var root :| root in rest;
      after := after[root := (if root in after then after[root] else 0) + 1];
      rest := rest - {root};
    }
    assert roots - rest == roots;
  }

  // ---------- the phases ----------

  /** The state of the matcher. `sticky` lives from pass to pass; `base` and `stage` are
      the specification's view of the pass under way. */
  class TuiMatcher {
    var instance: Instance
    var matches: seq<TuiMatch>
    var usedRoots: set<Id>
    var sticky: Sticky
    ghost var base: Sticky
    ghost var stage: Stage

    /** The entries, the used roots and the sticky map agree on one stage of the pass. */
    ghost predicate Valid(table: Table, tuis: seq<Tui>)
      reads this
    {
      && Shape(table, tuis, matches) && UniqueKeys(tuis)
      && Represents(table, matches, usedRoots, stage)
      && StickyAt(sticky, base, instance, stage)
    }

    constructor ()
      ensures sticky == map[]
    {
      instance := 0;
      sticky := map[];
      matches, usedRoots := [], {};
      base, stage := map[], Stage(map[], map[], {});
    }

    /** Records the fate of one claim in the entry, the used roots and the sticky map. */
    method Record(table: Table, tuis: seq<Tui>, index: nat, root: Id, wins: bool)
      requires Valid(table, tuis) && index < |matches| && matches[index].tui.key !in Resolved(stage)
      modifies this`matches, this`usedRoots, this`sticky, this`stage
      ensures Valid(table, tuis) && |matches| == |old(matches)|
      ensures stage == AddResolution(old(stage), old(matches[index].tui.key), root, wins)
    {
      var entry := matches[index];
      ghost var entries, used, before := matches, usedRoots, sticky;
      if wins {
        usedRoots := usedRoots + {root};
        sticky := sticky[(instance, entry.tui.key) := root];
        matches := matches[index := entry.(resolution := Some(Attached(root)))];
      } else {
        sticky := sticky - {(instance, entry.tui.key)};
        matches := matches[index := entry.(blocked := true, resolution := Some(Unresolved(true, Some(root))))];
      }
      RecordStep(table, tuis, entries, used, before, base, instance, stage, index, root, wins, matches, usedRoots, sticky);
      stage := AddResolution(stage, entry.tui.key, root, wins);
    }

    /** The body of the loop of `apply_claims`. */
    method ApplyClaim(table: Table, tuis: seq<Tui>, claims: seq<Claim>, a: nat, counts: map<Id, nat>,
                      ghost cm: Claims, ghost before: Stage)
      requires Valid(table, tuis) && a < |claims|
      requires Lists(tuis, claims, cm) && cm.Keys !! Resolved(before)
      requires Counts(claims, counts)
      requires Partly(before, cm, DoneKeys(tuis, claims, a), stage)
      modifies this`matches, this`usedRoots, this`sticky, this`stage
      ensures Valid(table, tuis)
      ensures Partly(before, cm, DoneKeys(tuis, claims, a + 1), stage)
    {
      ClaimStep(tuis, claims, cm, before, stage, a);
      var (index, root) := claims[a];
      Record(table, tuis, index, root, counts[root] == 1 && root !in usedRoots);
    }

    /** `apply_claims`. */
    method ApplyClaims(table: Table, tuis: seq<Tui>, claims: seq<Claim>, ghost cm: Claims)
      requires Valid(table, tuis)
      requires Lists(tuis, claims, cm) && cm.Keys !! Resolved(stage)
      modifies this`matches, this`usedRoots, this`sticky, this`stage
      ensures Valid(table, tuis)
      ensures stage == Settle(old(stage), cm)
    {
      var counts := CountRoots(claims);
      ghost var before := stage;
      PartlyNone(before, cm);
      for a := 0 to |claims|
        invariant Valid(table, tuis)
        invariant Partly(before, cm, DoneKeys(tuis, claims, a), stage)
      {
        ApplyClaim(table, tuis, claims, a, counts, cm, before);
      }
      DoneMeaning(tuis, claims, cm, |claims|);
      PartlyDone(before, cm, DoneKeys(tuis, claims, |claims|), stage);
    }
  
    /** Adds a claim to the list, if there is one. */
    static method Collect(tuis: seq<Tui>, claims: seq<Claim>, index: nat, claim: Option<Id>, ghost cm: Claims) returns (after: seq<Claim>)
      requires index < |tuis| && ListsUpTo(tuis, claims, cm, index)
      requires claim == if tuis[index].key in cm then Some(cm[tuis[index].key]) else None
      ensures ListsUpTo(tuis, after, cm, index + 1)
    {
      after := if claim.Some? then claims + [(index, claim.value)] else claims;
      ListsPush(tuis, claims, cm, index, after);
    }

    /** The first loop of `resolve_tuis`: sessions and continuations asked for by the TUIs
        themselves. A TUI whose session is not listed is resolved at once. */
    method CollectOwnClaims(table: Table, tuis: seq<Tui>, ghost cm: Claims) returns (claims: seq<Claim>)
      requires Valid(table, tuis) && stage == Stage(map[], map[], {})
      requires forall i :: 0 <= i < |tuis| ==>
        (if tuis[i].key in cm then OwnClaim(table, tuis[i]) == Some(cm[tuis[i].key]) else OwnClaim(table, tuis[i]).None?)
      modifies this`matches, this`sticky, this`stage
      ensures Valid(table, tuis)
      ensures stage == Stage(map[], map[], MissingUpTo(table, tuis, |tuis|))
      ensures ListsUpTo(tuis, claims, cm, |tuis|)
    {
      claims := [];
      for index := 0 to |tuis|
        invariant Valid(table, tuis)
        invariant stage == Stage(map[], map[], MissingUpTo(table, tuis, index))
        invariant ListsUpTo(tuis, claims, cm, index)
      {
        var claim := TakeOwnClaim(table, tuis, index);
        claims := Collect(tuis, claims, index, claim, cm);
      }
    }

    /** The body of that loop. */
    method TakeOwnClaim(table: Table, tuis: seq<Tui>, index: nat) returns (claim: Option<Id>)
      requires Valid(table, tuis) && index < |tuis|
      requires stage.attached == map[] && stage.refused == map[]
      modifies this`matches, this`sticky, this`stage
      ensures Valid(table, tuis)
      ensures claim == OwnClaim(table, tuis[index])
      ensures stage == old(stage).(missing := old(stage).missing +
                         if MissingExplicit(table, tuis[index]) then {tuis[index].key} else {})
    {
      var entry := matches[index];
      claim := None;
      match entry.tui.explicitSession {
        case Some(explicit) =>
          if explicit in table {
            Block(table, tuis, index);
            var root := ResolveRoot(table[explicit], table);
            claim := Some(root);
          } else {
            RefuseMissing(table, tuis, index);
          }
        case None =>
          if entry.tui.continueSession && entry.fallback.Attached? {
            Block(table, tuis, index);
            claim := Some(entry.fallback.root);
          }
      }
    }

    method Block(table: Table, tuis: seq<Tui>, index: nat)
      requires Valid(table, tuis) && index < |matches| && OwnClaim(table, matches[index].tui).Some?
      modifies this`matches
      ensures Valid(table, tuis)
    {
      matches := matches[index := matches[index].(blocked := true)];
    }

    method RefuseMissing(table: Table, tuis: seq<Tui>, index: nat)
      requires Valid(table, tuis) && index < |matches|
      requires stage.attached == map[] && stage.refused == map[]
      modifies this`matches, this`sticky, this`stage
      ensures Valid(table, tuis)
      ensures stage == old(stage).(missing := old(stage).missing + {tuis[index].key})
    {
      var entry := matches[index];
      stage := stage.(missing := stage.missing + {entry.tui.key});
      sticky := sticky - {(instance, entry.tui.key)};
      matches := matches[index := entry.(blocked := true, resolution := Some(Unresolved(false, None)))];
    }

    /** The sticky entries of the TUIs that are still unresolved. */
    method CollectStickyClaims(table: Table, tuis: seq<Tui>, roots: set<Id>, ghost cm: Claims) returns (claims: seq<Claim>)
      requires Valid(table, tuis) && OwnClaimsResolved(table, tuis, stage)
      requires forall tui :: tui in tuis ==> (tui.key in cm <==>
        tui.key !in Resolved(stage) && (instance, tui.key) in base && base[(instance, tui.key)] in roots)
      requires forall tui :: tui in tuis && tui.key in cm ==> cm[tui.key] == base[(instance, tui.key)]
      ensures ListsUpTo(tuis, claims, cm, |tuis|)
    {
      claims := [];
      for index := 0 to |tuis|
        invariant ListsUpTo(tuis, claims, cm, index)
      {
        var entry := matches[index];
        assert EntryAt(table, stage, entry) && entry.tui in tuis;
        ghost var before := claims;
        var pair := (instance, entry.tui.key);
        if entry.resolution.None? && !entry.blocked && pair in sticky && sticky[pair] in roots {
          claims := claims + [(index, sticky[pair])];
        }
        ListsPush(tuis, before, cm, index, claims);
      }
    }

    /** `apply_reciprocal_claims`, where the candidates of a TUI are its free location roots
        among `allowed`. */
    method ApplyReciprocalClaims(table: Table, tuis: seq<Tui>, allowed: set<Id>)
      requires Valid(table, tuis)
      requires OwnClaimsResolved(table, tuis, stage)
      modifies this`matches, this`usedRoots, this`sticky, this`stage
      ensures Valid(table, tuis)
      ensures stage == SettleReciprocal(table, TuisOf(tuis), old(stage), allowed)
    {
      var byTui := Candidates(table, tuis, allowed);
      ghost var open := TuisOf(tuis).Keys - Resolved(stage);
      ghost var cm := ReciprocalClaims(table, TuisOf(tuis), open, allowed, usedRoots);
      ReciprocalClaimsMeaning(table, TuisOf(tuis), open, allowed, usedRoots);
      SingleCandidatesMeaning(table, tuis, open, allowed, usedRoots, byTui, cm);
      var claims := SingleCandidates(tuis, byTui, cm);
      ListsAll(tuis, claims, cm);
      ApplyClaims(table, tuis, claims, cm);
    }

    /** `resolve_tuis`: every TUI gets the resolution of the pass, and the sticky map is
        updated as the pass demands. */
    method ResolveTuis(instance: Instance, tuis: seq<Tui>, sessions: seq<Session>) returns (result: seq<(Tui, Resolution)>)
      requires UniqueIds(sessions) && UniqueKeys(tuis)
      modifies this
      ensures PassResult(TableOf(sessions), tuis, instance, old(sticky), sticky, result)
    {
      var table := IndexById(sessions);
      ghost var view, before := View(sticky, instance), sticky;
      RetainedView(sticky, instance, Roots(table));
      var roots, active := CollectRoots(sessions, table);
      Start(table, tuis, sessions, instance, roots);
      ghost var last;
      result, last := Decide(table, tuis, roots, active, view);
      PassDone(table, tuis, instance, before, base, sticky, last, result);
    }

    method Decide(table: Table, tuis: seq<Tui>, roots: set<Id>, active: set<Id>, ghost view: Claims)
      returns (result: seq<(Tui, Resolution)>, ghost last: Stage)
      requires roots == Roots(table) && active == ActiveRoots(table)
      requires Valid(table, tuis) && stage == Stage(map[], map[], {})
      requires Views(base, instance, view, Roots(table))
      modifies this`matches, this`usedRoots, this`sticky, this`stage
      ensures last == FinalStage(table, TuisOf(tuis), view)
      ensures AllConcluded(table, tuis, instance, base, last, sticky, result)
    {
      Phases(table, tuis, roots, active, view);
      last := stage;
      result := Conclude(table, tuis);
    }

    method Phases(table: Table, tuis: seq<Tui>, roots: set<Id>, active: set<Id>, ghost view: Claims)
      requires roots == Roots(table) && active == ActiveRoots(table)
      requires Valid(table, tuis) && stage == Stage(map[], map[], {})
      requires Views(base, instance, view, Roots(table))
      modifies this`matches, this`usedRoots, this`sticky, this`stage
      ensures Valid(table, tuis)
      ensures stage == FinalStage(table, TuisOf(tuis), view)
    {
      ClaimPhases(table, tuis, roots, view);
      ReciprocalPhases(table, tuis, roots, active, view);
    }

    /** The phases of location and of activity. */
    method ReciprocalPhases(table: Table, tuis: seq<Tui>, roots: set<Id>, active: set<Id>, ghost view: Claims)
      requires roots == Roots(table) && active == ActiveRoots(table)
      requires Valid(table, tuis)
      requires stage == StickyStage(table, TuisOf(tuis), view)
      requires OwnClaimsResolved(table, tuis, stage)
      modifies this`matches, this`usedRoots, this`sticky, this`stage
      ensures Valid(table, tuis)
      ensures stage == FinalStage(table, TuisOf(tuis), view)
    {
      FurtherResolved(table, tuis, stage, Roots(table));
      ApplyReciprocalClaims(table, tuis, roots);
      ApplyReciprocalClaims(table, tuis, active);
    }

    /** The phases of explicit and of sticky claims. */
    method ClaimPhases(table: Table, tuis: seq<Tui>, roots: set<Id>, ghost view: Claims)
      requires roots == Roots(table)
      requires Valid(table, tuis) && stage == Stage(map[], map[], {})
      requires Views(base, instance, view, Roots(table))
      modifies this`matches, this`usedRoots, this`sticky, this`stage
      ensures Valid(table, tuis)
      ensures stage == StickyStage(table, TuisOf(tuis), view)
      ensures OwnClaimsResolved(table, tuis, stage)
    {
      ghost var own := OwnClaims(table, TuisOf(tuis));
      OwnClaimsMeaning(table, TuisOf(tuis));
      OwnByIndex(table, tuis, own);
      var claims := CollectOwnClaims(table, tuis, own);
      ListsAll(tuis, claims, own);
      MissingAll(table, tuis);
      ApplyClaims(table, tuis, claims, own);
      ExplicitResolves(table, tuis);
      ghost var kept := StickyClaims(table, TuisOf(tuis), stage, view);
      StickyByIndex(table, tuis, stage, base, instance, view);
      claims := CollectStickyClaims(table, tuis, roots, kept);
      StickyClaimsMeaning(table, TuisOf(tuis), stage, view);
      ListsAll(tuis, claims, kept);
      ApplyClaims(table, tuis, claims, kept);
      StagesAreSound(table, TuisOf(tuis), view);
    }

    /** The entries before the first phase. Sticky entries of this instance go with their
        roots. */
    method Start(table: Table, tuis: seq<Tui>, sessions: seq<Session>, instance: Instance, roots: set<Id>)
      requires UniqueKeys(tuis) && UniqueIds(sessions) && table == TableOf(sessions)
      modifies this
      ensures this.instance == instance
      ensures Valid(table, tuis) && stage == Stage(map[], map[], {})
      ensures base == Retained(old(sticky), instance, roots)
    {
      this.instance := instance;
      matches := [];
      for i := 0 to |tuis|
        invariant this.instance == instance
        invariant |matches| == i
        invariant forall j :: 0 <= j < i ==>
          Unmatched(table, tuis[j], matches[j])
        invariant sticky == old(sticky)
      {
        var locationRoots := TuiLocationRoots(tuis[i], sessions, table);
        var fallback := ResolveTuiFrom(tuis[i], sessions, table);
        matches := matches + [TuiMatch(tuis[i], locationRoots, fallback, None, false)];
      }
      sticky := Retained(sticky, instance, roots);
      base := sticky;
      usedRoots := {};
      stage := Stage(map[], map[], {});
    }

    /** The last loop of `resolve_tuis`: unresolved TUIs lose their sticky entry and keep
        at most a hint. */
    method Conclude(table: Table, tuis: seq<Tui>) returns (result: seq<(Tui, Resolution)>)
      requires Valid(table, tuis)
      modifies this`sticky
      ensures AllConcluded(table, tuis, instance, base, stage, sticky, result)
    {
      result := [];
      for i := 0 to |tuis|
        invariant |result| == i
        invariant forall j :: 0 <= j < i ==> result[j] == (tuis[j], Verdict(table, tuis[j], stage, tuis[j].key))
        invariant Concluded(sticky, base, instance, tuis, stage, i)
      {
        var entry := matches[i];
        assert EntryAt(table, stage, entry);
        ghost var before := sticky;
        var resolution;
        match entry.resolution {
          case Some(resolved) => resolution := resolved;
          case None =>
            sticky := sticky - {(instance, entry.tui.key)};
            resolution := Demote(entry.fallback);
        }
        ConcludeStep(before, base, instance, tuis, stage, i, sticky);
        result := result + [(entry.tui, resolution)];
      }
    }

    method Candidates(table: Table, tuis: seq<Tui>, allowed: set<Id>) returns (byTui: seq<set<Id>>)
      requires Valid(table, tuis)
      requires OwnClaimsResolved(table, tuis, stage)
      ensures CandidatesOf(table, tuis, TuisOf(tuis).Keys - Resolved(stage), allowed, usedRoots, byTui)
    {
      byTui := [];
      ghost var open := TuisOf(tuis).Keys - Resolved(stage);
      for index := 0 to |tuis|
        invariant |byTui| == index
        invariant forall i :: 0 <= i < index ==> CandidatesAre(table, tuis[i], open, allowed, usedRoots, byTui[i])
      {
        var roots := CandidatesAt(table, tuis, index, allowed);
        byTui := byTui + [roots];
      }
    }

    method CandidatesAt(table: Table, tuis: seq<Tui>, index: nat, allowed: set<Id>) returns (roots: set<Id>)
      requires Valid(table, tuis) && index < |tuis|
      requires OwnClaimsResolved(table, tuis, stage)
      ensures CandidatesAre(table, tuis[index], TuisOf(tuis).Keys - Resolved(stage), allowed, usedRoots, roots)
    {
      var entry := matches[index];
      assert EntryAt(table, stage, entry) && entry.tui in tuis;
      TuiAt(tuis, index);
      roots := if entry.resolution.None? && !entry.blocked then Elements(entry.locationRoots) * allowed - usedRoots else {};
    }
  }

  /** The single candidates that are counted once are the claims of `cm`. */
  ghost predicate SinglesAre(tuis: seq<Tui>, byTui: seq<set<Id>>, cm: Claims) {
    |byTui| == |tuis| &&
    forall i :: 0 <= i < |tuis| ==>
      if tuis[i].key in cm then
        byTui[i] == {cm[tuis[i].key]} && |byTui[i]| == 1 && RootCount(byTui, cm[tuis[i].key]) == 1
      else |byTui[i]| == 1 ==> RootCount(byTui, Only(byTui[i])) > 1
  }

  method SingleCandidates(tuis: seq<Tui>, byTui: seq<set<Id>>, ghost cm: Claims) returns (claims: seq<Claim>)
    requires SinglesAre(tuis, byTui, cm)
    ensures ListsUpTo(tuis, claims, cm, |tuis|)
  {
    var counts := CountCandidates(byTui);
    claims := [];
    for index := 0 to |tuis|
      invariant ListsUpTo(tuis, claims, cm, index)
    {
      ghost var before := claims;
      if |byTui[index]| == 1 {
        var root := Only(byTui[index]);
        assert root in byTui[index];
        RootCountPositive(byTui, root);
        if counts[root] == 1 {
          claims := claims + [(index, root)];
        }
      }
      ListsPush(tuis, before, cm, index, claims);
    }
  }

  lemma SingleCandidatesMeaning(table: Table, tuis: seq<Tui>, open: set<TuiKey>, allowed: set<Id>, used: set<Id>,
                                byTui: seq<set<Id>>, cm: Claims)
    requires UniqueKeys(tuis) && CandidatesOf(table, tuis, open, allowed, used, byTui)
    requires forall key :: key in cm <==> Reciprocal(table, TuisOf(tuis), open, allowed, used, key)
    requires forall key :: key in cm && key in TuisOf(tuis) ==> FreeRoots(table, TuisOf(tuis)[key], allowed, used) == {cm[key]}
    ensures SinglesAre(tuis, byTui, cm)
  {
    forall i | 0 <= i < |tuis|
      ensures if tuis[i].key in cm then
          byTui[i] == {cm[tuis[i].key]} && |byTui[i]| == 1 && RootCount(byTui, cm[tuis[i].key]) == 1
        else |byTui[i]| == 1 ==> RootCount(byTui, Only(byTui[i])) > 1
    {
      TuiAt(tuis, i);
      ReciprocalByCount(table, tuis, open, allowed, used, byTui, i);
    }
  }

  function MissingUpTo(table: Table, tuis: seq<Tui>, n: nat): set<TuiKey>
    requires n <= |tuis|
  {
    if n == 0 then {}
    else MissingUpTo(table, tuis, n - 1) + if MissingExplicit(table, tuis[n - 1]) then {tuis[n - 1].key} else {}
  }

  lemma {:induction false} MissingMembers(table: Table, tuis: seq<Tui>, n: nat, key: TuiKey)
    requires n <= |tuis|
    ensures key in MissingUpTo(table, tuis, n) <==>
            exists i :: 0 <= i < n && MissingExplicit(table, tuis[i]) && tuis[i].key == key
  {
    if n > 0 {
      MissingMembers(table, tuis, n - 1, key);
    }
  }

  lemma MissingAll(table: Table, tuis: seq<Tui>)
    requires UniqueKeys(tuis)
    ensures Stage(map[], map[], MissingUpTo(table, tuis, |tuis|)) == StartStage(table, TuisOf(tuis))
  {
    TuisOfMeaning(tuis);
    var listed := TuisOf(tuis);
    forall key
      ensures key in MissingUpTo(table, tuis, |tuis|) <==> key in listed && MissingExplicit(table, listed[key])
    {
      MissingMembers(table, tuis, |tuis|, key);
      if key in listed && MissingExplicit(table, listed[key]) {
        assert listed[key] in tuis;
      }
    }
  }

  ghost predicate CandidatesOf(table: Table, tuis: seq<Tui>, open: set<TuiKey>, allowed: set<Id>, used: set<Id>, byTui: seq<set<Id>>) {
    |byTui| == |tuis| && forall i :: 0 <= i < |tuis| ==> CandidatesAre(table, tuis[i], open, allowed, used, byTui[i])
  }

  ghost predicate CandidatesAre(table: Table, tui: Tui, open: set<TuiKey>, allowed: set<Id>, used: set<Id>, roots: set<Id>) {
    roots == if tui.key in open then FreeRoots(table, tui, allowed, used) else {}
  }

  /** A single candidate that is counted once is a reciprocal claim, and conversely. */
  lemma ReciprocalByCount(table: Table, tuis: seq<Tui>, open: set<TuiKey>, allowed: set<Id>, used: set<Id>,
                          byTui: seq<set<Id>>, index: nat)
    requires UniqueKeys(tuis) && index < |tuis| && CandidatesOf(table, tuis, open, allowed, used, byTui)
    ensures Reciprocal(table, TuisOf(tuis), open, allowed, used, tuis[index].key) <==>
            |byTui[index]| == 1 && RootCount(byTui, Only(byTui[index])) == 1
    ensures |byTui[index]| == 1 ==> RootCount(byTui, Only(byTui[index])) > 0
    ensures |byTui[index]| == 1 ==> FreeRoots(table, tuis[index], allowed, used) == {Only(byTui[index])}
  {
    TuiAt(tuis, index);
    if |byTui[index]| == 1 {
      var root := Only(byTui[index]);
      RootCountPositive(byTui, root);
      RootCountOne(byTui, root, index);
      TuisOfMeaning(tuis);
      ReciprocalByIndex(table, tuis, open, allowed, used, byTui, index, root);
    }
  }

  lemma ReciprocalByIndex(table: Table, tuis: seq<Tui>, open: set<TuiKey>, allowed: set<Id>, used: set<Id>,
                          byTui: seq<set<Id>>, index: nat, root: Id)
    requires UniqueKeys(tuis) && index < |tuis| && CandidatesOf(table, tuis, open, allowed, used, byTui)
    requires byTui[index] == {root} && |byTui[index]| == 1
    requires tuis[index].key in TuisOf(tuis) && TuisOf(tuis)[tuis[index].key] == tuis[index]
    ensures Reciprocal(table, TuisOf(tuis), open, allowed, used, tuis[index].key) <==>
            forall j :: 0 <= j < |byTui| && j != index ==> root !in byTui[j]
  {
    var listed, key := TuisOf(tuis), tuis[index].key;
    assert CandidatesAre(table, tuis[index], open, allowed, used, byTui[index]);
    if forall j :: 0 <= j < |byTui| && j != index ==> root !in byTui[j] {
      forall other | other in open && other in listed && other != key
        ensures root !in FreeRoots(table, listed[other], allowed, used)
      {
        NotACandidate(table, tuis, open, allowed, used, byTui, index, root, other);
      }
    }
    if Reciprocal(table, listed, open, allowed, used, key) {
      forall j | 0 <= j < |byTui| && j != index ensures root !in byTui[j] {
        TuiAt(tuis, j);
        assert CandidatesAre(table, tuis[j], open, allowed, used, byTui[j]);
      }
    }
  }

  lemma NotACandidate(table: Table, tuis: seq<Tui>, open: set<TuiKey>, allowed: set<Id>, used: set<Id>,
                      byTui: seq<set<Id>>, index: nat, root: Id, other: TuiKey)
    requires UniqueKeys(tuis) && index < |tuis| && CandidatesOf(table, tuis, open, allowed, used, byTui)
    requires forall j :: 0 <= j < |byTui| && j != index ==> root !in byTui[j]
    requires other in open && other in TuisOf(tuis) && other != tuis[index].key
    ensures root !in FreeRoots(table, TuisOf(tuis)[other], allowed, used)
  {
    TuisOfMeaning(tuis);
    var j :| 0 <= j < |tuis| && tuis[j] == TuisOf(tuis)[other];
    assert CandidatesAre(table, tuis[j], open, allowed, used, byTui[j]);
  }

  lemma CountedAlone(tuis: seq<Tui>, claims: seq<Claim>, cm: Claims, a: nat)
    requires UniqueKeys(tuis) && Lists(tuis, claims, cm) && a < |claims|
    requires multiset(RootsOf(claims))[claims[a].1] == 1
    ensures var key := tuis[claims[a].0].key;
      forall other :: other in cm && cm[other] == cm[key] ==> other == key
  {
    CountedOnce(RootsOf(claims), a);
    var key := tuis[claims[a].0].key;
    forall other | other in cm && cm[other] == cm[key] ensures other == key {
      var b :| 0 <= b < |claims| && tuis[claims[b].0].key == other;
      assert RootsOf(claims)[b] == RootsOf(claims)[a];
    }
  }

  /** `sticky.retain`: entries of the instance whose root is gone are dropped. */
  function Retained(sticky: Sticky, instance: Instance, roots: set<Id>): Sticky {
    sticky - (set pair | pair in sticky && pair.0 == instance && sticky[pair] !in roots)
  }

  /** The sticky map after the first `n` TUIs have been concluded. */
  ghost predicate Concluded(sticky: Sticky, base: Sticky, instance: Instance, tuis: seq<Tui>, stage: Stage, n: nat)
    requires n <= |tuis|
  {
    forall owner: Instance, key: TuiKey ::
      if owner == instance && (key in Resolved(stage) || exists i :: 0 <= i < n && tuis[i].key == key) then
        && ((owner, key) in sticky <==> key in stage.attached)
        && ((owner, key) in sticky ==> sticky[(owner, key)] == stage.attached[key])
      else
        && ((owner, key) in sticky <==> (owner, key) in base)
        && ((owner, key) in sticky ==> sticky[(owner, key)] == base[(owner, key)])
  }

  lemma ConcludeStep(before: Sticky, base: Sticky, instance: Instance, tuis: seq<Tui>, stage: Stage, n: nat, after: Sticky)
    requires n < |tuis| && Concluded(before, base, instance, tuis, stage, n)
    requires after == if tuis[n].key in Resolved(stage) then before else before - {(instance, tuis[n].key)}
    ensures Concluded(after, base, instance, tuis, stage, n + 1)
  {
  }

  /** What a pass makes of the sticky map: the listed TUIs of the instance have an entry
      exactly when they are attached; entries of its other TUIs stay while their root is
      listed; entries of other instances stay. */
  ghost predicate StickyAfter(table: Table, tuis: Tuis, instance: Instance, attached: Claims, before: Sticky, after: Sticky) {
    forall owner: Instance, key: TuiKey ::
      if owner == instance && key in tuis then
        && ((owner, key) in after <==> key in attached)
        && ((owner, key) in after ==> after[(owner, key)] == attached[key])
      else
        && ((owner, key) in after <==>
              (owner, key) in before && (owner == instance ==> before[(owner, key)] in Roots(table)))
        && ((owner, key) in after ==> after[(owner, key)] == before[(owner, key)])
  }

  lemma ConcludedMeaning(table: Table, tuis: seq<Tui>, instance: Instance, before: Sticky, after: Sticky, stage: Stage)
    requires UniqueKeys(tuis) && Resolved(stage) <= TuisOf(tuis).Keys
    requires Concluded(after, Retained(before, instance, Roots(table)), instance, tuis, stage, |tuis|)
    ensures StickyAfter(table, TuisOf(tuis), instance, stage.attached, before, after)
  {
    var listed := TuisOf(tuis);
    TuisOfMeaning(tuis);
    forall key: TuiKey ensures key in listed <==> exists i :: 0 <= i < |tuis| && tuis[i].key == key {
      if key in listed {
        assert listed[key] in tuis;
      }
      if exists i :: 0 <= i < |tuis| && tuis[i].key == key {
        var i :| 0 <= i < |tuis| && tuis[i].key == key;
        assert tuis[i] in tuis;
      }
    }
  }

  ghost predicate Resolves(table: Table, tuis: seq<Tui>, stage: Stage, result: seq<(Tui, Resolution)>) {
    |result| == |tuis| &&
    forall i :: 0 <= i < |tuis| ==> result[i] == (tuis[i], Verdict(table, tuis[i], stage, tuis[i].key))
  }

  /** `view` holds the entries of the instance, of which `base` has those with a root. */
  ghost predicate Views(base: Sticky, instance: Instance, view: Claims, roots: set<Id>) {
    forall key ::
      && ((instance, key) in base <==> key in view && view[key] in roots)
      && ((instance, key) in base ==> base[(instance, key)] == view[key])
  }

  lemma OwnByIndex(table: Table, tuis: seq<Tui>, own: Claims)
    requires UniqueKeys(tuis) && own == OwnClaims(table, TuisOf(tuis))
    ensures forall i :: 0 <= i < |tuis| ==>
      (if tuis[i].key in own then OwnClaim(table, tuis[i]) == Some(own[tuis[i].key]) else OwnClaim(table, tuis[i]).None?)
  {
    OwnClaimsMeaning(table, TuisOf(tuis));
    forall i | 0 <= i < |tuis|
      ensures tuis[i].key in TuisOf(tuis) && TuisOf(tuis)[tuis[i].key] == tuis[i]
    {
      TuiAt(tuis, i);
    }
  }

  lemma StickyByIndex(table: Table, tuis: seq<Tui>, stage: Stage, base: Sticky, instance: Instance, view: Claims)
    requires UniqueKeys(tuis) && Views(base, instance, view, Roots(table))
    ensures var kept := StickyClaims(table, TuisOf(tuis), stage, view);
      && (forall tui :: tui in tuis ==> (tui.key in kept <==>
            tui.key !in Resolved(stage) && (instance, tui.key) in base && base[(instance, tui.key)] in Roots(table)))
      && forall tui :: tui in tuis && tui.key in kept ==> kept[tui.key] == base[(instance, tui.key)]
  {
    StickyClaimsMeaning(table, TuisOf(tuis), stage, view);
    TuisOfMeaning(tuis);
  }

  lemma ExplicitResolves(table: Table, tuis: seq<Tui>)
    requires UniqueKeys(tuis)
    ensures OwnClaimsResolved(table, tuis, ExplicitStage(table, TuisOf(tuis)))
    ensures Sound(table, TuisOf(tuis), ExplicitStage(table, TuisOf(tuis)))
  {
    var listed := TuisOf(tuis);
    TuisOfMeaning(tuis);
    OwnClaimsMeaning(table, listed);
    SettleIsSound(table, listed, StartStage(table, listed), OwnClaims(table, listed));
  }

  lemma FurtherResolved(table: Table, tuis: seq<Tui>, stage: Stage, allowed: set<Id>)
    requires OwnClaimsResolved(table, tuis, stage)
    ensures OwnClaimsResolved(table, tuis, SettleReciprocal(table, TuisOf(tuis), stage, allowed))
  {
  }

  lemma RetainedView(sticky: Sticky, instance: Instance, roots: set<Id>)
    ensures Views(Retained(sticky, instance, roots), instance, View(sticky, instance), roots)
  {
  }

  /** The outcome of a pass, in terms of the sets of TUIs and sessions alone. */
  ghost predicate PassResult(table: Table, tuis: seq<Tui>, instance: Instance, before: Sticky, after: Sticky,
                             result: seq<(Tui, Resolution)>)
  {
    var listed, view := TuisOf(tuis), View(before, instance);
    && Resolves(table, tuis, FinalStage(table, listed, view), result)
    && StickyAfter(table, listed, instance, Pass(table, listed, view), before, after)
  }

  /** Every TUI got its verdict, and those without an attachment lost their sticky entry. */
  ghost predicate AllConcluded(table: Table, tuis: seq<Tui>, instance: Instance, base: Sticky, stage: Stage, after: Sticky,
                               result: seq<(Tui, Resolution)>) {
    UniqueKeys(tuis) && Resolves(table, tuis, stage, result) && Concluded(after, base, instance, tuis, stage, |tuis|)
  }

  lemma PassDone(table: Table, tuis: seq<Tui>, instance: Instance, before: Sticky, base: Sticky, after: Sticky, stage: Stage,
                 result: seq<(Tui, Resolution)>)
    requires stage == FinalStage(table, TuisOf(tuis), View(before, instance))
    requires base == Retained(before, instance, Roots(table))
    requires AllConcluded(table, tuis, instance, base, stage, after, result)
    ensures PassResult(table, tuis, instance, before, after, result)
  {
    StagesAreSound(table, TuisOf(tuis), View(before, instance));
    ConcludedMeaning(table, tuis, instance, before, after, stage);
  }

  /** Neither the order of the sessions nor that of the TUIs matters: each TUI gets the same
      resolution and the sticky map becomes the same. */
  lemma OrderDoesNotMatter(tuis: seq<Tui>, tuis': seq<Tui>, sessions: seq<Session>, sessions': seq<Session>,
                           instance: Instance, before: Sticky, after: Sticky, after': Sticky,
                           result: seq<(Tui, Resolution)>, result': seq<(Tui, Resolution)>)
    requires UniqueKeys(tuis) && UniqueKeys(tuis') && UniqueIds(sessions) && UniqueIds(sessions')
    requires forall tui :: tui in tuis <==> tui in tuis'
    requires forall session :: session in sessions <==> session in sessions'
    requires PassResult(TableOf(sessions), tuis, instance, before, after, result)
    requires PassResult(TableOf(sessions'), tuis', instance, before, after', result')
    ensures after == after'
    ensures forall pair :: pair in result <==> pair in result'
  {
    TableIsOrderFree(sessions, sessions');
    SameTuis(tuis, tuis');
    var table, stage := TableOf(sessions), FinalStage(TableOf(sessions), TuisOf(tuis), View(before, instance));
    SameResults(table, stage, tuis, tuis', result, result');
    SameResults(table, stage, tuis', tuis, result', result);
    SameSticky(table, TuisOf(tuis), instance, Pass(table, TuisOf(tuis), View(before, instance)), before, after, after');
  }

  lemma SameTuis(tuis: seq<Tui>, tuis': seq<Tui>)
    requires UniqueKeys(tuis) && UniqueKeys(tuis')
    requires forall tui :: tui in tuis <==> tui in tuis'
    ensures TuisOf(tuis) == TuisOf(tuis')
  {
    TuisOfMeaning(tuis);
    TuisOfMeaning(tuis');
    var l, r := TuisOf(tuis), TuisOf(tuis');
    forall key ensures (key in l <==> key in r) && (key in l ==> l[key] == r[key]) {
      assert key in l ==> l[key] in tuis;
      assert key in r ==> r[key] in tuis';
    }
  }

  lemma SameResults(table: Table, stage: Stage, tuis: seq<Tui>, tuis': seq<Tui>,
                    result: seq<(Tui, Resolution)>, result': seq<(Tui, Resolution)>)
    requires forall tui :: tui in tuis ==> tui in tuis'
    requires Resolves(table, tuis, stage, result) && Resolves(table, tuis', stage, result')
    ensures forall pair :: pair in result ==> pair in result'
  {
    forall pair | pair in result ensures pair in result' {
      var i :| 0 <= i < |result| && result[i] == pair;
      assert tuis[i] in tuis;
      var j :| 0 <= j < |tuis'| && tuis'[j] == tuis[i];
      assert result'[j] == pair;
    }
  }

  lemma SameSticky(table: Table, tuis: Tuis, instance: Instance, attached: Claims, before: Sticky, left: Sticky, right: Sticky)
    requires StickyAfter(table, tuis, instance, attached, before, left)
    requires StickyAfter(table, tuis, instance, attached, before, right)
    ensures left == right
  {
    forall pair: (Instance, TuiKey)
      ensures (pair in left <==> pair in right) && (pair in left ==> left[pair] == right[pair])
    {
      var (owner, key) := pair;
      assert pair == (owner, key);
    }
  }
}
