/** Laws of matching passes: precedence, persistence, convergence. */
module MatchingLaws {
  import opened Wrappers
  import opened Sessions
  import opened Aggregates
  import opened Matching

  // ---------- precedence ----------

  /** Resolutions of a stage survive to the end of the pass. */
  lemma ResolutionsPersist(table: Table, tuis: Tuis, sticky: Claims, key: TuiKey)
    requires key in tuis
    ensures key in Resolved(ExplicitStage(table, tuis)) ==>
              Resolve(table, tuis, sticky, key) == ResolutionIn(ExplicitStage(table, tuis), key)
    ensures key in Resolved(StickyStage(table, tuis, sticky)) ==>
              Resolve(table, tuis, sticky, key) == ResolutionIn(StickyStage(table, tuis, sticky), key)
  {
    StagesAreSound(table, tuis, sticky);
    PersistThrough(ExplicitStage(table, tuis), StickyStage(table, tuis, sticky), LocationStage(table, tuis, sticky),
                   FinalStage(table, tuis, sticky), key);
  }

  lemma PersistThrough(first: Stage, second: Stage, third: Stage, last: Stage, key: TuiKey)
    requires Keeps(first, second) && Keeps(second, third) && Keeps(third, last)
    ensures key in Resolved(first) ==> key in Resolved(last) && ResolutionIn(last, key) == ResolutionIn(first, key)
    ensures key in Resolved(second) ==> key in Resolved(last) && ResolutionIn(last, key) == ResolutionIn(second, key)
  {
  }

  lemma PassMeansAttached(table: Table, tuis: Tuis, sticky: Claims, key: TuiKey)
    requires key in tuis
    ensures key in Pass(table, tuis, sticky) <==> Resolve(table, tuis, sticky, key).Attached?
    ensures key in Pass(table, tuis, sticky) ==>
              Resolve(table, tuis, sticky, key) == Attached(Pass(table, tuis, sticky)[key])
  {
    VerdictAttached(table, tuis[key], FinalStage(table, tuis, sticky), key);
  }

  lemma VerdictAttached(table: Table, tui: Tui, stage: Stage, key: TuiKey)
    ensures key in stage.attached <==> Verdict(table, tui, stage, key).Attached?
    ensures key in stage.attached ==> Verdict(table, tui, stage, key) == Attached(stage.attached[key])
  {
  }

  ghost predicate Contested(table: Table, tuis: Tuis, key: TuiKey, root: Id) {
    exists other :: other in tuis && other != key && OwnClaim(table, tuis[other]) == Some(root)
  }

  lemma OwnClaimSettled(table: Table, tuis: Tuis, key: TuiKey)
    requires key in tuis && OwnClaim(table, tuis[key]).Some?
    ensures var root := OwnClaim(table, tuis[key]).value;
      && key in Resolved(ExplicitStage(table, tuis))
      && ResolutionIn(ExplicitStage(table, tuis), key) ==
         if Contested(table, tuis, key, root) then Unresolved(true, Some(root)) else Attached(root)
  {
    OwnClaimsMeaning(table, tuis);
    var claims := OwnClaims(table, tuis);
    var root := OwnClaim(table, tuis[key]).value;
    assert forall other :: other in tuis && OwnClaim(table, tuis[other]) == Some(root) <==>
                           other in claims && claims[other] == root;
  }

  /** A TUI whose command line names a listed session, or continues an unambiguous one,
      attaches to that session's root exactly when no other command line claims it;
      whatever the sticky entries and the other TUIs say. */
  lemma OwnClaimDecides(table: Table, tuis: Tuis, sticky: Claims, key: TuiKey)
    requires key in tuis && OwnClaim(table, tuis[key]).Some?
    ensures var root := OwnClaim(table, tuis[key]).value;
      Resolve(table, tuis, sticky, key) ==
        if Contested(table, tuis, key, root) then Unresolved(true, Some(root)) else Attached(root)
  {
    OwnClaimSettled(table, tuis, key);
    ResolutionsPersist(table, tuis, sticky, key);
  }

  lemma MissingSettled(table: Table, tuis: Tuis, key: TuiKey)
    requires key in tuis && MissingExplicit(table, tuis[key])
    ensures key in Resolved(ExplicitStage(table, tuis))
    ensures ResolutionIn(ExplicitStage(table, tuis), key) == Unresolved(false, None)
  {
  }

  /** An explicit session is the only one its TUI can be attached to. */
  lemma ExplicitOnly(table: Table, tuis: Tuis, sticky: Claims, key: TuiKey)
    requires key in tuis && tuis[key].explicitSession.Some?
    ensures var explicit := tuis[key].explicitSession.value;
      if explicit in table then
        var root := RootOf(table, explicit);
        Resolve(table, tuis, sticky, key) ==
          if Contested(table, tuis, key, root) then Unresolved(true, Some(root)) else Attached(root)
      else Resolve(table, tuis, sticky, key) == Unresolved(false, None)
  {
    if tuis[key].explicitSession.value in table {
      OwnClaimDecides(table, tuis, sticky, key);
    } else {
      MissingSettled(table, tuis, key);
      ResolutionsPersist(table, tuis, sticky, key);
    }
  }

  // ---------- persistence ----------

  predicate FreeOfOwnClaim(table: Table, tuis: Tuis, key: TuiKey) {
    key in tuis && !MissingExplicit(table, tuis[key]) && OwnClaim(table, tuis[key]).None?
  }

  /** Exactly one command line claims `root`. */
  ghost predicate ClaimedOnce(table: Table, tuis: Tuis, root: Id) {
    exists key :: key in tuis && OwnClaim(table, tuis[key]) == Some(root) && !Contested(table, tuis, key, root)
  }

  lemma ExplicitStageMeaning(table: Table, tuis: Tuis)
    ensures forall key :: key in tuis ==>
              (key in Resolved(ExplicitStage(table, tuis)) <==> !FreeOfOwnClaim(table, tuis, key))
    ensures forall root: Id :: root in ExplicitStage(table, tuis).attached.Values <==> ClaimedOnce(table, tuis, root)
  {
    OwnClaimsMeaning(table, tuis);
    SettleIsSound(table, tuis, StartStage(table, tuis), OwnClaims(table, tuis));
    var attached := ExplicitStage(table, tuis).attached;
    forall key | key in tuis && OwnClaim(table, tuis[key]).Some?
      ensures var root := OwnClaim(table, tuis[key]).value;
        (key in attached <==> !Contested(table, tuis, key, root)) && (key in attached ==> attached[key] == root)
    {
      OwnClaimSettled(table, tuis, key);
    }
    forall root: Id | ClaimedOnce(table, tuis, root) ensures root in attached.Values {
      var key :| key in tuis && OwnClaim(table, tuis[key]) == Some(root) && !Contested(table, tuis, key, root);
      assert attached[key] == root;
    }
  }

  ghost predicate StickyRival(table: Table, tuis: Tuis, sticky: Claims, key: TuiKey, root: Id) {
    exists other :: other != key && FreeOfOwnClaim(table, tuis, other) && other in sticky && sticky[other] == root
  }

  lemma StickySettled(table: Table, tuis: Tuis, sticky: Claims, key: TuiKey, first: Stage)
    requires FreeOfOwnClaim(table, tuis, key) && key in sticky && sticky[key] in Roots(table)
    requires forall k :: k in tuis ==> (k in Resolved(first) <==> !FreeOfOwnClaim(table, tuis, k))
    ensures var root := sticky[key];
      var after := Settle(first, StickyClaims(table, tuis, first, sticky));
      && key in Resolved(after)
      && ResolutionIn(after, key) ==
         if root in first.attached.Values || StickyRival(table, tuis, sticky, key, root)
         then Unresolved(true, Some(root)) else Attached(root)
  {
    StickyClaimsMeaning(table, tuis, first, sticky);
    var claims := StickyClaims(table, tuis, first, sticky);
    var root := sticky[key];
    assert forall other :: other in claims && claims[other] == root <==>
      FreeOfOwnClaim(table, tuis, other) && other in sticky && sticky[other] == root;
  }

  /** The exact fate of a sticky pair: a listed TUI without a claim of its own keeps its
      root if and only if the root is not claimed by exactly one command line and is not
      the sticky root of another such TUI. */
  lemma StickyPersists(table: Table, tuis: Tuis, sticky: Claims, key: TuiKey)
    requires FreeOfOwnClaim(table, tuis, key) && key in sticky && sticky[key] in Roots(table)
    ensures var root := sticky[key];
      Resolve(table, tuis, sticky, key) ==
        if ClaimedOnce(table, tuis, root) || StickyRival(table, tuis, sticky, key, root)
        then Unresolved(true, Some(root)) else Attached(root)
  {
    ExplicitStageMeaning(table, tuis);
    StickySettled(table, tuis, sticky, key, ExplicitStage(table, tuis));
    ResolutionsPersist(table, tuis, sticky, key);
  }

  // ---------- convergence ----------

  lemma OwnerIsAttached(table: Table, tuis: Tuis, sticky: Claims, root: Id)
    requires ClaimedOnce(table, tuis, root)
    ensures exists owner :: !FreeOfOwnClaim(table, tuis, owner) && owner in Pass(table, tuis, sticky)
                            && Pass(table, tuis, sticky)[owner] == root
  {
    var owner :| owner in tuis && OwnClaim(table, tuis[owner]) == Some(root) && !Contested(table, tuis, owner, root);
    OwnClaimDecides(table, tuis, sticky, owner);
    PassMeansAttached(table, tuis, sticky, owner);
  }

  lemma PassKeeps(table: Table, tuis: Tuis, sticky: Claims, before: Claims, key: TuiKey)
    requires before == Pass(table, tuis, sticky) && key in before
    ensures key in tuis && Resolve(table, tuis, before, key) == Attached(before[key])
  {
    PassIsInjective(table, tuis, sticky);
    PassMeansAttached(table, tuis, sticky, key);
    if FreeOfOwnClaim(table, tuis, key) {
      assert before[key] in before.Values;
      StickyPersists(table, tuis, before, key);
      if ClaimedOnce(table, tuis, before[key]) {
        OwnerIsAttached(table, tuis, sticky, before[key]);
      }
    } else {
      ExplicitStageMeaning(table, tuis);
      ResolutionsPersist(table, tuis, sticky, key);
      ResolutionsPersist(table, tuis, before, key);
    }
  }

  /** Feeding a pass its own attachments keeps all of them. */
  lemma PassGrows(table: Table, tuis: Tuis, sticky: Claims)
    ensures Extends(Pass(table, tuis, sticky), Pass(table, tuis, Pass(table, tuis, sticky)))
  {
    var before := Pass(table, tuis, sticky);
    forall key | key in before
      ensures key in Pass(table, tuis, before) && Pass(table, tuis, before)[key] == before[key]
    {
      PassKeeps(table, tuis, sticky, before, key);
      PassMeansAttached(table, tuis, before, key);
    }
  }

  function Iterate(step: Claims -> Claims, start: Claims, n: nat): Claims {
    if n == 0 then start else step(Iterate(step, start, n - 1))
  }

  lemma ExtendsSize(before: Claims, after: Claims)
    requires Extends(before, after)
    ensures |before| <= |after|
    ensures |before| == |after| ==> before == after
  {
    SubsetSize(before.Keys, after.Keys);
    assert |before| == |before.Keys| && |after| == |after.Keys|;
  }

  lemma SubsetSize(a: set<TuiKey>, b: set<TuiKey>)
    requires a <= b
    ensures |a| <= |b|
    ensures |a| == |b| ==> a == b
  {
    assert |b| == |a| + |b - a| by {
      assert b == a + (b - a);
    }
  }

  ghost predicate Growing(step: Claims -> Claims, keys: set<TuiKey>) {
    && (forall x :: Extends(step(x), step(step(x))))
    && (forall x :: step(x).Keys <= keys)
  }

  lemma {:induction false} GrowthOrRest(step: Claims -> Claims, keys: set<TuiKey>, start: Claims, n: nat)
    requires n > 0 && Growing(step, keys)
    ensures || |Iterate(step, start, n)| >= n - 1
            || Iterate(step, start, n) == Iterate(step, start, n + 1)
  {
    if n > 1 {
      GrowthOrRest(step, keys, start, n - 1);
      var earlier := Iterate(step, start, n - 2);
      assert Extends(step(earlier), step(step(earlier)));
      ExtendsSize(step(earlier), step(step(earlier)));
    }
  }

  lemma {:induction false} IterationRests(step: Claims -> Claims, keys: set<TuiKey>, start: Claims, n: nat)
    requires Growing(step, keys) && n >= |keys| + 1
    ensures Iterate(step, start, n) == Iterate(step, start, |keys| + 1)
  {
    var bound := |keys| + 1;
    if n > bound {
      IterationRests(step, keys, start, n - 1);
      GrowthOrRest(step, keys, start, bound);
      var earlier := Iterate(step, start, bound - 1);
      var last := step(step(earlier));
      assert Extends(step(earlier), last) && last.Keys <= keys;
      SubsetSize(last.Keys, keys);
      assert |last| == |last.Keys|;
      ExtendsSize(step(earlier), last);
    }
  }

  function PassStep(table: Table, tuis: Tuis): Claims -> Claims {
    sticky => Pass(table, tuis, sticky)
  }

  lemma PassStepGrows(table: Table, tuis: Tuis)
    ensures Growing(PassStep(table, tuis), tuis.Keys)
  {
    var step := PassStep(table, tuis);
    forall x ensures Extends(step(x), step(step(x))) && step(x).Keys <= tuis.Keys {
      PassGrows(table, tuis, x);
      PassIsInjective(table, tuis, x);
    }
  }

  /** The attachments after `n` passes on unchanged TUIs and sessions. */
  function Passes(table: Table, tuis: Tuis, sticky: Claims, n: nat): Claims {
    Iterate(PassStep(table, tuis), sticky, n)
  }

  /** On unchanged input attachments are never lost or moved from the first pass on, and
      they are final after |tuis| + 1 passes. */
  lemma PassesConverge(table: Table, tuis: Tuis, sticky: Claims, n: nat)
    ensures n > 0 ==> Extends(Passes(table, tuis, sticky, n), Passes(table, tuis, sticky, n + 1))
    ensures n >= |tuis| + 1 ==> Passes(table, tuis, sticky, n) == Passes(table, tuis, sticky, |tuis| + 1)
  {
    var step := PassStep(table, tuis);
    PassStepGrows(table, tuis);
    if n > 0 {
      var earlier := Iterate(step, sticky, n - 1);
      assert Extends(step(earlier), step(step(earlier)));
    }
    assert |tuis| == |tuis.Keys|;
    if n >= |tuis| + 1 {
      IterationRests(step, tuis.Keys, sticky, n);
    }
  }

  // ---------- when one more pass changes nothing ----------

  /** The TUIs that neither a pass nor their own command line has placed. */
  function Open(table: Table, tuis: Tuis, attached: Claims): set<TuiKey> {
    set key | key in tuis && FreeOfOwnClaim(table, tuis, key) && key !in attached
  }

  /** Some open TUI has a single free root, and no other open TUI has it. */
  ghost predicate FreeMatch(table: Table, tuis: Tuis, attached: Claims, allowed: set<Id>) {
    exists key :: Reciprocal(table, tuis, Open(table, tuis, attached), allowed, attached.Values, key)
  }

  /** `stage` attaches exactly the `attached` pairs and leaves the open TUIs unresolved. */
  ghost predicate At(table: Table, tuis: Tuis, attached: Claims, stage: Stage) {
    && Sound(table, tuis, stage)
    && stage.attached == attached
    && tuis.Keys - Resolved(stage) == Open(table, tuis, attached)
  }

  /** Claims that repeat earlier attachments all win and restore them. */
  lemma ClaimsRestore(first: Stage, attached: Claims, claims: Claims)
    requires Injective(attached) && Extends(first.attached, attached)
    requires forall key :: key in claims <==> key in attached && key !in Resolved(first)
    requires forall key :: key in claims ==> claims[key] == attached[key]
    requires forall key :: key in attached && key in Resolved(first) ==> key in first.attached
    ensures Settle(first, claims) == Stage(attached, first.refused, first.missing)
  {
    var early := first.attached;
    assert forall owner :: owner in early ==> early[owner] == attached[owner];
    assert forall root :: root in early.Values ==> exists owner :: owner in early && early[owner] == root;
    forall key | key in claims ensures Wins(claims, early.Values, key) {
    }
    AllWin(claims, early.Values);
    WonIsFresh(claims, early.Values);
    assert Lost(claims, early.Values) == map[];
    assert early + claims == attached;
    assert first.refused + map[] == first.refused;
  }

  lemma EarlyAttached(table: Table, tuis: Tuis, sticky: Claims, key: TuiKey)
    requires key in Pass(table, tuis, sticky) && key in Resolved(ExplicitStage(table, tuis))
    ensures key in ExplicitStage(table, tuis).attached
  {
    PassIsInjective(table, tuis, sticky);
    PassMeansAttached(table, tuis, sticky, key);
    ResolutionsPersist(table, tuis, sticky, key);
  }

  lemma StickyStart(table: Table, tuis: Tuis, first: Stage, attached: Claims)
    requires Sound(table, tuis, first)
    requires Injective(attached) && attached.Keys <= tuis.Keys && attached.Values <= Roots(table)
    requires Extends(first.attached, attached)
    requires forall key :: key in attached && key in Resolved(first) ==> key in first.attached
    requires forall key :: key in tuis ==> (key in Resolved(first) <==> !FreeOfOwnClaim(table, tuis, key))
    ensures At(table, tuis, attached, Settle(first, StickyClaims(table, tuis, first, attached)))
  {
    var claims := StickyClaims(table, tuis, first, attached);
    StickyClaimsMeaning(table, tuis, first, attached);
    assert forall key :: key in attached ==> attached[key] in attached.Values;
    ClaimsRestore(first, attached, claims);
    SettleIsSound(table, tuis, first, claims);
  }

  /** The second pass starts its location phases where the first one ended. */
  lemma SecondPassStart(table: Table, tuis: Tuis, sticky: Claims, attached: Claims)
    requires attached == Pass(table, tuis, sticky)
    ensures At(table, tuis, attached, StickyStage(table, tuis, attached))
  {
    var first := ExplicitStage(table, tuis);
    StagesAreSound(table, tuis, sticky);
    PassIsInjective(table, tuis, sticky);
    forall key | key in attached && key in Resolved(first) ensures key in first.attached {
      EarlyAttached(table, tuis, sticky, key);
    }
    ExplicitStageMeaning(table, tuis);
    StickyStart(table, tuis, first, attached);
  }

  /** A reciprocal phase changes the stage exactly when a free match is left. */
  lemma PhaseAdds(table: Table, tuis: Tuis, stage: Stage, attached: Claims, allowed: set<Id>)
    requires At(table, tuis, attached, stage)
    ensures if FreeMatch(table, tuis, attached, allowed)
            then SettleReciprocal(table, tuis, stage, allowed).attached != attached
            else SettleReciprocal(table, tuis, stage, allowed) == stage
  {
    var open, used := tuis.Keys - Resolved(stage), attached.Values;
    var claims := ReciprocalClaims(table, tuis, open, allowed, used);
    ReciprocalClaimsMeaning(table, tuis, open, allowed, used);
    ReciprocalPhase(table, tuis, stage, allowed);
    if FreeMatch(table, tuis, attached, allowed) {
      var key :| Reciprocal(table, tuis, open, allowed, used, key);
      assert key in claims && key !in stage.attached;
      assert key in (stage.attached + claims);
    } else {
      assert claims == map[];
      NothingSettled(stage, claims);
    }
  }

  lemma NothingSettled(stage: Stage, claims: Claims)
    requires claims == map[]
    ensures Settle(stage, claims) == stage
  {
  }

  lemma ExtendsBack(a: Claims, b: Claims, c: Claims)
    requires Extends(a, b) && Extends(b, c) && a != b
    ensures a != c
  {
  }

  /** A pass is repeated without effect exactly when no free match is left, neither among
      all roots nor among the active ones. */
  lemma IdempotentIff(table: Table, tuis: Tuis, sticky: Claims)
    ensures var attached := Pass(table, tuis, sticky);
      Pass(table, tuis, attached) == attached <==>
      !FreeMatch(table, tuis, attached, Roots(table)) && !FreeMatch(table, tuis, attached, ActiveRoots(table))
  {
    var attached := Pass(table, tuis, sticky);
    SecondPassStart(table, tuis, sticky, attached);
    StagesAreSound(table, tuis, attached);
    RepeatIff(table, tuis, attached, StickyStage(table, tuis, attached), LocationStage(table, tuis, attached),
              FinalStage(table, tuis, attached), Roots(table), ActiveRoots(table));
  }

  lemma RepeatIff(table: Table, tuis: Tuis, attached: Claims, second: Stage, third: Stage, last: Stage, roots: set<Id>, active: set<Id>)
    requires At(table, tuis, attached, second)
    requires third == SettleReciprocal(table, tuis, second, roots)
    requires last == SettleReciprocal(table, tuis, third, active)
    requires Extends(second.attached, third.attached) && Extends(third.attached, last.attached)
    ensures last.attached == attached <==> !FreeMatch(table, tuis, attached, roots) && !FreeMatch(table, tuis, attached, active)
  {
    PhaseAdds(table, tuis, second, attached, roots);
    if third.attached != attached {
      ExtendsBack(attached, third.attached, last.attached);
    } else {
      PhaseAdds(table, tuis, third, attached, active);
    }
  }

  // ---------- one pass is not always enough ----------

  const HOME: Path := Path(true, ["home"])
  const WORK: Path := Path(true, ["work"])

  function SampleTable(): Table {
    map[1 := Session(1, "", "", None, Some(HOME), None, None, Idle, [], []),
        2 := Session(2, "", "", None, Some(WORK), None, None, Busy, [], [])]
  }

  const LEFT: TuiKey := TuiKey(10, 0)
  const RIGHT: TuiKey := TuiKey(20, 0)

  function SampleTuis(): Tuis {
    map[LEFT := Tui(LEFT, HOME, None, None, false, false),
        RIGHT := Tui(RIGHT, HOME, Some(WORK), None, false, false)]
  }

  /** One TUI sits at the idle root 1 alone, the other at it and at the busy root 2. */
  ghost predicate SampleShape(table: Table, tuis: Tuis, left: TuiKey, right: TuiKey) {
    && tuis.Keys == {left, right} && left != right
    && (forall key :: key in tuis ==> FreeOfOwnClaim(table, tuis, key))
    && LocationRoots(table, tuis[left]) == {1} && LocationRoots(table, tuis[right]) == {1, 2}
    && Roots(table) == {1, 2} && ActiveRoots(table) == {2}
  }

  ghost predicate Single(claims: Claims, key: TuiKey, root: Id) {
    claims.Keys == {key} && claims[key] == root
  }

  lemma SampleFacts()
    ensures SampleShape(SampleTable(), SampleTuis(), LEFT, RIGHT)
  {
  }

  /** Without claims of its own and without sticky entries, a pass starts empty-handed. */
  lemma QuietStart(table: Table, tuis: Tuis)
    requires forall key :: key in tuis ==> FreeOfOwnClaim(table, tuis, key)
    ensures At(table, tuis, map[], StickyStage(table, tuis, map[]))
  {
    StagesAreSound(table, tuis, map[]);
    ExplicitStageMeaning(table, tuis);
    QuietFrom(table, tuis, ExplicitStage(table, tuis));
  }

  lemma QuietFrom(table: Table, tuis: Tuis, first: Stage)
    requires Sound(table, tuis, first)
    requires forall key :: key in tuis ==> FreeOfOwnClaim(table, tuis, key) && key !in Resolved(first)
    ensures At(table, tuis, map[], Settle(first, StickyClaims(table, tuis, first, map[])))
  {
  }

  lemma SampleFree(table: Table, tuis: Tuis, left: TuiKey, right: TuiKey)
    requires SampleShape(table, tuis, left, right)
    ensures FreeRoots(table, tuis[left], Roots(table), {}) == {1}
    ensures FreeRoots(table, tuis[right], Roots(table), {}) == {1, 2}
    ensures FreeRoots(table, tuis[left], ActiveRoots(table), {}) == {}
    ensures FreeRoots(table, tuis[right], ActiveRoots(table), {}) == {2}
    ensures FreeRoots(table, tuis[left], Roots(table), {2}) == {1}
  {
  }

  lemma SampleNoMatch(table: Table, tuis: Tuis, left: TuiKey, right: TuiKey)
    requires SampleShape(table, tuis, left, right)
    ensures forall key :: !Reciprocal(table, tuis, {left, right}, Roots(table), {}, key)
  {
    SampleFree(table, tuis, left, right);
    assert |{1, 2}| == 2;
    assert 1 in FreeRoots(table, tuis[left], Roots(table), {}) && 1 in FreeRoots(table, tuis[right], Roots(table), {});
  }

  lemma OneOfTwo(table: Table, tuis: Tuis, left: TuiKey, right: TuiKey, allowed: set<Id>, used: set<Id>, root: Id)
    requires left in tuis && right in tuis && left != right
    requires FreeRoots(table, tuis[left], allowed, used) == {}
    requires FreeRoots(table, tuis[right], allowed, used) == {root}
    ensures !Reciprocal(table, tuis, {left, right}, allowed, used, left)
    ensures Reciprocal(table, tuis, {left, right}, allowed, used, right)
  {
  }

  lemma OneClaim(table: Table, tuis: Tuis, left: TuiKey, right: TuiKey, allowed: set<Id>, used: set<Id>, root: Id)
    requires left in tuis && right in tuis && left != right
    requires FreeRoots(table, tuis[right], allowed, used) == {root}
    requires !Reciprocal(table, tuis, {left, right}, allowed, used, left)
    requires Reciprocal(table, tuis, {left, right}, allowed, used, right)
    ensures Single(ReciprocalClaims(table, tuis, {left, right}, allowed, used), right, root)
  {
    ReciprocalClaimsMeaning(table, tuis, {left, right}, allowed, used);
    ClaimsOfTwo(ReciprocalClaims(table, tuis, {left, right}, allowed, used), left, right, root);
  }

  lemma ClaimsOfTwo(claims: Claims, left: TuiKey, right: TuiKey, root: Id)
    requires claims.Keys <= {left, right} && left !in claims && right in claims && {claims[right]} == {root}
    ensures Single(claims, right, root)
  {
  }

  lemma JoinNothing(none: Claims, claims: Claims)
    requires none.Keys == {}
    ensures none + claims == claims
  {
  }

  /** In the first pass only the TUI at the busy root is matched. */
  lemma SampleFirstPass(table: Table, tuis: Tuis, left: TuiKey, right: TuiKey, second: Stage, none: Claims)
    requires SampleShape(table, tuis, left, right) && At(table, tuis, none, second)
    requires none.Keys == {} && none.Values == {} && Open(table, tuis, none) == {left, right}
    ensures SettleReciprocal(table, tuis, second, Roots(table)) == second
    ensures Single(SettleReciprocal(table, tuis, second, ActiveRoots(table)).attached, right, 2)
  {
    SampleNoMatch(table, tuis, left, right);
    PhaseAdds(table, tuis, second, none, Roots(table));
    SampleSecondPhase(table, tuis, left, right, second, none);
  }

  lemma SampleSecondPhase(table: Table, tuis: Tuis, left: TuiKey, right: TuiKey, second: Stage, none: Claims)
    requires SampleShape(table, tuis, left, right) && At(table, tuis, none, second)
    requires none.Keys == {} && none.Values == {} && Open(table, tuis, none) == {left, right}
    ensures Single(SettleReciprocal(table, tuis, second, ActiveRoots(table)).attached, right, 2)
  {
    SampleFree(table, tuis, left, right);
    OneOfTwo(table, tuis, left, right, ActiveRoots(table), {}, 2);
    OneClaim(table, tuis, left, right, ActiveRoots(table), {}, 2);
    ReciprocalPhase(table, tuis, second, ActiveRoots(table));
    JoinNothing(none, ReciprocalClaims(table, tuis, {left, right}, ActiveRoots(table), {}));
  }

  lemma SampleLeavesMatch(table: Table, tuis: Tuis, left: TuiKey, right: TuiKey, attached: Claims)
    requires SampleShape(table, tuis, left, right) && Single(attached, right, 2)
    ensures FreeMatch(table, tuis, attached, Roots(table))
  {
    SampleFree(table, tuis, left, right);
    assert attached.Values == {2} by {
      assert attached[right] in attached.Values;
    }
    assert Open(table, tuis, attached) == {left};
    assert Reciprocal(table, tuis, {left}, Roots(table), {2}, left);
  }

  /** One pass is not idempotent: a later pass on the same input can attach more. */
  lemma OnePassIsNotEnough()
    ensures var first := Pass(SampleTable(), SampleTuis(), map[]);
      Pass(SampleTable(), SampleTuis(), first) != first
  {
    SampleFacts();
    SampleNeedsMore(SampleTable(), SampleTuis(), LEFT, RIGHT);
  }

  lemma SampleNeedsMore(table: Table, tuis: Tuis, left: TuiKey, right: TuiKey)
    requires SampleShape(table, tuis, left, right)
    ensures Pass(table, tuis, Pass(table, tuis, map[])) != Pass(table, tuis, map[])
  {
    QuietStart(table, tuis);
    var none: Claims := map[];
    assert Open(table, tuis, none) == {left, right};
    SampleFirstPass(table, tuis, left, right, StickyStage(table, tuis, none), none);
    IdempotentIff(table, tuis, none);
    SampleLeavesMatch(table, tuis, left, right, Pass(table, tuis, none));
  }
}
