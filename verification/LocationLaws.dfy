/** Where a session lies, which TUIs attach by location, and what an unattached TUI is told,
    in terms of what sessions and TUIs say of themselves. */
module LocationLaws {
  import opened Wrappers
  import opened Sessions
  import opened Aggregates
  import opened Matching
  import opened MatchingLaws
  import opened Matcher

  // ---------- candidates ----------

  /** A TUI runs in its working directory and at its startup directory, which is taken from
      the working directory if it is relative. */
  predicate RunsAt(tui: Tui, place: Path) {
    || place == tui.cwd
    || (tui.startup.Some? && tui.startup.value.absolute && place == tui.startup.value)
    || (tui.startup.Some? && !tui.startup.value.absolute && place == Path(tui.cwd.absolute, tui.cwd.parts + tui.startup.value.parts))
  }

  ghost predicate Candidate(table: Table, tui: Tui, root: Id) {
    exists id, place :: (id in table && RootOf(table, id) == root && RunsAt(tui, place)
                         && (table[id].directory == Some(place) || table[id].workspace == Some(place)))
  }

  /** The location roots are the roots of the sessions whose directory or workspace is a
      place where the TUI runs. */
  lemma CandidatesAreLocated(table: Table, tui: Tui, root: Id)
    ensures root in LocationRoots(table, tui) <==> Candidate(table, tui, root)
  {
    if root in LocationRoots(table, tui) {
      var id :| id in table && SessionAt(table[id], tui) && RootOf(table, id) == root;
      var places := [tui.cwd] + if tui.startup.Some? then [JoinPath(tui.cwd, tui.startup.value)] else [];
      assert RunsAt(tui, places[0]) && (tui.startup.Some? ==> RunsAt(tui, places[1]));
    }
  }

  lemma OneCandidate(table: Table, tui: Tui, root: Id)
    requires Candidate(table, tui, root) && forall other: Id :: Candidate(table, tui, other) ==> other == root
    ensures LocationRoots(table, tui) == {root}
  {
    forall other: Id ensures other in LocationRoots(table, tui) <==> other == root {
      CandidatesAreLocated(table, tui, other);
    }
  }

  // ---------- a match by location ----------

  /** The TUI names no session and asks for none. */
  predicate Unasking(tui: Tui) {
    tui.explicitSession.None? && !tui.continueSession
  }

  /** Nobody else lays hands on `root`. */
  ghost predicate Unrivalled(table: Table, tuis: Tuis, sticky: Claims, key: TuiKey, root: Id) {
    forall other :: other in tuis && other != key ==>
      && !Candidate(table, tuis[other], root)
      && (other in sticky ==> sticky[other] != root)
      && (tuis[other].explicitSession.Some? && tuis[other].explicitSession.value in table ==>
            RootOf(table, tuis[other].explicitSession.value) != root)
  }

  lemma OwnClaimIsCandidate(table: Table, tui: Tui, root: Id)
    requires OwnClaim(table, tui) == Some(root) && tui.explicitSession.None?
    ensures Candidate(table, tui, root)
  {
    CandidatesAreLocated(table, tui, root);
  }

  lemma NotUsedEarly(table: Table, tuis: Tuis, sticky: Claims, key: TuiKey, root: Id)
    requires key in tuis && Unasking(tuis[key]) && key !in sticky && Unrivalled(table, tuis, sticky, key, root)
    ensures root !in StickyStage(table, tuis, sticky).attached.Values
    ensures key !in Resolved(StickyStage(table, tuis, sticky))
  {
    var own, first := OwnClaims(table, tuis), ExplicitStage(table, tuis);
    OwnClaimsMeaning(table, tuis);
    forall other | other in own ensures own[other] != root {
      if own[other] == root && tuis[other].explicitSession.None? {
        OwnClaimIsCandidate(table, tuis[other], root);
      }
    }
    SettleIsSound(table, tuis, StartStage(table, tuis), own);
    SettledValues(StartStage(table, tuis), own, root);
    var kept := StickyClaims(table, tuis, first, sticky);
    StickyClaimsMeaning(table, tuis, first, sticky);
    SettleIsSound(table, tuis, first, kept);
    SettledValues(first, kept, root);
  }

  lemma SettledValues(stage: Stage, claims: Claims, root: Id)
    requires root !in stage.attached.Values && forall other :: other in claims ==> claims[other] != root
    ensures root !in Settle(stage, claims).attached.Values
  {
  }

  /** A TUI that asks for nothing attaches to the one root at its place if nobody else lies
      there, names it or held it before. */
  lemma LocatedAttaches(table: Table, tuis: Tuis, sticky: Claims, key: TuiKey, root: Id)
    requires key in tuis && Unasking(tuis[key]) && key !in sticky
    requires Candidate(table, tuis[key], root) && forall other: Id :: Candidate(table, tuis[key], other) ==> other == root
    requires Unrivalled(table, tuis, sticky, key, root)
    ensures Resolve(table, tuis, sticky, key) == Attached(root)
  {
    var stage := StickyStage(table, tuis, sticky);
    var open, used := tuis.Keys - Resolved(stage), stage.attached.Values;
    NotUsedEarly(table, tuis, sticky, key, root);
    OneCandidate(table, tuis[key], root);
    FreeByLocation(table, tuis, sticky, open, used, key, root);
    StagesAreSound(table, tuis, sticky);
    ReciprocalClaimsMeaning(table, tuis, open, Roots(table), used);
    ReciprocalPhase(table, tuis, stage, Roots(table));
    AttachedBy(table, tuis, sticky, ReciprocalClaims(table, tuis, open, Roots(table), used), key, root);
  }

  lemma FreeByLocation(table: Table, tuis: Tuis, sticky: Claims, open: set<TuiKey>, used: set<Id>, key: TuiKey, root: Id)
    requires key in tuis && key in open && root !in used && LocationRoots(table, tuis[key]) == {root}
    requires Unrivalled(table, tuis, sticky, key, root)
    ensures Reciprocal(table, tuis, open, Roots(table), used, key)
    ensures FreeRoots(table, tuis[key], Roots(table), used) == {root}
  {
    assert root in LocationRoots(table, tuis[key]);
    assert FreeRoots(table, tuis[key], Roots(table), used) == {root};
    FreeOfOthers(table, tuis, sticky, open, Roots(table), used, key, root);
  }

  lemma AttachedBy(table: Table, tuis: Tuis, sticky: Claims, claims: Claims, key: TuiKey, root: Id)
    requires key in tuis && key in claims && claims[key] == root
    requires LocationStage(table, tuis, sticky).attached == StickyStage(table, tuis, sticky).attached + claims
    ensures Resolve(table, tuis, sticky, key) == Attached(root)
  {
    StagesAreSound(table, tuis, sticky);
    assert LocationStage(table, tuis, sticky).attached[key] == root;
    PassMeansAttached(table, tuis, sticky, key);
  }

  // ---------- the newest and the working ----------

  predicate WorksBelow(table: Table, root: Id) {
    exists id :: id in table && RootOf(table, id) == root && (table[id].status == Busy || table[id].status == Retry)
  }

  ghost predicate OnlyWorking(table: Table, tui: Tui, root: Id) {
    && Candidate(table, tui, root) && WorksBelow(table, root)
    && forall other: Id :: Candidate(table, tui, other) && other != root ==> !WorksBelow(table, other)
  }

  ghost predicate IsRival(table: Table, tui: Tui, root: Id, other: Id) {
    other in table && RootOf(table, other) != root && Candidate(table, tui, RootOf(table, other)) && table[other].updated.Some?
  }

  /** The session `id` below `root` was updated later than every session below another
      candidate. */
  ghost predicate Leads(table: Table, tui: Tui, root: Id, id: Id) {
    && id in table && RootOf(table, id) == root && table[id].updated.Some?
    && forall other :: IsRival(table, tui, root, other) ==> table[other].updated.value < table[id].updated.value
  }

  ghost predicate StrictlyNewest(table: Table, tui: Tui, root: Id) {
    Candidate(table, tui, root) && exists id :: Leads(table, tui, root, id)
  }

  /** The last update below `root`. */
  lemma {:induction false} LastUpdate(table: Table, root: Id, ids: set<Id>, some: Id) returns (last: Id)
    requires some in ids && ids <= table.Keys && RootOf(table, some) == root && table[some].updated.Some?
    ensures last in table && RootOf(table, last) == root && table[last].updated.Some?
    ensures forall id :: id in ids && RootOf(table, id) == root && table[id].updated.Some? ==>
              table[id].updated.value <= table[last].updated.value
    decreases |ids|
  {
    if id :| id in ids && id != some && RootOf(table, id) == root && table[id].updated.Some?
             && table[id].updated.value >= table[some].updated.value {
      last := LastUpdate(table, root, ids - {some}, id);
    } else {
      last := some;
    }
  }

  lemma NewestIsStrict(table: Table, tui: Tui, root: Id)
    ensures IsNewest(table, LocationRoots(table, tui), root) <==> StrictlyNewest(table, tui, root)
  {
    var roots := LocationRoots(table, tui);
    forall r: Id ensures r in roots <==> Candidate(table, tui, r) {
      CandidatesAreLocated(table, tui, r);
    }
    if IsNewest(table, roots, root) {
      var some :| some in table && RootOf(table, some) == root && table[some].updated.Some?;
      var last := LastUpdate(table, root, table.Keys, some);
      forall other | IsRival(table, tui, root, other) ensures table[other].updated.value < table[last].updated.value {
        assert UpdatedAfter(table, root, RootOf(table, other));
      }
      assert Leads(table, tui, root, last);
    }
    if StrictlyNewest(table, tui, root) {
      var id :| Leads(table, tui, root, id);
      forall other | other in roots && other != root ensures UpdatedAfter(table, root, other) {
      }
    }
  }

  lemma ActiveMeansWorks(table: Table, root: Id)
    ensures root in ActiveRoots(table) <==> WorksBelow(table, root)
  {
  }

  /** A TUI that asks for nothing attaches to the only working root among its candidates if
      nobody else lies there, names it or held it before, however many candidates it has. */
  lemma WorkingAttaches(table: Table, tuis: Tuis, sticky: Claims, key: TuiKey, root: Id)
    requires key in tuis && Unasking(tuis[key]) && key !in sticky
    requires OnlyWorking(table, tuis[key], root) && Unrivalled(table, tuis, sticky, key, root)
    ensures Resolve(table, tuis, sticky, key) == Attached(root)
  {
    var second, third := StickyStage(table, tuis, sticky), LocationStage(table, tuis, sticky);
    NotUsedEarly(table, tuis, sticky, key, root);
    StagesAreSound(table, tuis, sticky);
    StillFree(table, tuis, sticky, second, key, root);
    PassMeansAttached(table, tuis, sticky, key);
    if key in third.attached {
      assert Pass(table, tuis, sticky)[key] == third.attached[key];
    } else {
      NotRefusedYet(table, tuis, second, key);
      OneWorking(table, tuis[key], root, third.attached.Values);
      FreeOfOthers(table, tuis, sticky, tuis.Keys - Resolved(third), ActiveRoots(table), third.attached.Values, key, root);
      ReciprocalClaimsMeaning(table, tuis, tuis.Keys - Resolved(third), ActiveRoots(table), third.attached.Values);
      ReciprocalPhase(table, tuis, third, ActiveRoots(table));
    }
  }

  /** The phase by location leaves `root` free, or gives it to the TUI. */
  lemma StillFree(table: Table, tuis: Tuis, sticky: Claims, stage: Stage, key: TuiKey, root: Id)
    requires Sound(table, tuis, stage) && key in tuis && key !in Resolved(stage) && root !in stage.attached.Values
    requires Candidate(table, tuis[key], root) && Unrivalled(table, tuis, sticky, key, root)
    ensures var after := SettleReciprocal(table, tuis, stage, Roots(table));
      if key in after.attached then after.attached[key] == root else root !in after.attached.Values
  {
    var open, used := tuis.Keys - Resolved(stage), stage.attached.Values;
    ReciprocalPhase(table, tuis, stage, Roots(table));
    OnlyItsOwn(table, tuis, sticky, open, used, key, root);
    JoinedFree(stage.attached, ReciprocalClaims(table, tuis, open, Roots(table), used), key, root);
  }

  lemma OnlyItsOwn(table: Table, tuis: Tuis, sticky: Claims, open: set<TuiKey>, used: set<Id>, key: TuiKey, root: Id)
    requires key in tuis && root !in used && Candidate(table, tuis[key], root) && Unrivalled(table, tuis, sticky, key, root)
    ensures var claims := ReciprocalClaims(table, tuis, open, Roots(table), used);
      forall other :: other in claims ==> (claims[other] == root <==> other == key)
  {
    var claims := ReciprocalClaims(table, tuis, open, Roots(table), used);
    ReciprocalClaimsMeaning(table, tuis, open, Roots(table), used);
    forall other | other in claims ensures claims[other] == root <==> other == key {
      CandidatesAreLocated(table, tuis[other], root);
      assert root in FreeRoots(table, tuis[other], Roots(table), used) <==> root == claims[other];
    }
  }

  lemma JoinedFree(attached: Claims, claims: Claims, key: TuiKey, root: Id)
    requires key !in attached && root !in attached.Values
    requires forall other :: other in claims ==> (claims[other] == root <==> other == key)
    ensures var after := attached + claims;
      if key in after then after[key] == root else root !in after.Values
  {
  }

  lemma NotRefusedYet(table: Table, tuis: Tuis, stage: Stage, key: TuiKey)
    requires key !in Resolved(stage) && key !in SettleReciprocal(table, tuis, stage, Roots(table)).attached
    ensures key !in Resolved(SettleReciprocal(table, tuis, stage, Roots(table)))
  {
    var open, used := tuis.Keys - Resolved(stage), stage.attached.Values;
    ReciprocalClaimsMeaning(table, tuis, open, Roots(table), used);
    NoneRefused(stage, ReciprocalClaims(table, tuis, open, Roots(table), used), key);
  }

  lemma OneWorking(table: Table, tui: Tui, root: Id, used: set<Id>)
    requires OnlyWorking(table, tui, root) && root !in used
    ensures FreeRoots(table, tui, ActiveRoots(table), used) == {root}
  {
    forall other: Id ensures other in LocationRoots(table, tui) * ActiveRoots(table) <==> other == root {
      CandidatesAreLocated(table, tui, other);
      ActiveMeansWorks(table, other);
    }
  }

  lemma FreeOfOthers(table: Table, tuis: Tuis, sticky: Claims, open: set<TuiKey>, allowed: set<Id>, used: set<Id>, key: TuiKey, root: Id)
    requires key in tuis && key in open && FreeRoots(table, tuis[key], allowed, used) == {root}
    requires Unrivalled(table, tuis, sticky, key, root)
    ensures Reciprocal(table, tuis, open, allowed, used, key)
  {
    forall other | other in open && other in tuis && other != key
      ensures FreeRoots(table, tuis[key], allowed, used) !! FreeRoots(table, tuis[other], allowed, used)
    {
      CandidatesAreLocated(table, tuis[other], root);
    }
  }

  // ---------- what an unattached TUI is told ----------

  ghost predicate Hints(table: Table, tui: Tui, hint: Option<Id>) {
    forall root: Id :: hint == Some(root) <==>
      || OnlyWorking(table, tui, root)
      || (StrictlyNewest(table, tui, root) && !exists other: Id :: OnlyWorking(table, tui, other))
  }

  ghost predicate Several(table: Table, tui: Tui) {
    exists one: Id, other: Id :: one != other && Candidate(table, tui, one) && Candidate(table, tui, other)
  }

  /** What is said of a TUI that names no session and could not be attached. */
  ghost predicate ToldAbout(table: Table, tui: Tui, resolution: Resolution) {
    && (Several(table, tui) ==> resolution.Unresolved? && resolution.ambiguous && Hints(table, tui, resolution.hint))
    && ((forall root: Id :: !Candidate(table, tui, root)) ==> resolution == Unresolved(false, None))
    && forall root: Id :: Candidate(table, tui, root) && !Several(table, tui) ==> resolution == Unresolved(true, Some(root))
  }

  lemma OnlyWorkingIsOnly(table: Table, tui: Tui, root: Id)
    ensures var active := LocationRoots(table, tui) * ActiveRoots(table);
      OnlyWorking(table, tui, root) <==> |active| == 1 && root in active
  {
    var active := LocationRoots(table, tui) * ActiveRoots(table);
    forall r: Id ensures r in active <==> Candidate(table, tui, r) && WorksBelow(table, r) {
      CandidatesAreLocated(table, tui, r);
      ActiveMeansWorks(table, r);
    }
    if OnlyWorking(table, tui, root) {
      assert active == {root};
    }
    if |active| == 1 && root in active {
      assert active == {Only(active)};
    }
  }

  lemma HintIsRight(table: Table, tui: Tui)
    ensures var roots := LocationRoots(table, tui);
      var active := roots * ActiveRoots(table);
      Hints(table, tui, if |active| == 1 then Some(Only(active)) else NewestRoot(table, roots))
  {
    var roots := LocationRoots(table, tui);
    var active := roots * ActiveRoots(table);
    var hint := if |active| == 1 then Some(Only(active)) else NewestRoot(table, roots);
    forall root: Id
      ensures hint == Some(root) <==>
              || OnlyWorking(table, tui, root)
              || (StrictlyNewest(table, tui, root) && !exists other: Id :: OnlyWorking(table, tui, other))
    {
      OnlyWorkingIsOnly(table, tui, root);
      NewestIsStrict(table, tui, root);
      if |active| == 1 {
        OnlyWorkingIsOnly(table, tui, Only(active));
      } else {
        forall other: Id ensures !OnlyWorking(table, tui, other) {
          OnlyWorkingIsOnly(table, tui, other);
        }
        if IsNewest(table, roots, root) {
          NewestUnique(table, roots, root, NewestRoot(table, roots).value);
        }
      }
    }
  }

  lemma AllCandidates(table: Table, tui: Tui)
    ensures forall root: Id :: Candidate(table, tui, root) <==> root in LocationRoots(table, tui)
  {
    forall root: Id ensures Candidate(table, tui, root) <==> root in LocationRoots(table, tui) {
      CandidatesAreLocated(table, tui, root);
    }
  }

  lemma SeveralMeansSize(table: Table, tui: Tui)
    ensures Several(table, tui) <==> |LocationRoots(table, tui)| > 1
  {
    SeveralMeansTwo(table, tui);
    SizeOfTwo(LocationRoots(table, tui));
  }

  ghost predicate HasTwo(roots: set<Id>) {
    exists one: Id, other: Id :: one != other && one in roots && other in roots
  }

  lemma SeveralMeansTwo(table: Table, tui: Tui)
    ensures Several(table, tui) <==> HasTwo(LocationRoots(table, tui))
  {
    AllCandidates(table, tui);
    if HasTwo(LocationRoots(table, tui)) {
      var one: Id, other: Id :| one != other && one in LocationRoots(table, tui) && other in LocationRoots(table, tui);
      assert Candidate(table, tui, one) && Candidate(table, tui, other);
    }
  }

  lemma SizeOfTwo(roots: set<Id>)
    ensures HasTwo(roots) <==> |roots| > 1
  {
    if HasTwo(roots) {
      var one: Id, other: Id :| one != other && one in roots && other in roots;
      SubsetOfIds({one, other}, roots);
    }
    if |roots| > 1 {
      var one, other := TwoOf(roots);
    }
  }

  lemma TwoOf(roots: set<Id>) returns (one: Id, other: Id)
    requires |roots| > 1
    ensures one in roots && other in roots && one != other
  {
    one :| one in roots;
    assert |roots - {one}| == |roots| - 1;
    other :| other in roots - {one};
  }

  lemma SubsetOfIds(a: set<Id>, b: set<Id>)
    requires a <= b
    ensures |a| <= |b|
  {
    assert b == a + (b - a);
  }

  lemma DemotedIsTold(table: Table, tui: Tui)
    requires Unasking(tui)
    ensures ToldAbout(table, tui, Demote(ResolveTui(table, tui)))
  {
    SeveralMeansSize(table, tui);
    AllCandidates(table, tui);
    HintIsRight(table, tui);
    var roots := LocationRoots(table, tui);
    if |roots| == 1 {
      assert roots == {Only(roots)};
    }
  }

  /** Only claims of command lines and sticky entries are ever refused. */
  lemma NotRefused(table: Table, tuis: Tuis, sticky: Claims, key: TuiKey)
    requires key in tuis && Unasking(tuis[key]) && key !in sticky
    ensures key !in FinalStage(table, tuis, sticky).refused && key !in FinalStage(table, tuis, sticky).missing
  {
    var own, first, second, third := OwnClaims(table, tuis), ExplicitStage(table, tuis), StickyStage(table, tuis, sticky),
                                     LocationStage(table, tuis, sticky);
    OwnClaimsMeaning(table, tuis);
    StickyClaimsMeaning(table, tuis, first, sticky);
    ReciprocalClaimsMeaning(table, tuis, tuis.Keys - Resolved(second), Roots(table), second.attached.Values);
    ReciprocalClaimsMeaning(table, tuis, tuis.Keys - Resolved(third), ActiveRoots(table), third.attached.Values);
    NoneRefused(second, ReciprocalClaims(table, tuis, tuis.Keys - Resolved(second), Roots(table), second.attached.Values), key);
    NoneRefused(third, ReciprocalClaims(table, tuis, tuis.Keys - Resolved(third), ActiveRoots(table), third.attached.Values), key);
  }

  lemma NoneRefused(stage: Stage, claims: Claims, key: TuiKey)
    requires Won(claims, stage.attached.Values) == claims && key !in stage.refused && key !in stage.missing
    ensures key !in Settle(stage, claims).refused && key !in Settle(stage, claims).missing
  {
    WonIsFresh(claims, stage.attached.Values);
  }

  /** A TUI that asks for nothing and is not attached is told its place: no candidate, the
      one that others contest, or several with a hint to the only working one or else the
      strictly newest one. */
  lemma UnattachedIsTold(table: Table, tuis: Tuis, sticky: Claims, key: TuiKey)
    requires key in tuis && Unasking(tuis[key]) && key !in sticky
    requires !Resolve(table, tuis, sticky, key).Attached?
    ensures ToldAbout(table, tuis[key], Resolve(table, tuis, sticky, key))
  {
    NotRefused(table, tuis, sticky, key);
    DemotedIsTold(table, tuis[key]);
    PassMeansAttached(table, tuis, sticky, key);
  }

  /** Such a TUI is only ever attached to a root at its place. */
  lemma AttachedLies(table: Table, tuis: Tuis, sticky: Claims, key: TuiKey)
    requires key in tuis && Unasking(tuis[key]) && key !in sticky
    requires Resolve(table, tuis, sticky, key).Attached?
    ensures Candidate(table, tuis[key], Resolve(table, tuis, sticky, key).root)
  {
    PassMeansAttached(table, tuis, sticky, key);
    NotAttachedEarly(table, tuis, sticky, key);
    StagesAreSound(table, tuis, sticky);
    FromReciprocal(table, tuis, StickyStage(table, tuis, sticky), Roots(table), key);
    FromReciprocal(table, tuis, LocationStage(table, tuis, sticky), ActiveRoots(table), key);
    CandidatesAreLocated(table, tuis[key], Pass(table, tuis, sticky)[key]);
  }

  lemma NotAttachedEarly(table: Table, tuis: Tuis, sticky: Claims, key: TuiKey)
    requires key in tuis && Unasking(tuis[key]) && key !in sticky
    ensures key !in StickyStage(table, tuis, sticky).attached
  {
    OwnClaimsMeaning(table, tuis);
    StickyClaimsMeaning(table, tuis, ExplicitStage(table, tuis), sticky);
  }

  lemma FromReciprocal(table: Table, tuis: Tuis, stage: Stage, allowed: set<Id>, key: TuiKey)
    requires Sound(table, tuis, stage)
    ensures var after := SettleReciprocal(table, tuis, stage, allowed);
      key in after.attached ==>
        if key in stage.attached then after.attached[key] == stage.attached[key]
        else key in tuis && after.attached[key] in LocationRoots(table, tuis[key])
  {
    var open, used := tuis.Keys - Resolved(stage), stage.attached.Values;
    ReciprocalPhase(table, tuis, stage, allowed);
    ReciprocalClaimsMeaning(table, tuis, open, allowed, used);
    var claims := ReciprocalClaims(table, tuis, open, allowed, used);
    if key in claims {
      assert claims[key] in FreeRoots(table, tuis[key], allowed, used);
    }
  }

  // ---------- what an attachment means ----------

  ghost predicate OthersAreHeld(table: Table, tui: Tui, root: Id, held: Claims) {
    forall other: Id :: Candidate(table, tui, other) && other != root ==> other in held.Values
  }

  ghost predicate OtherWorkIsHeld(table: Table, tui: Tui, root: Id, held: Claims) {
    WorksBelow(table, root) && forall other: Id :: Candidate(table, tui, other) && other != root && WorksBelow(table, other) ==> other in held.Values
  }

  /** The TUIs that ask for nothing, held nothing and are left without an attachment. */
  function Left(tuis: Tuis, sticky: Claims, held: Claims): set<TuiKey> {
    set key | key in tuis && Unasking(tuis[key]) && key !in sticky && key !in held
  }

  ghost predicate Found(table: Table, tuis: Tuis, key: TuiKey, root: Id, allowed: set<Id>, held: Claims, stage: Stage) {
    && key in tuis && root in LocationRoots(table, tuis[key]) && root in allowed
    && (forall other: Id :: other in LocationRoots(table, tuis[key]) && other in allowed && other != root ==> other in held.Values)
    && (forall other :: other in tuis && other != key && other !in Resolved(stage) ==> root !in LocationRoots(table, tuis[other]))
  }

  lemma OnlyFree(table: Table, tuis: Tuis, open: set<TuiKey>, allowed: set<Id>, used: set<Id>, key: TuiKey, root: Id)
    requires Reciprocal(table, tuis, open, allowed, used, key) && FreeRoots(table, tuis[key], allowed, used) == {root}
    ensures root in LocationRoots(table, tuis[key]) && root in allowed
    ensures forall other: Id :: other in LocationRoots(table, tuis[key]) && other in allowed && other != root ==> other in used
    ensures forall other :: other in tuis && other != key && other in open ==> root !in LocationRoots(table, tuis[other])
  {
    var free := FreeRoots(table, tuis[key], allowed, used);
    forall other: Id | other in LocationRoots(table, tuis[key]) && other in allowed && other != root ensures other in used {
      assert other !in free;
    }
    assert root in free;
    forall other | other in tuis && other != key && other in open ensures root !in LocationRoots(table, tuis[other]) {
      assert root !in FreeRoots(table, tuis[other], allowed, used);
    }
  }

  /** What a phase that matches by location attaches has no free rival. */
  lemma PhaseFinds(table: Table, tuis: Tuis, stage: Stage, allowed: set<Id>, held: Claims, key: TuiKey)
    requires Sound(table, tuis, stage) && key !in stage.attached && stage.attached.Values <= held.Values
    requires key in SettleReciprocal(table, tuis, stage, allowed).attached
    ensures Found(table, tuis, key, SettleReciprocal(table, tuis, stage, allowed).attached[key], allowed, held, stage)
  {
    var open, used := tuis.Keys - Resolved(stage), stage.attached.Values;
    ReciprocalPhase(table, tuis, stage, allowed);
    ReciprocalClaimsMeaning(table, tuis, open, allowed, used);
    OnlyFree(table, tuis, open, allowed, used, key, ReciprocalClaims(table, tuis, open, allowed, used)[key]);
  }

  lemma FoundMeans(table: Table, tuis: Tuis, key: TuiKey, root: Id, allowed: set<Id>, held: Claims, stage: Stage)
    requires Found(table, tuis, key, root, allowed, held, stage)
    requires allowed == Roots(table) || allowed == ActiveRoots(table)
    ensures OthersAreHeld(table, tuis[key], root, held) || OtherWorkIsHeld(table, tuis[key], root, held)
    ensures forall other :: other in tuis && other != key && other !in Resolved(stage) ==> !Candidate(table, tuis[other], root)
  {
    AllCandidates(table, tuis[key]);
    forall other: Id ensures other in ActiveRoots(table) <==> WorksBelow(table, other) {
      ActiveMeansWorks(table, other);
    }
    forall other | other in tuis && other != key && other !in Resolved(stage) ensures !Candidate(table, tuis[other], root) {
      AllCandidates(table, tuis[other]);
    }
  }

  ghost predicate LeavesNoChoice(table: Table, tuis: Tuis, left: set<TuiKey>, held: Claims, key: TuiKey) {
    && key in held && key in tuis
    && (OthersAreHeld(table, tuis[key], held[key], held) || OtherWorkIsHeld(table, tuis[key], held[key], held))
    && forall other :: other in left && other in tuis && other != key ==> !Candidate(table, tuis[other], held[key])
  }

  ghost predicate NoChoice(table: Table, tuis: Tuis, sticky: Claims, key: TuiKey) {
    LeavesNoChoice(table, tuis, Left(tuis, sticky, Pass(table, tuis, sticky)), Pass(table, tuis, sticky), key)
  }

  lemma AttachedThird(table: Table, tuis: Tuis, sticky: Claims, key: TuiKey)
    requires key in tuis && Unasking(tuis[key]) && key !in sticky && key in LocationStage(table, tuis, sticky).attached
    ensures NoChoice(table, tuis, sticky, key)
  {
    var held := Pass(table, tuis, sticky);
    StagesAreSound(table, tuis, sticky);
    NotAttachedEarly(table, tuis, sticky, key);
    LeftAreOpen(table, tuis, sticky);
    FoundInPhase(table, tuis, StickyStage(table, tuis, sticky), Roots(table), LocationStage(table, tuis, sticky),
                 Left(tuis, sticky, held), held, key);
  }

  lemma AttachedFourth(table: Table, tuis: Tuis, sticky: Claims, key: TuiKey)
    requires key in Pass(table, tuis, sticky) && key !in LocationStage(table, tuis, sticky).attached
    ensures NoChoice(table, tuis, sticky, key)
  {
    var third, last := LocationStage(table, tuis, sticky), FinalStage(table, tuis, sticky);
    LastStages(table, tuis, sticky);
    InFourthPhase(table, tuis, third, last, Left(tuis, sticky, last.attached), key);
  }

  lemma LastStages(table: Table, tuis: Tuis, sticky: Claims)
    ensures Sound(table, tuis, LocationStage(table, tuis, sticky))
    ensures Extends(LocationStage(table, tuis, sticky).attached, FinalStage(table, tuis, sticky).attached)
    ensures Left(tuis, sticky, FinalStage(table, tuis, sticky).attached) !! Resolved(LocationStage(table, tuis, sticky))
  {
    StagesAreSound(table, tuis, sticky);
    LeftAreOpen(table, tuis, sticky);
  }

  lemma InFourthPhase(table: Table, tuis: Tuis, third: Stage, last: Stage, left: set<TuiKey>, key: TuiKey)
    requires Sound(table, tuis, third) && last == SettleReciprocal(table, tuis, third, ActiveRoots(table))
    requires key in last.attached && key !in third.attached
    requires Extends(third.attached, last.attached) && left !! Resolved(third)
    ensures LeavesNoChoice(table, tuis, left, last.attached, key)
  {
    FoundInPhase(table, tuis, third, ActiveRoots(table), last, left, last.attached, key);
  }

  /** A match by location leaves no choice and takes nothing from anybody: every other root at
      the TUI's place is held, or every other one at work if this one works, and nobody who is
      left has this one at its place. */
  lemma AttachedOnlyIf(table: Table, tuis: Tuis, sticky: Claims, key: TuiKey)
    requires key in tuis && Unasking(tuis[key]) && key !in sticky && key in Pass(table, tuis, sticky)
    ensures NoChoice(table, tuis, sticky, key)
  {
    if key in LocationStage(table, tuis, sticky).attached {
      AttachedThird(table, tuis, sticky, key);
    } else {
      AttachedFourth(table, tuis, sticky, key);
    }
  }

  lemma LeftAreOpen(table: Table, tuis: Tuis, sticky: Claims)
    ensures Left(tuis, sticky, Pass(table, tuis, sticky)) !! Resolved(FinalStage(table, tuis, sticky))
  {
    forall other | other in Left(tuis, sticky, Pass(table, tuis, sticky)) ensures other !in Resolved(FinalStage(table, tuis, sticky)) {
      NotRefused(table, tuis, sticky, other);
    }
  }

  lemma FoundInPhase(table: Table, tuis: Tuis, stage: Stage, allowed: set<Id>, after: Stage, left: set<TuiKey>,
                     held: Claims, key: TuiKey)
    requires Sound(table, tuis, stage) && key !in stage.attached && (allowed == Roots(table) || allowed == ActiveRoots(table))
    requires left !! Resolved(stage)
    requires after == SettleReciprocal(table, tuis, stage, allowed) && key in after.attached
    requires Extends(stage.attached, held) && Extends(after.attached, held)
    ensures LeavesNoChoice(table, tuis, left, held, key)
  {
    forall root: Id | root in stage.attached.Values ensures root in held.Values {
      var k :| k in stage.attached && stage.attached[k] == root;
      assert held[k] == root;
    }
    PhaseFinds(table, tuis, stage, allowed, held, key);
    FoundMeans(table, tuis, key, held[key], allowed, held, stage);
  }

  // ---------- --continue ----------

  /** No other command line can ask for `root`. */
  ghost predicate UnclaimedByOthers(table: Table, tuis: Tuis, key: TuiKey, root: Id) {
    forall other :: other in tuis && other != key ==>
      if tuis[other].explicitSession.Some?
      then tuis[other].explicitSession.value in table ==> RootOf(table, tuis[other].explicitSession.value) != root
      else tuis[other].continueSession ==> !Candidate(table, tuis[other], root)
  }

  /** A TUI that continues attaches to its only candidate, or to the strictly newest of
      several, whatever the sticky entries say, if no other command line asks for it. */
  lemma ContinueAttaches(table: Table, tuis: Tuis, sticky: Claims, key: TuiKey, root: Id)
    requires key in tuis && tuis[key].explicitSession.None? && tuis[key].continueSession
    requires Candidate(table, tuis[key], root)
    requires Several(table, tuis[key]) ==> StrictlyNewest(table, tuis[key], root)
    requires UnclaimedByOthers(table, tuis, key, root)
    ensures Resolve(table, tuis, sticky, key) == Attached(root)
  {
    ContinueClaims(table, tuis[key], root);
    if Contested(table, tuis, key, root) {
      var other :| other in tuis && other != key && OwnClaim(table, tuis[other]) == Some(root);
      if tuis[other].explicitSession.None? {
        OwnClaimIsCandidate(table, tuis[other], root);
      }
    }
    OwnClaimDecides(table, tuis, sticky, key);
  }

  lemma ContinueClaims(table: Table, tui: Tui, root: Id)
    requires tui.explicitSession.None? && tui.continueSession && Candidate(table, tui, root)
    requires Several(table, tui) ==> StrictlyNewest(table, tui, root)
    ensures OwnClaim(table, tui) == Some(root)
  {
    CandidatesAreLocated(table, tui, root);
    SeveralMeansSize(table, tui);
    if Several(table, tui) {
      NewestIs(table, tui, root);
    }
    ContinueResolves(table, tui, LocationRoots(table, tui), root);
  }

  lemma NewestIs(table: Table, tui: Tui, root: Id)
    requires StrictlyNewest(table, tui, root)
    ensures NewestRoot(table, LocationRoots(table, tui)) == Some(root)
  {
    NewestIsStrict(table, tui, root);
    NewestUnique(table, LocationRoots(table, tui), root, NewestRoot(table, LocationRoots(table, tui)).value);
  }

  lemma ContinueResolves(table: Table, tui: Tui, roots: set<Id>, root: Id)
    requires tui.explicitSession.None? && tui.continueSession
    requires roots == LocationRoots(table, tui) && root in roots
    requires |roots| > 1 ==> NewestRoot(table, roots) == Some(root)
    ensures OwnClaim(table, tui) == Some(root)
  {
    if |roots| == 1 {
      assert roots == {Only(roots)};
    }
  }

  // ---------- calls of the matcher ----------

  lemma ResultAt(table: Table, tuis: seq<Tui>, instance: Instance, before: Sticky, after: Sticky,
                 result: seq<(Tui, Resolution)>, j: nat)
    requires UniqueKeys(tuis) && PassResult(table, tuis, instance, before, after, result) && j < |tuis|
    ensures |result| == |tuis| && tuis[j].key in TuisOf(tuis) && TuisOf(tuis)[tuis[j].key] == tuis[j]
    ensures result[j] == (tuis[j], Resolve(table, TuisOf(tuis), View(before, instance), tuis[j].key))
  {
    TuiAt(tuis, j);
  }

  /** It has `root` to itself: as its only candidate, or as the only one at work. */
  ghost predicate Fits(table: Table, tui: Tui, root: Id) {
    Candidate(table, tui, root) && (!Several(table, tui) || OnlyWorking(table, tui, root))
  }

  lemma LoneAttached(table: Table, tuis: Tuis, sticky: Claims, key: TuiKey)
    requires key in tuis && Unasking(tuis[key]) && key !in sticky && forall other :: other in tuis ==> other == key
    requires Resolve(table, tuis, sticky, key).Attached?
    ensures Fits(table, tuis[key], Resolve(table, tuis, sticky, key).root)
  {
    var root, held := Resolve(table, tuis, sticky, key).root, Pass(table, tuis, sticky);
    PassMeansAttached(table, tuis, sticky, key);
    AttachedLies(table, tuis, sticky, key);
    AttachedOnlyIf(table, tuis, sticky, key);
    StagesAreSound(table, tuis, sticky);
    NoneElse(table, tuis[key], root, held, key);
  }

  lemma NoneElse(table: Table, tui: Tui, root: Id, held: Claims, key: TuiKey)
    requires Candidate(table, tui, root) && held.Keys <= {key} && key in held && held[key] == root
    requires OthersAreHeld(table, tui, root, held) || OtherWorkIsHeld(table, tui, root, held)
    ensures Fits(table, tui, root)
  {
    assert forall other: Id :: other in held.Values ==> other == root;
  }

  /** A call for one TUI that asks for nothing and has no sticky entry: it attaches to a root
      if and only if the root is its only candidate or the only one at work, and otherwise is
      told what there is. */
  lemma LoneTui(table: Table, tui: Tui, instance: Instance, before: Sticky, after: Sticky, result: seq<(Tui, Resolution)>)
    requires PassResult(table, [tui], instance, before, after, result)
    requires Unasking(tui) && (instance, tui.key) !in before
    ensures |result| == 1 && result[0].0 == tui
    ensures forall root: Id :: result[0].1 == Attached(root) <==> Fits(table, tui, root)
    ensures !result[0].1.Attached? ==> ToldAbout(table, tui, result[0].1)
  {
    ResultAt(table, [tui], instance, before, after, result, 0);
    var tuis, view := TuisOf([tui]), View(before, instance);
    assert forall other :: other in tuis ==> other == tui.key by {
      TuisOfMeaning([tui]);
      forall other | other in tuis ensures other == tui.key {
        assert tuis[other] in [tui];
      }
    }
    Alone(table, tuis, view, tui.key);
  }

  lemma Alone(table: Table, tuis: Tuis, sticky: Claims, key: TuiKey)
    requires key in tuis && Unasking(tuis[key]) && key !in sticky && forall other :: other in tuis ==> other == key
    ensures forall root: Id :: Resolve(table, tuis, sticky, key) == Attached(root) <==> Fits(table, tuis[key], root)
    ensures !Resolve(table, tuis, sticky, key).Attached? ==> ToldAbout(table, tuis[key], Resolve(table, tuis, sticky, key))
  {
    forall root: Id ensures Resolve(table, tuis, sticky, key) == Attached(root) <==> Fits(table, tuis[key], root) {
      if Resolve(table, tuis, sticky, key) == Attached(root) {
        LoneAttached(table, tuis, sticky, key);
      }
      if Fits(table, tuis[key], root) {
        if Several(table, tuis[key]) {
          WorkingAttaches(table, tuis, sticky, key, root);
        } else {
          LocatedAttaches(table, tuis, sticky, key, root);
        }
      }
    }
    if !Resolve(table, tuis, sticky, key).Attached? {
      UnattachedIsTold(table, tuis, sticky, key);
    }
  }

  ghost predicate LiesAlone(table: Table, tuis: Tuis, sticky: Claims, key: TuiKey, root: Id) {
    && key in tuis && Unasking(tuis[key]) && key !in sticky
    && Candidate(table, tuis[key], root) && !Several(table, tuis[key]) && Unrivalled(table, tuis, sticky, key, root)
  }

  ghost predicate Continues(table: Table, tuis: Tuis, key: TuiKey, root: Id) {
    && key in tuis && tuis[key].explicitSession.None? && tuis[key].continueSession && Candidate(table, tuis[key], root)
    && (Several(table, tuis[key]) ==> StrictlyNewest(table, tuis[key], root)) && UnclaimedByOthers(table, tuis, key, root)
  }

  /** The same laws for one TUI of any call. */
  lemma CallFollows(table: Table, tuis: seq<Tui>, instance: Instance, before: Sticky, after: Sticky,
                    result: seq<(Tui, Resolution)>, j: nat, root: Id)
    requires UniqueKeys(tuis) && PassResult(table, tuis, instance, before, after, result) && j < |tuis|
    ensures |result| == |tuis| && result[j].0 == tuis[j]
    ensures LiesAlone(table, TuisOf(tuis), View(before, instance), tuis[j].key, root) ==> result[j].1 == Attached(root)
    ensures Unasking(tuis[j]) && (instance, tuis[j].key) !in before && OnlyWorking(table, tuis[j], root) ==>
      Unrivalled(table, TuisOf(tuis), View(before, instance), tuis[j].key, root) ==> result[j].1 == Attached(root)
    ensures Continues(table, TuisOf(tuis), tuis[j].key, root) ==> result[j].1 == Attached(root)
    ensures Unasking(tuis[j]) && (instance, tuis[j].key) !in before && !result[j].1.Attached? ==>
      ToldAbout(table, tuis[j], result[j].1)
    ensures Unasking(tuis[j]) && (instance, tuis[j].key) !in before && result[j].1.Attached? ==>
      Candidate(table, tuis[j], result[j].1.root) && NoChoice(table, TuisOf(tuis), View(before, instance), tuis[j].key)
  {
    ResultAt(table, tuis, instance, before, after, result, j);
    var listed, view, key := TuisOf(tuis), View(before, instance), tuis[j].key;
    if LiesAlone(table, listed, view, key, root) {
      LocatedAttaches(table, listed, view, key, root);
    }
    if Unasking(tuis[j]) && key !in view && OnlyWorking(table, tuis[j], root) && Unrivalled(table, listed, view, key, root) {
      WorkingAttaches(table, listed, view, key, root);
    }
    if Continues(table, listed, key, root) {
      ContinueAttaches(table, listed, view, key, root);
    }
    if Unasking(tuis[j]) && key !in view && !result[j].1.Attached? {
      UnattachedIsTold(table, listed, view, key);
    }
    if Unasking(tuis[j]) && key !in view && result[j].1.Attached? {
      AttachedLies(table, listed, view, key);
      PassMeansAttached(table, listed, view, key);
      AttachedOnlyIf(table, listed, view, key);
    }
  }
}
