/** One matching pass of TUIs to session roots, as a function of the set of TUIs and the
    table of sessions. No list order enters the definition. */
module Matching {
  import opened Wrappers
  import opened Sessions
  import opened Aggregates

  datatype TuiKey = TuiKey(pid: nat, startTime: nat)

  datatype Tui = Tui(
    key: TuiKey,
    cwd: Path,
    startup: Option<Path>,
    explicitSession: Option<Id>,
    continueSession: bool,
    stale: bool)

  type Tuis = tuis: map<TuiKey, Tui> | forall key :: key in tuis ==> tuis[key].key == key

  datatype Resolution = Attached(root: Id) | Unresolved(ambiguous: bool, hint: Option<Id>)

  // ---------- resolving one TUI ----------

  predicate LocationMatches(session: Session, location: Path) {
    session.directory == Some(location) || session.workspace == Some(location)
  }

  function JoinPath(base: Path, path: Path): Path {
    if path.absolute then path else Path(base.absolute, base.parts + path.parts)
  }

  predicate SessionAt(session: Session, tui: Tui) {
    || LocationMatches(session, tui.cwd)
    || (tui.startup.Some? && LocationMatches(session, JoinPath(tui.cwd, tui.startup.value)))
  }

  /** `tui_location_roots`. */
  function LocationRoots(table: Table, tui: Tui): set<Id> {
    set id | id in table && SessionAt(table[id], tui) :: RootOf(table, id)
  }

  function ActiveRoots(table: Table): set<Id> {
    set id | id in table && Working(table[id]) :: RootOf(table, id)
  }

  /** Some session below `root` was updated after every update below `other`. */
  predicate UpdatedAfter(table: Table, root: Id, other: Id) {
    exists id :: id in table && RootOf(table, id) == root && table[id].updated.Some? &&
      forall id' :: id' in table && RootOf(table, id') == other && table[id'].updated.Some? ==>
        table[id'].updated.value < table[id].updated.value
  }

  predicate IsNewest(table: Table, roots: set<Id>, root: Id) {
    && root in roots
    && (exists id :: id in table && RootOf(table, id) == root && table[id].updated.Some?)
    && forall other :: other in roots && other != root ==> UpdatedAfter(table, root, other)
  }

  lemma NewestUnique(table: Table, roots: set<Id>, left: Id, right: Id)
    requires IsNewest(table, roots, left) && IsNewest(table, roots, right)
    ensures left == right
  {
  }

  function NewestRoot(table: Table, roots: set<Id>): (newest: Option<Id>)
    ensures newest.Some? ==> IsNewest(table, roots, newest.value)
    ensures newest.None? ==> !exists root :: IsNewest(table, roots, root)
  {
    if exists root | root in roots :: IsNewest(table, roots, root) then
      assert forall r, r' :: IsNewest(table, roots, r) && IsNewest(table, roots, r') ==> r == r' by {
        forall r, r' | IsNewest(table, roots, r) && IsNewest(table, roots, r') ensures r == r' {
          NewestUnique(table, roots, r, r');
        }
      }
      var root :| root in roots && IsNewest(table, roots, root);
      Some(root)
    else None
  }

  lemma SingletonUnique(s: set<Id>, x: Id, y: Id)
    requires |s| == 1 && x in s && y in s
    ensures x == y
  {
    assert |s - {x}| == 0;
    assert s - {x} == {};
  }

  function Only(s: set<Id>): (x: Id)
    requires |s| == 1
    ensures s == {x}
  {
    assert forall x, y :: x in s && y in s ==> x == y by {
      forall x, y | x in s && y in s ensures x == y {
        SingletonUnique(s, x, y);
      }
    }
    assert s != {};
    var x :| x in s;
    x
  }

  /** `resolve_tui`, without regard to other TUIs. */
  function ResolveTui(table: Table, tui: Tui): Resolution {
    match tui.explicitSession
    case Some(explicit) =>
      if explicit in table then Attached(RootOf(table, explicit)) else Unresolved(false, None)
    case None =>
      var roots := LocationRoots(table, tui);
      if |roots| == 1 then Attached(Only(roots))
      else if roots == {} then Unresolved(false, None)
      else if tui.continueSession && NewestRoot(table, roots).Some? then
        Attached(NewestRoot(table, roots).value)
      else
        var active := roots * ActiveRoots(table);
        Unresolved(true, if |active| == 1 then Some(Only(active)) else NewestRoot(table, roots))
  }

  // ---------- one pass ----------

  type Claims = map<TuiKey, Id>

  /** The TUIs resolved so far: attached, refused for a contested or taken root, or asking
      for a session that is not listed. The used roots are those of `attached`. */
  datatype Stage = Stage(attached: Claims, refused: Claims, missing: set<TuiKey>)

  function Resolved(stage: Stage): set<TuiKey> {
    stage.attached.Keys + stage.refused.Keys + stage.missing
  }

  predicate Wins(claims: Claims, used: set<Id>, key: TuiKey) {
    key in claims && claims[key] !in used &&
    forall other :: other in claims && claims[other] == claims[key] ==> other == key
  }

  function Won(claims: Claims, used: set<Id>): Claims {
    claims - (set key | key in claims && !Wins(claims, used, key))
  }

  function Lost(claims: Claims, used: set<Id>): Claims {
    claims - (set key | key in claims && Wins(claims, used, key))
  }

  /** `apply_claims`: a claim holds if its root is free and nobody else claims it. */
  function Settle(stage: Stage, claims: Claims): Stage {
    Stage(stage.attached + Won(claims, stage.attached.Values),
          stage.refused + Lost(claims, stage.attached.Values),
          stage.missing)
  }

  predicate MissingExplicit(table: Table, tui: Tui) {
    tui.explicitSession.Some? && tui.explicitSession.value !in table
  }

  /** The root that a TUI's own command line asks for. */
  function OwnClaim(table: Table, tui: Tui): Option<Id> {
    match tui.explicitSession
    case Some(explicit) => if explicit in table then Some(RootOf(table, explicit)) else None
    case None =>
      if tui.continueSession && ResolveTui(table, tui).Attached? then Some(ResolveTui(table, tui).root) else None
  }

  function OwnClaims(table: Table, tuis: Tuis): Claims {
    (map key | key in tuis ::
       if OwnClaim(table, tuis[key]).Some? then OwnClaim(table, tuis[key]).value else 0)
    - (set key | key in tuis && OwnClaim(table, tuis[key]).None?)
  }

  function StartStage(table: Table, tuis: Tuis): Stage {
    Stage(map[], map[], set key | key in tuis && MissingExplicit(table, tuis[key]))
  }

  function ExplicitStage(table: Table, tuis: Tuis): Stage {
    Settle(StartStage(table, tuis), OwnClaims(table, tuis))
  }

  function StickyClaims(table: Table, tuis: Tuis, stage: Stage, sticky: Claims): Claims {
    sticky - (set key | key in sticky &&
                !(key in tuis && key !in Resolved(stage) && sticky[key] in Roots(table)))
  }

  function StickyStage(table: Table, tuis: Tuis, sticky: Claims): Stage {
    var stage := ExplicitStage(table, tuis);
    Settle(stage, StickyClaims(table, tuis, stage, sticky))
  }

  /** The free roots at a TUI's location, among `allowed`. */
  function FreeRoots(table: Table, tui: Tui, allowed: set<Id>, used: set<Id>): set<Id> {
    LocationRoots(table, tui) * allowed - used
  }

  /** Among the `open` TUIs, `key` has one free root and no other has it too. */
  predicate Reciprocal(table: Table, tuis: Tuis, open: set<TuiKey>, allowed: set<Id>, used: set<Id>, key: TuiKey) {
    && key in open && key in tuis
    && |FreeRoots(table, tuis[key], allowed, used)| == 1
    && forall other :: other in open && other in tuis && other != key ==>
         FreeRoots(table, tuis[key], allowed, used) !! FreeRoots(table, tuis[other], allowed, used)
  }

  /** `apply_reciprocal_claims`: each TUI with one free root that is nobody else's. */
  function ReciprocalClaims(table: Table, tuis: Tuis, open: set<TuiKey>, allowed: set<Id>, used: set<Id>): Claims {
    (map key | key in tuis ::
       var free := FreeRoots(table, tuis[key], allowed, used); if |free| == 1 then Only(free) else 0)
    - (set key | key in tuis && !Reciprocal(table, tuis, open, allowed, used, key))
  }

  /** The reciprocal phase after `stage`, with the roots in `allowed`. */
  function SettleReciprocal(table: Table, tuis: Tuis, stage: Stage, allowed: set<Id>): Stage {
    Settle(stage, ReciprocalClaims(table, tuis, tuis.Keys - Resolved(stage), allowed, stage.attached.Values))
  }

  function LocationStage(table: Table, tuis: Tuis, sticky: Claims): Stage {
    SettleReciprocal(table, tuis, StickyStage(table, tuis, sticky), Roots(table))
  }

  function FinalStage(table: Table, tuis: Tuis, sticky: Claims): Stage {
    SettleReciprocal(table, tuis, LocationStage(table, tuis, sticky), ActiveRoots(table))
  }

  /** A TUI without a claim that held keeps at most a hint. */
  function Demote(fallback: Resolution): Resolution {
    match fallback
    case Attached(root) => Unresolved(true, Some(root))
    case Unresolved(_, _) => fallback
  }

  function ResolutionIn(stage: Stage, key: TuiKey): Resolution
    requires key in Resolved(stage)
  {
    if key in stage.attached then Attached(stage.attached[key])
    else if key in stage.refused then Unresolved(true, Some(stage.refused[key]))
    else Unresolved(false, None)
  }

  function Verdict(table: Table, tui: Tui, stage: Stage, key: TuiKey): Resolution {
    if key in Resolved(stage) then ResolutionIn(stage, key) else Demote(ResolveTui(table, tui))
  }

  function Resolve(table: Table, tuis: Tuis, sticky: Claims, key: TuiKey): Resolution
    requires key in tuis
  {
    Verdict(table, tuis[key], FinalStage(table, tuis, sticky), key)
  }

  /** The attachments of a pass. They are also the sticky entries of the listed TUIs. */
  function Pass(table: Table, tuis: Tuis, sticky: Claims): Claims {
    FinalStage(table, tuis, sticky).attached
  }

  // ---------- what every pass keeps ----------

  predicate Injective(claims: Claims) {
    forall k, j :: k in claims && j in claims && claims[k] == claims[j] ==> k == j
  }

  predicate Extends(before: Claims, after: Claims) {
    before.Keys <= after.Keys && forall key :: key in before ==> after[key] == before[key]
  }

  /** No root is attached twice, no TUI has two resolutions, and all are listed. */
  predicate Sound(table: Table, tuis: Tuis, stage: Stage) {
    && Resolved(stage) <= tuis.Keys
    && stage.attached.Keys !! stage.refused.Keys && stage.attached.Keys !! stage.missing
    && stage.refused.Keys !! stage.missing
    && Injective(stage.attached)
    && stage.attached.Values <= Roots(table)
  }

  lemma JoinSound(before: Claims, won: Claims)
    requires before.Keys !! won.Keys && Injective(before) && Injective(won)
    requires before.Values !! won.Values
    ensures Injective(before + won) && Extends(before, before + won)
    ensures (before + won).Values == before.Values + won.Values
  {
    var all := before + won;
    forall root | root in before.Values + won.Values ensures root in all.Values {
      if root in before.Values {
        var key :| key in before && before[key] == root;
        assert all[key] == root;
      } else {
        var key :| key in won && won[key] == root;
        assert all[key] == root;
      }
    }
    forall k, j | k in all && j in all && all[k] == all[j] ensures k == j {
      assert k in before ==> before[k] in before.Values;
      assert j in before ==> before[j] in before.Values;
      assert k in won ==> won[k] in won.Values;
      assert j in won ==> won[j] in won.Values;
    }
  }

  lemma WonIsFresh(claims: Claims, used: set<Id>)
    ensures Injective(Won(claims, used)) && Won(claims, used).Values !! used
    ensures Won(claims, used).Values <= claims.Values
    ensures Won(claims, used).Keys + Lost(claims, used).Keys == claims.Keys
    ensures Won(claims, used).Keys !! Lost(claims, used).Keys
  {
  }

  predicate Admissible(table: Table, tuis: Tuis, stage: Stage, claims: Claims) {
    claims.Keys !! Resolved(stage) && claims.Keys <= tuis.Keys && claims.Values <= Roots(table)
  }

  lemma SettleIsSound(table: Table, tuis: Tuis, stage: Stage, claims: Claims)
    requires Sound(table, tuis, stage) && Admissible(table, tuis, stage, claims)
    ensures Sound(table, tuis, Settle(stage, claims))
    ensures Extends(stage.attached, Settle(stage, claims).attached)
    ensures Resolved(Settle(stage, claims)) == Resolved(stage) + claims.Keys
    ensures forall key :: key in Resolved(stage) ==> ResolutionIn(Settle(stage, claims), key) == ResolutionIn(stage, key)
  {
    var used := stage.attached.Values;
    WonIsFresh(claims, used);
    JoinSound(stage.attached, Won(claims, used));
    SettleKeys(stage, claims, Won(claims, used), Lost(claims, used));
  }

  lemma SettleKeys(stage: Stage, claims: Claims, won: Claims, lost: Claims)
    requires claims.Keys !! Resolved(stage)
    requires won.Keys + lost.Keys == claims.Keys && won.Keys !! lost.Keys
    ensures var after := Stage(stage.attached + won, stage.refused + lost, stage.missing);
      && Resolved(after) == Resolved(stage) + claims.Keys
      && (forall key :: key in Resolved(stage) ==> ResolutionIn(after, key) == ResolutionIn(stage, key))
      && (stage.attached.Keys !! stage.refused.Keys ==> after.attached.Keys !! after.refused.Keys)
      && (stage.attached.Keys !! stage.missing ==> after.attached.Keys !! after.missing)
      && (stage.refused.Keys !! stage.missing ==> after.refused.Keys !! after.missing)
  {
  }

  lemma OwnClaimListed(table: Table, tui: Tui)
    ensures OwnClaim(table, tui).Some? ==> OwnClaim(table, tui).value in Roots(table)
    ensures OwnClaim(table, tui).Some? ==> !MissingExplicit(table, tui)
  {
  }

  lemma OwnClaimsMeaning(table: Table, tuis: Tuis)
    ensures Admissible(table, tuis, StartStage(table, tuis), OwnClaims(table, tuis))
    ensures forall key :: key in OwnClaims(table, tuis) <==> key in tuis && OwnClaim(table, tuis[key]).Some?
    ensures forall key :: key in OwnClaims(table, tuis) ==> OwnClaim(table, tuis[key]) == Some(OwnClaims(table, tuis)[key])
  {
    var claims := OwnClaims(table, tuis);
    forall key | key in tuis ensures OwnClaim(table, tuis[key]).Some? ==>
      OwnClaim(table, tuis[key]).value in Roots(table) && !MissingExplicit(table, tuis[key])
    {
      OwnClaimListed(table, tuis[key]);
    }
    forall root | root in claims.Values ensures root in Roots(table) {
      var key :| key in claims && claims[key] == root;
    }
  }

  lemma StickyClaimsMeaning(table: Table, tuis: Tuis, stage: Stage, sticky: Claims)
    ensures Admissible(table, tuis, stage, StickyClaims(table, tuis, stage, sticky))
    ensures var claims := StickyClaims(table, tuis, stage, sticky);
      && (forall key :: key in claims <==>
            key in tuis && key !in Resolved(stage) && key in sticky && sticky[key] in Roots(table))
      && forall key :: key in claims ==> claims[key] == sticky[key]
  {
  }

  lemma AllWin(claims: Claims, used: set<Id>)
    requires forall key :: key in claims ==> Wins(claims, used, key)
    ensures Won(claims, used) == claims
  {
  }

  lemma ReciprocalClaimsMeaning(table: Table, tuis: Tuis, open: set<TuiKey>, allowed: set<Id>, used: set<Id>)
    ensures var claims := ReciprocalClaims(table, tuis, open, allowed, used);
      && (forall key :: key in claims <==> Reciprocal(table, tuis, open, allowed, used, key))
      && (forall key :: key in claims ==> FreeRoots(table, tuis[key], allowed, used) == {claims[key]})
      && claims.Keys <= tuis.Keys && claims.Keys <= open
      && claims.Values <= Roots(table)
      && Won(claims, used) == claims
  {
    var claims := ReciprocalClaims(table, tuis, open, allowed, used);
    forall key | key in claims ensures claims[key] in Roots(table) && Wins(claims, used, key) {
      ReciprocalWins(table, tuis, open, allowed, used, claims, key);
    }
    AllWin(claims, used);
  }

  lemma ReciprocalWins(table: Table, tuis: Tuis, open: set<TuiKey>, allowed: set<Id>, used: set<Id>, claims: Claims, key: TuiKey)
    requires forall k :: k in claims ==>
      Reciprocal(table, tuis, open, allowed, used, k) && FreeRoots(table, tuis[k], allowed, used) == {claims[k]}
    requires key in claims
    ensures claims[key] in Roots(table) && Wins(claims, used, key)
  {
    assert claims[key] in FreeRoots(table, tuis[key], allowed, used);
    assert forall other :: other in claims ==> claims[other] in FreeRoots(table, tuis[other], allowed, used);
  }

  lemma ReciprocalPhase(table: Table, tuis: Tuis, stage: Stage, allowed: set<Id>)
    requires Sound(table, tuis, stage)
    ensures var claims := ReciprocalClaims(table, tuis, tuis.Keys - Resolved(stage), allowed, stage.attached.Values);
      && Admissible(table, tuis, stage, claims)
      && SettleReciprocal(table, tuis, stage, allowed).attached == stage.attached + claims
    ensures Sound(table, tuis, SettleReciprocal(table, tuis, stage, allowed))
    ensures Extends(stage.attached, SettleReciprocal(table, tuis, stage, allowed).attached)
    ensures Resolved(stage) <= Resolved(SettleReciprocal(table, tuis, stage, allowed))
    ensures forall key :: key in Resolved(stage) ==>
              ResolutionIn(SettleReciprocal(table, tuis, stage, allowed), key) == ResolutionIn(stage, key)
  {
    var open := tuis.Keys - Resolved(stage);
    ReciprocalClaimsMeaning(table, tuis, open, allowed, stage.attached.Values);
    SettleIsSound(table, tuis, stage, ReciprocalClaims(table, tuis, open, allowed, stage.attached.Values));
  }

  /** The stages of a pass, each sound and each keeping the resolutions before it. */
  lemma StagesAreSound(table: Table, tuis: Tuis, sticky: Claims)
    ensures Sound(table, tuis, ExplicitStage(table, tuis))
    ensures Sound(table, tuis, StickyStage(table, tuis, sticky))
    ensures Sound(table, tuis, LocationStage(table, tuis, sticky))
    ensures Sound(table, tuis, FinalStage(table, tuis, sticky))
    ensures Keeps(ExplicitStage(table, tuis), StickyStage(table, tuis, sticky))
    ensures Keeps(StickyStage(table, tuis, sticky), LocationStage(table, tuis, sticky))
    ensures Keeps(LocationStage(table, tuis, sticky), FinalStage(table, tuis, sticky))
  {
    OwnClaimsMeaning(table, tuis);
    SettleIsSound(table, tuis, StartStage(table, tuis), OwnClaims(table, tuis));
    var first := ExplicitStage(table, tuis);
    StickyClaimsMeaning(table, tuis, first, sticky);
    SettleIsSound(table, tuis, first, StickyClaims(table, tuis, first, sticky));
    ReciprocalPhase(table, tuis, StickyStage(table, tuis, sticky), Roots(table));
    ReciprocalPhase(table, tuis, LocationStage(table, tuis, sticky), ActiveRoots(table));
  }

  predicate Keeps(before: Stage, after: Stage) {
    && Resolved(before) <= Resolved(after)
    && Extends(before.attached, after.attached)
    && forall key :: key in Resolved(before) ==> ResolutionIn(after, key) == ResolutionIn(before, key)
  }

  /** No two TUIs attach to one root, and every attached root is listed. */
  lemma PassIsInjective(table: Table, tuis: Tuis, sticky: Claims)
    ensures Injective(Pass(table, tuis, sticky))
    ensures Pass(table, tuis, sticky).Keys <= tuis.Keys
    ensures Pass(table, tuis, sticky).Values <= Roots(table)
  {
    StagesAreSound(table, tuis, sticky);
  }
}
