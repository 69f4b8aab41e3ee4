/** Repeated calls of the matcher. Between two calls the program keeps the sticky map, which
    also holds entries of other instances and of TUIs that are not listed. */
module MatchingRuns {
  import opened Wrappers
  import opened Sessions
  import opened Aggregates
  import opened Matching
  import opened MatchingLaws
  import opened Matcher

  ghost predicate AgreeOn(tuis: Tuis, left: Claims, right: Claims) {
    forall key :: key in tuis ==>
      (key in left <==> key in right) && (key in left ==> left[key] == right[key])
  }

  lemma SameStickyClaims(table: Table, tuis: Tuis, stage: Stage, left: Claims, right: Claims)
    requires AgreeOn(tuis, left, right)
    ensures StickyClaims(table, tuis, stage, left) == StickyClaims(table, tuis, stage, right)
  {
  }

  /** Entries of TUIs that are not listed have no part in a pass. */
  lemma UnlistedEntriesIgnored(table: Table, tuis: Tuis, left: Claims, right: Claims)
    requires AgreeOn(tuis, left, right)
    ensures FinalStage(table, tuis, left) == FinalStage(table, tuis, right)
  {
    SameStickyClaims(table, tuis, ExplicitStage(table, tuis), left, right);
  }

  lemma AfterAgrees(table: Table, tuis: Tuis, instance: Instance, attached: Claims, before: Sticky, after: Sticky)
    requires StickyAfter(table, tuis, instance, attached, before, after)
    ensures AgreeOn(tuis, View(after, instance), attached)
  {
  }

  /** The next pass finds exactly the attachments of this one. */
  lemma NextPassContinues(table: Table, tuis: Tuis, instance: Instance, attached: Claims, before: Sticky, after: Sticky)
    requires StickyAfter(table, tuis, instance, attached, before, after)
    ensures FinalStage(table, tuis, View(after, instance)) == FinalStage(table, tuis, attached)
    ensures Pass(table, tuis, View(after, instance)) == Pass(table, tuis, attached)
  {
    AfterAgrees(table, tuis, instance, attached, before, after);
    UnlistedEntriesIgnored(table, tuis, View(after, instance), attached);
  }

  type Result = seq<(Tui, Resolution)>

  /** The result of a pass that starts from `claims`. */
  ghost function OutcomeFrom(table: Table, tuis: seq<Tui>, claims: Claims): Result {
    Verdicts(table, tuis, FinalStage(table, TuisOf(tuis), claims))
  }

  ghost function Verdicts(table: Table, tuis: seq<Tui>, stage: Stage): Result {
    seq(|tuis|, j requires 0 <= j < |tuis| => (tuis[j], Verdict(table, tuis[j], stage, tuis[j].key)))
  }

  ghost function OutcomeStep(table: Table, tuis: seq<Tui>): Claims -> Result {
    claims => OutcomeFrom(table, tuis, claims)
  }

  lemma ResolvesOutcome(table: Table, tuis: seq<Tui>, claims: Claims, result: Result)
    requires Resolves(table, tuis, FinalStage(table, TuisOf(tuis), claims), result)
    ensures result == OutcomeFrom(table, tuis, claims)
  {
  }

  /** Successive calls of `ResolveTuis` for one instance on unchanged TUIs and sessions:
      the sticky map before, between and after them, and what each returns. */
  ghost predicate Calls(table: Table, tuis: seq<Tui>, instance: Instance, stickies: seq<Sticky>, results: seq<Result>) {
    && |stickies| == |results| + 1
    && forall k :: 0 <= k < |results| ==> PassResult(table, tuis, instance, stickies[k], stickies[k + 1], results[k])
  }

  lemma CallContinues(table: Table, tuis: seq<Tui>, instance: Instance, before: Sticky, after: Sticky, result: Result)
    requires PassResult(table, tuis, instance, before, after, result)
    ensures Pass(table, TuisOf(tuis), View(after, instance)) ==
            PassStep(table, TuisOf(tuis))(Pass(table, TuisOf(tuis), View(before, instance)))
  {
    NextPassContinues(table, TuisOf(tuis), instance, Pass(table, TuisOf(tuis), View(before, instance)), before, after);
  }

  lemma CallResolves(table: Table, tuis: seq<Tui>, instance: Instance, first: Sticky, second: Sticky, third: Sticky,
                     before: Result, result: Result)
    requires PassResult(table, tuis, instance, first, second, before) && PassResult(table, tuis, instance, second, third, result)
    ensures result == OutcomeStep(table, tuis)(Pass(table, TuisOf(tuis), View(first, instance)))
  {
    var attached := Pass(table, TuisOf(tuis), View(first, instance));
    NextPassContinues(table, TuisOf(tuis), instance, attached, first, second);
    ResolvesOutcome(table, tuis, attached, result);
  }

  /** What each call attaches. */
  ghost function Attachments(table: Table, tuis: Tuis, instance: Instance, stickies: seq<Sticky>): (steps: seq<Claims>)
    ensures |steps| == |stickies|
    ensures forall k :: 0 <= k < |stickies| ==> steps[k] == Pass(table, tuis, View(stickies[k], instance))
  {
    seq(|stickies|, k requires 0 <= k < |stickies| => Pass(table, tuis, View(stickies[k], instance)))
  }

  /** Each step starts from the step before, and each result but the first follows from it. */
  ghost predicate Linked(step: Claims -> Claims, outcome: Claims -> Result, start: Claims, steps: seq<Claims>, results: seq<Result>) {
    && |steps| == |results| + 1
    && steps[0] == step(start)
    && (forall k :: 0 < k < |steps| ==> steps[k] == step(steps[k - 1]))
    && (forall k :: 0 < k < |results| ==> results[k] == outcome(steps[k - 1]))
  }

  lemma {:induction false} CallsAreLinked(table: Table, tuis: seq<Tui>, instance: Instance, stickies: seq<Sticky>, results: seq<Result>)
    requires Calls(table, tuis, instance, stickies, results)
    ensures Linked(PassStep(table, TuisOf(tuis)), OutcomeStep(table, tuis), View(stickies[0], instance),
                   Attachments(table, TuisOf(tuis), instance, stickies), results)
  {
    var steps := Attachments(table, TuisOf(tuis), instance, stickies);
    forall k | 0 < k < |steps| ensures steps[k] == PassStep(table, TuisOf(tuis))(steps[k - 1]) {
      assert PassResult(table, tuis, instance, stickies[k - 1], stickies[k - 1 + 1], results[k - 1]);
      CallContinues(table, tuis, instance, stickies[k - 1], stickies[k], results[k - 1]);
    }
    forall k | 0 < k < |results| ensures results[k] == OutcomeStep(table, tuis)(steps[k - 1]) {
      assert PassResult(table, tuis, instance, stickies[k - 1], stickies[k - 1 + 1], results[k - 1]);
      assert PassResult(table, tuis, instance, stickies[k], stickies[k + 1], results[k]);
      CallResolves(table, tuis, instance, stickies[k - 1], stickies[k], stickies[k + 1], results[k - 1], results[k]);
    }
  }

  lemma {:induction false} LinkedIterates(step: Claims -> Claims, outcome: Claims -> Result, start: Claims, steps: seq<Claims>,
                                          results: seq<Result>, k: nat)
    requires Linked(step, outcome, start, steps, results) && k < |steps|
    ensures steps[k] == Iterate(step, start, k + 1)
  {
    if k > 0 {
      LinkedIterates(step, outcome, start, steps, results, k - 1);
    } else {
      assert Iterate(step, start, 0) == start;
    }
  }

  lemma {:induction false} LinkedRests(step: Claims -> Claims, keys: set<TuiKey>, outcome: Claims -> Result, start: Claims,
                                       steps: seq<Claims>, results: seq<Result>, k: nat)
    requires Linked(step, outcome, start, steps, results) && Growing(step, keys) && |keys| < k < |results|
    ensures results[k] == results[|keys| + 1]
  {
    LinkedIterates(step, outcome, start, steps, results, k - 1);
    LinkedIterates(step, outcome, start, steps, results, |keys|);
    IterationRests(step, keys, start, k);
  }

  /** After one call for each TUI and one more, the outcome does not change any further. */
  lemma {:induction false} CallsConverge(table: Table, tuis: seq<Tui>, instance: Instance, stickies: seq<Sticky>,
                                         results: seq<Result>, k: nat)
    requires UniqueKeys(tuis) && Calls(table, tuis, instance, stickies, results) && |tuis| < k < |results|
    ensures results[k] == results[|tuis| + 1]
  {
    CallsAreLinked(table, tuis, instance, stickies, results);
    PassStepGrows(table, TuisOf(tuis));
    ListedKeys(tuis);
    LinkedRests(PassStep(table, TuisOf(tuis)), TuisOf(tuis).Keys, OutcomeStep(table, tuis), View(stickies[0], instance),
                Attachments(table, TuisOf(tuis), instance, stickies), results, k);
  }

  /** One call for each TUI and one more: from then on every call attaches the same TUIs to
      the same roots. */
  lemma {:induction false} AttachmentsSettle(table: Table, tuis: seq<Tui>, instance: Instance, stickies: seq<Sticky>,
                                             results: seq<Result>, k: nat, j: nat)
    requires UniqueKeys(tuis) && Calls(table, tuis, instance, stickies, results)
    requires |tuis| <= k < |results| && j < |tuis|
    ensures |results[k]| == |results[|tuis|]| == |tuis|
    ensures results[k][j].1.Attached? || results[|tuis|][j].1.Attached? ==> results[k][j].1 == results[|tuis|][j].1
  {
    StepsSettle(table, tuis, instance, stickies, results, k);
    var last := Attachments(table, TuisOf(tuis), instance, stickies)[|tuis|];
    CallAttachesStep(table, tuis, instance, stickies, results, k, last);
    CallAttachesStep(table, tuis, instance, stickies, results, |tuis|, last);
    SameAttachments(tuis, last, results[|tuis|], results[k], j);
  }

  lemma SameAttachments(tuis: seq<Tui>, attached: Claims, left: Result, right: Result, j: nat)
    requires Attaches(tuis, attached, left) && Attaches(tuis, attached, right) && j < |tuis|
    ensures left[j].1.Attached? || right[j].1.Attached? ==> left[j].1 == right[j].1
  {
  }

  lemma {:induction false} StepsSettle(table: Table, tuis: seq<Tui>, instance: Instance, stickies: seq<Sticky>,
                                       results: seq<Result>, k: nat)
    requires UniqueKeys(tuis) && Calls(table, tuis, instance, stickies, results) && |tuis| <= k < |stickies|
    ensures var steps := Attachments(table, TuisOf(tuis), instance, stickies); steps[k] == steps[|tuis|]
  {
    CallsAreLinked(table, tuis, instance, stickies, results);
    PassStepGrows(table, TuisOf(tuis));
    ListedKeys(tuis);
    LinkedSettles(PassStep(table, TuisOf(tuis)), TuisOf(tuis).Keys, OutcomeStep(table, tuis), View(stickies[0], instance),
                  Attachments(table, TuisOf(tuis), instance, stickies), results, k);
  }

  lemma {:induction false} LinkedSettles(step: Claims -> Claims, keys: set<TuiKey>, outcome: Claims -> Result, start: Claims,
                                         steps: seq<Claims>, results: seq<Result>, k: nat)
    requires Linked(step, outcome, start, steps, results) && Growing(step, keys) && |keys| <= k < |steps|
    ensures steps[k] == steps[|keys|]
  {
    LinkedIterates(step, outcome, start, steps, results, k);
    LinkedIterates(step, outcome, start, steps, results, |keys|);
    IterationRests(step, keys, start, k + 1);
  }

  lemma {:induction false} CallAttachesStep(table: Table, tuis: seq<Tui>, instance: Instance, stickies: seq<Sticky>,
                                            results: seq<Result>, k: nat, attached: Claims)
    requires Calls(table, tuis, instance, stickies, results) && k < |results|
    requires attached == Attachments(table, TuisOf(tuis), instance, stickies)[k]
    ensures Attaches(tuis, attached, results[k])
  {
    assert PassResult(table, tuis, instance, stickies[k], stickies[k + 1], results[k]);
    CallAttaches(table, tuis, instance, stickies[k], stickies[k + 1], results[k]);
  }

  lemma ListedKeys(tuis: seq<Tui>)
    requires UniqueKeys(tuis)
    ensures |TuisOf(tuis).Keys| == |tuis|
  {
    TuisOfMeaning(tuis);
    assert |TuisOf(tuis)| == |TuisOf(tuis).Keys|;
  }

  /** What a call leaves in the sticky map: for a listed TUI its attachment. */
  lemma StickyTells(table: Table, tuis: seq<Tui>, instance: Instance, before: Sticky, after: Sticky, result: Result, j: nat)
    requires UniqueKeys(tuis) && PassResult(table, tuis, instance, before, after, result) && j < |tuis|
    ensures |result| == |tuis|
    ensures (instance, tuis[j].key) in after <==> result[j].1.Attached?
    ensures result[j].1.Attached? ==> after[(instance, tuis[j].key)] == result[j].1.root
  {
    CallAttaches(table, tuis, instance, before, after, result);
    TuiAt(tuis, j);
    StickyOf(table, TuisOf(tuis), instance, Pass(table, TuisOf(tuis), View(before, instance)), before, after, instance, tuis[j].key);
  }

  /** Entries of other instances stay; other entries of this one stay as long as their root
      is listed. */
  lemma StickyElsewhere(table: Table, tuis: seq<Tui>, instance: Instance, before: Sticky, after: Sticky, result: Result,
                        owner: Instance, key: TuiKey)
    requires UniqueKeys(tuis) && PassResult(table, tuis, instance, before, after, result)
    requires owner != instance || forall tui :: tui in tuis ==> tui.key != key
    ensures (owner, key) in after <==>
            (owner, key) in before && (owner == instance ==> exists id :: id in table && RootOf(table, id) == before[(owner, key)])
    ensures (owner, key) in after ==> after[(owner, key)] == before[(owner, key)]
  {
    TuisOfMeaning(tuis);
    assert key in TuisOf(tuis) ==> TuisOf(tuis)[key] in tuis;
    StickyOf(table, TuisOf(tuis), instance, Pass(table, TuisOf(tuis), View(before, instance)), before, after, owner, key);
  }

  lemma StickyOf(table: Table, tuis: Tuis, instance: Instance, attached: Claims, before: Sticky, after: Sticky, owner: Instance, key: TuiKey)
    requires StickyAfter(table, tuis, instance, attached, before, after)
    ensures if owner == instance && key in tuis then
        && ((owner, key) in after <==> key in attached)
        && ((owner, key) in after ==> after[(owner, key)] == attached[key])
      else
        && ((owner, key) in after <==>
              (owner, key) in before && (owner == instance ==> before[(owner, key)] in Roots(table)))
        && ((owner, key) in after ==> after[(owner, key)] == before[(owner, key)])
  {
  }

  // ---------- two calls in a row ----------

  /** A TUI is attached by a call exactly if the pass attaches it. */
  ghost predicate Attaches(tuis: seq<Tui>, attached: Claims, result: Result) {
    |result| == |tuis| &&
    forall j :: 0 <= j < |tuis| ==>
      if tuis[j].key in attached then result[j].1 == Attached(attached[tuis[j].key]) else result[j].1.Unresolved?
  }

  lemma ResultAttaches(table: Table, tuis: seq<Tui>, stage: Stage, result: Result)
    requires Resolves(table, tuis, stage, result)
    ensures Attaches(tuis, stage.attached, result)
  {
  }

  lemma CallAttaches(table: Table, tuis: seq<Tui>, instance: Instance, before: Sticky, after: Sticky, result: Result)
    requires PassResult(table, tuis, instance, before, after, result)
    ensures Attaches(tuis, Pass(table, TuisOf(tuis), View(before, instance)), result)
  {
    ResultAttaches(table, tuis, FinalStage(table, TuisOf(tuis), View(before, instance)), result);
  }

  /** What two calls in a row attach: first `one`, then what a pass makes of it. */
  lemma TwoCalls(table: Table, tuis: seq<Tui>, instance: Instance, before: Sticky, between: Sticky, after: Sticky,
                 first: Result, second: Result) returns (one: Claims, two: Claims)
    requires PassResult(table, tuis, instance, before, between, first) && PassResult(table, tuis, instance, between, after, second)
    ensures one == Pass(table, TuisOf(tuis), View(before, instance)) && two == PassStep(table, TuisOf(tuis))(one)
    ensures Attaches(tuis, one, first) && Attaches(tuis, two, second)
  {
    one, two := Pass(table, TuisOf(tuis), View(before, instance)), Pass(table, TuisOf(tuis), View(between, instance));
    CallAttaches(table, tuis, instance, before, between, first);
    CallAttaches(table, tuis, instance, between, after, second);
    CallContinues(table, tuis, instance, before, between, first);
  }

  /** A call keeps every attachment of the call before. */
  lemma CallsGrow(table: Table, tuis: seq<Tui>, instance: Instance, before: Sticky, between: Sticky, after: Sticky,
                  first: Result, second: Result, j: nat)
    requires PassResult(table, tuis, instance, before, between, first) && PassResult(table, tuis, instance, between, after, second)
    requires j < |tuis|
    ensures |first| == |second| == |tuis|
    ensures first[j].1.Attached? ==> second[j].1 == first[j].1
  {
    var one, two := TwoCalls(table, tuis, instance, before, between, after, first, second);
    PassGrows(table, TuisOf(tuis), View(before, instance));
    AttachmentKept(tuis, one, two, first, second, j);
  }

  lemma AttachmentKept(tuis: seq<Tui>, one: Claims, two: Claims, first: Result, second: Result, j: nat)
    requires Attaches(tuis, one, first) && Attaches(tuis, two, second) && Extends(one, two) && j < |tuis|
    ensures first[j].1.Attached? ==> second[j].1 == first[j].1
  {
  }

  /** The second call attaches a TUI that the first did not. */
  predicate AttachedSecond(first: Result, second: Result, j: nat) {
    j < |first| && j < |second| && second[j].1.Attached? && !first[j].1.Attached?
  }

  /** A second call attaches more if and only if the first left a free match. */
  lemma SecondCallIff(table: Table, tuis: seq<Tui>, instance: Instance, before: Sticky, between: Sticky, after: Sticky,
                      first: Result, second: Result)
    requires UniqueKeys(tuis)
    requires PassResult(table, tuis, instance, before, between, first) && PassResult(table, tuis, instance, between, after, second)
    ensures var attached := Pass(table, TuisOf(tuis), View(before, instance));
      (exists j: nat :: j < |tuis| && AttachedSecond(first, second, j)) <==>
      FreeMatch(table, TuisOf(tuis), attached, Roots(table)) || FreeMatch(table, TuisOf(tuis), attached, ActiveRoots(table))
  {
    var one, two := TwoCalls(table, tuis, instance, before, between, after, first, second);
    IdempotentIff(table, TuisOf(tuis), View(before, instance));
    PassGrows(table, TuisOf(tuis), View(before, instance));
    PassIsInjective(table, TuisOf(tuis), one);
    MoreAttached(tuis, one, two, first, second);
  }

  lemma {:induction false} MoreAttached(tuis: seq<Tui>, one: Claims, two: Claims, first: Result, second: Result)
    requires UniqueKeys(tuis) && Extends(one, two) && two.Keys <= TuisOf(tuis).Keys
    requires Attaches(tuis, one, first) && Attaches(tuis, two, second)
    ensures (exists j: nat :: j < |tuis| && AttachedSecond(first, second, j)) <==> one != two
  {
    TuisOfMeaning(tuis);
    if one != two {
      assert one.Keys != two.Keys;
      var key :| key in two && key !in one;
      var j: nat :| j < |tuis| && tuis[j] == TuisOf(tuis)[key];
      assert AttachedSecond(first, second, j);
    }
  }
}
