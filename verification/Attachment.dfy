/** `AttachmentSampler`: the TUIs beside the v2 servers, kept over one missed scan. */
module Attachment {
  import opened Wrappers
  import opened Lifecycle
  import opened Matching

  /** A TUI and the server it is connected to. */
  datatype Likely = Likely(tui: Tui, instance: Key)

  datatype Kept = Kept(likely: Likely, misses: nat)

  type Retained = retained: map<TuiKey, Kept> | forall key :: key in retained ==> retained[key].likely.tui.key == key

  predicate UniqueTuis(observed: seq<Likely>) {
    forall i, j :: 0 <= i < j < |observed| ==> observed[i].tui.key != observed[j].tui.key
  }

  function KeysOf(observed: seq<Likely>): set<TuiKey> {
    set likely | likely in observed :: likely.tui.key
  }

  function Fresh(likely: Likely): Likely {
    likely.(tui := likely.tui.(stale := false))
  }

  function Stale(kept: Kept): Kept {
    kept.(likely := kept.likely.(tui := kept.likely.tui.(stale := true)))
  }

  function Missed(kept: Kept): Kept {
    Stale(kept).(misses := kept.misses + 1)
  }

  function At(retained: Retained, key: TuiKey): Option<Kept> {
    if key in retained then Some(retained[key]) else None
  }

  /** A TUI that had not been missed is kept, marked stale and with one miss; another goes. */
  predicate KeptOnce(before: Kept, after: Option<Kept>) {
    if before.misses == 0
    then after == Some(Kept(Likely(before.likely.tui.(stale := true), before.likely.instance), 1))
    else after == None
  }

  /** What is not found is kept for one more scan. */
  function Aged(before: Option<Kept>): Option<Kept> {
    if before.None? || before.value.misses + 1 >= 2 then None else Some(Missed(before.value))
  }

  /** A scan keeps what it found, and for one more scan what it did not. */
  ghost predicate ScannedAt(before: Option<Kept>, observed: seq<Likely>, key: TuiKey, after: Option<Kept>) {
    if key in KeysOf(observed)
    then exists likely :: likely in observed && likely.tui.key == key && after == Some(Kept(Fresh(likely), 0))
    else after == Aged(before)
  }

  /** The server of `instance` speaks v2 and has not been removed. */
  predicate Serves(world: World, instance: Key) {
    instance in world.open && world.open[instance].server.protocol.ProtocolV2?
  }

  /** What a scan of the sockets of these servers can bring up. */
  predicate ScanOf(observed: seq<Likely>, targets: Places) {
    UniqueTuis(observed) && forall likely :: likely in observed ==> exists endpoint :: endpoint in targets && targets[endpoint] == likely.instance
  }

  lemma TargetsServe(log: seq<Event>, endpoint: Endpoint)
    requires Legal(log) && endpoint in SamplerTargets(log)
    ensures Serves(Replay(log), SamplerTargets(log)[endpoint])
  {
    ConsumersMirror(log);
  }

  /** Only its own removal ends a server's service. */
  lemma StillServes(log: seq<Event>, event: Event, instance: Key)
    requires Legal(log + [event]) && Serves(Replay(log), instance)
    ensures !(event.Removed? && event.server.key == instance) ==> Serves(Replay(log + [event]), instance)
  {
  }

  class AttachmentSampler {
    var targets: Places
    var retained: Retained
    /** What the sampler has observed. */
    ghost var seen: seq<Event>

    /** The targets are the endpoints of the open v2 servers, and every TUI kept belongs to
        one of those servers. */
    ghost predicate Valid()
      reads this
    {
      && Legal(seen) && targets == SamplerTargets(seen)
      && (forall key :: key in retained ==> retained[key].misses < 2 && Serves(Replay(seen), retained[key].likely.instance))
    }

    constructor ()
      ensures Valid() && retained == map[] && seen == []
    {
      targets, retained, seen := map[], map[], [];
    }

    /** `observe`: a removed server takes its TUIs with it, and nothing else does. */
    method Observe(event: Event)
      requires Valid() && Legal(seen + [event])
      modifies this
      ensures Valid() && seen == old(seen) + [event]
      ensures forall key :: key in retained <==>
        key in old(retained) && Serves(Replay(seen), old(retained)[key].likely.instance)
      ensures forall key :: key in retained ==> retained[key] == old(retained)[key]
    {
      match event {
        case Found(server) =>
          if server.protocol.ProtocolV2? {
            targets := targets[server.endpoint := server.key];
          }
        case Removed(server) =>
          targets := targets - {server.endpoint};
          retained := retained - (set key | key in retained && retained[key].likely.instance == server.key);
        case _ =>
      }
      ReplayAppend(seen, event);
      forall key | key in retained ensures Serves(Replay(seen + [event]), retained[key].likely.instance) {
        StillServes(seen, event, retained[key].likely.instance);
      }
      assert (seen + [event])[..|seen|] == seen;
      seen := seen + [event];
    }

    method MissAll(keys: set<TuiKey>)
      requires keys <= retained.Keys
      modifies this`retained
      ensures retained.Keys == old(retained).Keys
      ensures forall key :: key in retained ==>
        retained[key] == if key in keys then Missed(old(retained)[key]) else old(retained)[key]
    {
      var rest := keys;
      while rest != {}
        invariant rest <= keys && retained.Keys == old(retained).Keys
        invariant forall key :: key in retained ==>
          retained[key] == if key in keys - rest then Missed(old(retained)[key]) else old(retained)[key]
        decreases rest
      {
        var key :| key in rest;
        var kept := retained[key];
        kept := kept.(misses := kept.misses + 1);
        kept := Stale(kept);
        retained := retained[key := kept];
        rest := rest - {key};
      }
    }

    /** `apply_success`. */
    method ApplySuccess(observed: seq<Likely>) returns (tuis: seq<Likely>)
      requires Valid() && ScanOf(observed, targets)
      modifies this`retained
      ensures Valid()
      ensures forall key :: ScannedAt(At(old(retained), key), observed, key, At(retained, key))
      ensures Lists(tuis, retained)
      ensures forall key :: key in old(retained) && (forall likely :: likely in observed ==> likely.tui.key != key) ==>
        KeptOnce(old(retained)[key], At(retained, key))
      ensures forall likely :: likely in observed ==>
        likely.tui.key in retained && retained[likely.tui.key] == Kept(Likely(likely.tui.(stale := false), likely.instance), 0)
    {
      Age(KeysOf(observed));
      ghost var remaining := retained;
      InsertAll(observed);
      forall key ensures ScannedAt(At(old(retained), key), observed, key, At(retained, key)) {
        ScannedOne(At(old(retained), key), At(remaining, key), observed, key, At(retained, key));
      }
      ScanServes(seen, targets, observed, old(retained), retained);
      ScanKeeps(observed, old(retained), retained);
      tuis := Current();
    }

    /** Counts a miss for everything but `found`, and gives up what was missed twice. */
    method Age(found: set<TuiKey>)
      requires Valid()
      modifies this`retained
      ensures forall key :: key !in found ==> At(retained, key) == Aged(At(old(retained), key))
    {
      MissAll(set key | key in retained && key !in found);
      retained := retained - (set key | key in retained && retained[key].misses >= 2);
    }

    /** The insertions of `apply_success`. */
    method InsertAll(observed: seq<Likely>)
      modifies this`retained
      ensures forall key :: InsertedAt(observed, key, At(old(retained), key), At(retained, key))
    {
      for i := 0 to |observed|
        invariant forall key :: InsertedAt(observed[..i], key, At(old(retained), key), At(retained, key))
      {
        ghost var before := retained;
        var likely := Fresh(observed[i]);
        retained := retained[likely.tui.key := Kept(likely, 0)];
        forall key ensures InsertedAt(observed[..i + 1], key, At(old(retained), key), At(retained, key)) {
          InsertOne(observed, i, key, At(old(retained), key), At(before, key), At(retained, key));
        }
      }
      assert observed[..|observed|] == observed;
    }

    /** `apply_failure`: everything kept turns stale, and nothing is given up. */
    method ApplyFailure() returns (tuis: seq<Likely>)
      requires Valid()
      modifies this`retained
      ensures Valid() && retained.Keys == old(retained).Keys
      ensures forall key :: key in retained ==> retained[key] == Stale(old(retained)[key])
      ensures Lists(tuis, retained)
    {
      var rest := retained.Keys;
      while rest != {}
        invariant rest <= retained.Keys == old(retained).Keys
        invariant forall key :: key in retained ==>
          retained[key] == if key in rest then old(retained)[key] else Stale(old(retained)[key])
        decreases rest
      {
        var key :| key in rest;
        retained := retained[key := Stale(retained[key])];
        rest := rest - {key};
      }
      tuis := Current();
    }

    /** `current`: every TUI kept, once. The list's order does not matter to the matching. */
    method Current() returns (tuis: seq<Likely>)
      ensures Lists(tuis, retained)
    {
      tuis := [];
      var rest := retained.Keys;
      while rest != {}
        invariant rest <= retained.Keys
        invariant Lists(tuis, retained - rest)
        decreases rest
      {
        var key :| key in rest;
        ListOne(tuis, retained, rest, key);
        tuis := tuis + [retained[key].likely];
        rest := rest - {key};
      }
      assert retained - rest == retained;
    }
  }

  lemma KeptServes(log: seq<Event>, targets: Places, observed: seq<Likely>, key: TuiKey, before: Option<Kept>, after: Kept)
    requires Legal(log) && targets == SamplerTargets(log) && ScanOf(observed, targets)
    requires ScannedAt(before, observed, key, Some(after))
    requires before.Some? ==> Serves(Replay(log), before.value.likely.instance)
    ensures Serves(Replay(log), after.likely.instance)
  {
    if key in KeysOf(observed) {
      var likely :| likely in observed && likely.tui.key == key && after == Kept(Fresh(likely), 0);
      var endpoint :| endpoint in targets && targets[endpoint] == likely.instance;
      TargetsServe(log, endpoint);
    }
  }

  lemma ScanKeeps(observed: seq<Likely>, before: Retained, after: Retained)
    requires UniqueTuis(observed)
    requires forall key :: ScannedAt(At(before, key), observed, key, At(after, key))
    ensures forall key :: key in before && (forall likely :: likely in observed ==> likely.tui.key != key) ==>
      KeptOnce(before[key], At(after, key))
    ensures forall likely :: likely in observed ==>
      likely.tui.key in after && after[likely.tui.key] == Kept(Likely(likely.tui.(stale := false), likely.instance), 0)
  {
    forall key | key in before && (forall likely :: likely in observed ==> likely.tui.key != key)
      ensures KeptOnce(before[key], At(after, key))
    {
      assert ScannedAt(At(before, key), observed, key, At(after, key)) && key !in KeysOf(observed);
    }
    forall likely | likely in observed
      ensures likely.tui.key in after && after[likely.tui.key] == Kept(Likely(likely.tui.(stale := false), likely.instance), 0)
    {
      assert ScannedAt(At(before, likely.tui.key), observed, likely.tui.key, At(after, likely.tui.key));
    }
  }

  lemma ScannedOne(before: Option<Kept>, aged: Option<Kept>, observed: seq<Likely>, key: TuiKey, after: Option<Kept>)
    requires key !in KeysOf(observed) ==> aged == Aged(before)
    requires InsertedAt(observed, key, aged, after)
    ensures ScannedAt(before, observed, key, after)
  {
  }

  lemma ScanServes(log: seq<Event>, targets: Places, observed: seq<Likely>, before: Retained, after: Retained)
    requires Legal(log) && targets == SamplerTargets(log) && ScanOf(observed, targets)
    requires forall key :: ScannedAt(At(before, key), observed, key, At(after, key))
    requires forall key :: key in before ==> before[key].misses < 2 && Serves(Replay(log), before[key].likely.instance)
    ensures forall key :: key in after ==> after[key].misses < 2 && Serves(Replay(log), after[key].likely.instance)
  {
    forall key | key in after ensures after[key].misses < 2 && Serves(Replay(log), after[key].likely.instance) {
      assert ScannedAt(At(before, key), observed, key, At(after, key));
      KeptServes(log, targets, observed, key, At(before, key), after[key]);
    }
  }

  predicate Lists(tuis: seq<Likely>, retained: Retained) {
    && UniqueTuis(tuis)
    && (forall likely :: likely in tuis ==> likely.tui.key in retained && retained[likely.tui.key].likely == likely)
    && (forall key :: key in retained ==> retained[key].likely in tuis)
  }

  lemma ListOne(tuis: seq<Likely>, retained: Retained, rest: set<TuiKey>, key: TuiKey)
    requires Lists(tuis, retained - rest) && key in rest && key in retained
    ensures Lists(tuis + [retained[key].likely], retained - (rest - {key}))
  {
    var after := tuis + [retained[key].likely];
    assert forall likely :: likely in after <==> likely in tuis || likely == retained[key].likely;
    var listed := retained - (rest - {key});
    forall k | k in listed ensures listed[k].likely in after {
      assert k != key ==> k in retained - rest && (retained - rest)[k].likely in tuis;
    }
    forall i, j | 0 <= i < j < |after| ensures after[i].tui.key != after[j].tui.key {
      assert after[i] in tuis;
      if j == |tuis| {
        assert after[i].tui.key in retained - rest;
      }
    }
  }

  ghost predicate InsertedAt(observed: seq<Likely>, key: TuiKey, before: Option<Kept>, after: Option<Kept>) {
    if key in KeysOf(observed)
    then exists likely :: likely in observed && likely.tui.key == key && after == Some(Kept(Fresh(likely), 0))
    else after == before
  }

  lemma InsertOne(observed: seq<Likely>, i: nat, key: TuiKey, start: Option<Kept>, before: Option<Kept>, after: Option<Kept>)
    requires i < |observed| && InsertedAt(observed[..i], key, start, before)
    requires after == if key == observed[i].tui.key then Some(Kept(Fresh(observed[i]), 0)) else before
    ensures InsertedAt(observed[..i + 1], key, start, after)
  {
  }
}
