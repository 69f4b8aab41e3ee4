/** The memory history of control groups: its window, its slope, and which groups are
    tracked. Instants are counted in nanoseconds. */
module Memory {
  import opened Wrappers

  type Instant = nat

  const SECOND: nat := 1_000_000_000
  const HISTORY_WINDOW: nat := 2 * 60 * 60 * SECOND
  const SLOPE_WINDOW: nat := 30 * 60 * SECOND
  const MAX_HISTORY_SAMPLES: nat := 721
  const MEMORY_SAMPLE_INTERVAL: nat := 10 * SECOND

  const I64_MAX: int := 0x7FFF_FFFF_FFFF_FFFF
  const I64_MIN: int := -I64_MAX - 1

  /** A 64-bit byte count. */
  type Amount = amount: nat | amount < 0x1_0000_0000_0000_0000

  datatype Sample = Sample(at: Instant, current: Amount)

  // ---------- the window ----------

  function Age(now: Instant, at: Instant): nat {
    if at <= now then now - at else 0
  }

  /** Samples are taken at least one interval apart. */
  predicate Spaced(samples: seq<Sample>) {
    forall i :: 0 < i < |samples| ==> samples[i - 1].at + MEMORY_SAMPLE_INTERVAL <= samples[i].at
  }

  predicate NotAfter(samples: seq<Sample>, now: Instant) {
    forall i :: 0 <= i < |samples| ==> samples[i].at <= now
  }

  function Pruned(samples: seq<Sample>, now: Instant): seq<Sample> {
    if samples == [] || Age(now, samples[0].at) <= HISTORY_WINDOW then samples else Pruned(samples[1..], now)
  }

  /** `prune_history`. */
  method PruneHistory(samples: seq<Sample>, now: Instant) returns (kept: seq<Sample>)
    ensures kept == Pruned(samples, now)
  {
    kept := samples;
    while kept != [] && Age(now, kept[0].at) > HISTORY_WINDOW
      invariant Pruned(kept, now) == Pruned(samples, now)
      decreases |kept|
    {
      kept := kept[1..];
    }
  }

  lemma {:induction false} SpacedApart(samples: seq<Sample>, i: nat, j: nat)
    requires Spaced(samples) && i <= j < |samples|
    ensures samples[i].at + (j - i) * MEMORY_SAMPLE_INTERVAL <= samples[j].at
    decreases j - i
  {
    if i < j {
      SpacedApart(samples, i, j - 1);
    }
  }

  lemma {:induction false} PrunedIsSuffix(samples: seq<Sample>, now: Instant) returns (n: nat)
    ensures n <= |samples| && Pruned(samples, now) == samples[n..]
    ensures forall i :: 0 <= i < n ==> Age(now, samples[i].at) > HISTORY_WINDOW
    ensures n < |samples| ==> Age(now, samples[n].at) <= HISTORY_WINDOW
  {
    if samples == [] || Age(now, samples[0].at) <= HISTORY_WINDOW {
      return 0;
    }
    var m := PrunedIsSuffix(samples[1..], now);
    assert samples[1..][m..] == samples[m + 1..];
    forall i | 0 <= i < m + 1 ensures Age(now, samples[i].at) > HISTORY_WINDOW {
      assert i > 0 ==> samples[i] == samples[1..][i - 1];
    }
    return m + 1;
  }

  lemma RecentFrom(samples: seq<Sample>, now: Instant, n: nat)
    requires Spaced(samples) && NotAfter(samples, now) && n <= |samples|
    requires n < |samples| ==> Age(now, samples[n].at) <= HISTORY_WINDOW
    ensures forall i :: n <= i < |samples| ==> now - samples[i].at <= HISTORY_WINDOW
  {
    forall i | n <= i < |samples| ensures now - samples[i].at <= HISTORY_WINDOW {
      SpacedApart(samples, n, i);
    }
  }

  /** Pruning keeps exactly the samples of the last two hours. */
  lemma {:induction false} PrunedMeaning(samples: seq<Sample>, now: Instant)
    requires Spaced(samples) && NotAfter(samples, now)
    ensures Spaced(Pruned(samples, now)) && NotAfter(Pruned(samples, now), now)
    ensures forall sample :: sample in Pruned(samples, now) <==> sample in samples && now - sample.at <= HISTORY_WINDOW
  {
    var n := PrunedIsSuffix(samples, now);
    SuffixStaysSpaced(samples, now, n);
    RecentFrom(samples, now, n);
    forall sample ensures sample in samples[n..] <==> sample in samples && now - sample.at <= HISTORY_WINDOW {
      SuffixHolds(samples, now, n, sample);
    }
  }

  lemma SuffixStaysSpaced(samples: seq<Sample>, now: Instant, n: nat)
    requires Spaced(samples) && NotAfter(samples, now) && n <= |samples|
    ensures Spaced(samples[n..]) && NotAfter(samples[n..], now)
  {
  }

  lemma SuffixHolds(samples: seq<Sample>, now: Instant, n: nat, sample: Sample)
    requires n <= |samples| && forall i :: 0 <= i < n ==> now - samples[i].at > HISTORY_WINDOW
    requires forall i :: n <= i < |samples| ==> now - samples[i].at <= HISTORY_WINDOW
    ensures sample in samples[n..] <==> sample in samples && now - sample.at <= HISTORY_WINDOW
  {
  }

  /** A window's worth of samples is never more than the cap. */
  lemma CapSuffices(samples: seq<Sample>, now: Instant)
    requires Spaced(samples) && NotAfter(samples, now)
    requires forall sample :: sample in samples ==> now - sample.at <= HISTORY_WINDOW
    ensures |samples| <= MAX_HISTORY_SAMPLES
  {
    if samples != [] {
      var last := |samples| - 1;
      SpacedApart(samples, 0, last);
      assert samples[0] in samples;
      assert last * MEMORY_SAMPLE_INTERVAL <= HISTORY_WINDOW;
    }
  }

  /** What `sample` does to one history: prune, append, cap. The cap removes nothing, so the
      history holds exactly the samples of the window. */
  method Append(samples: seq<Sample>, now: Instant, current: Amount) returns (after: seq<Sample>)
    requires Spaced(samples) && forall sample :: sample in samples ==> sample.at + MEMORY_SAMPLE_INTERVAL <= now
    ensures after == Pruned(samples, now) + [Sample(now, current)]
    ensures Spaced(after) && NotAfter(after, now)
  {
    assert NotAfter(samples, now) by {
      assert forall i :: 0 <= i < |samples| ==> samples[i] in samples;
    }
    after := PruneHistory(samples, now);
    PrunedMeaning(samples, now);
    assert after != [] ==> after[|after| - 1] in after;
    after := after + [Sample(now, current)];
    assert forall sample :: sample in after ==> now - sample.at <= HISTORY_WINDOW;
    CapSuffices(after, now);
    after := CapHistory(after);
  }

  /** The newest samples, as many as the cap allows. */
  method CapHistory(samples: seq<Sample>) returns (kept: seq<Sample>)
    ensures kept == if |samples| <= MAX_HISTORY_SAMPLES then samples else samples[|samples| - MAX_HISTORY_SAMPLES..]
  {
    kept := samples;
    while |kept| > MAX_HISTORY_SAMPLES
      invariant |kept| <= |samples| && kept == samples[|samples| - |kept|..]
      invariant |kept| < |samples| ==> |kept| >= MAX_HISTORY_SAMPLES
    {
      kept := kept[1..];
    }
  }

  // ---------- the slope ----------

  /** Rust's integer division truncates toward zero. */
  function Trunc(a: int, b: int): int
    requires b > 0
  {
    if a >= 0 then a / b else -((-a) / b)
  }

  function Seconds(duration: nat): nat {
    duration / SECOND
  }

  /** `i` is the newest sample at least half an hour older than the last. */
  predicate Reference(samples: seq<Sample>, i: nat) {
    && i < |samples|
    && samples[i].at + SLOPE_WINDOW <= samples[|samples| - 1].at
    && forall j :: i < j < |samples| ==> samples[j].at + SLOPE_WINDOW > samples[|samples| - 1].at
  }

  function PerMinute(past: Sample, last: Sample): int
    requires past.at + SLOPE_WINDOW <= last.at
  {
    SecondsEnough(last.at - past.at);
    Trunc((last.current as int - past.current as int) * 60, Seconds(last.at - past.at))
  }

  lemma SecondsEnough(duration: nat)
    requires SLOPE_WINDOW <= duration
    ensures Seconds(duration) >= Seconds(SLOPE_WINDOW) == 1800
  {
  }

  /** The slope times the whole seconds between the samples is sixty times the change in
      bytes, rounded toward zero. */
  lemma SlopeIsRate(past: Sample, last: Sample) returns (seconds: nat)
    requires past.at + SLOPE_WINDOW <= last.at
    ensures seconds * SECOND <= last.at - past.at < (seconds + 1) * SECOND
    ensures past.current <= last.current ==>
      PerMinute(past, last) * seconds <= 60 * (last.current - past.current) < (PerMinute(past, last) + 1) * seconds
    ensures past.current >= last.current ==>
      -PerMinute(past, last) * seconds <= 60 * (past.current - last.current) < (1 - PerMinute(past, last)) * seconds
  {
    seconds := Seconds(last.at - past.at);
    SecondsEnough(last.at - past.at);
  }

  /** No slope of 64-bit amounts leaves the 64-bit range. */
  lemma SlopeFits(past: Sample, last: Sample)
    requires past.at + SLOPE_WINDOW <= last.at
    ensures I64_MIN <= PerMinute(past, last) <= I64_MAX
  {
  }

  /** `slope`: the change per minute since the newest sample at least half an hour old. The
      guard on the seconds and the clamp to 64 bits are there, but never take effect. */
  method Slope(samples: seq<Sample>) returns (slope: Option<int>)
    ensures IsSlope(samples, slope)
  {
    if samples == [] {
      return None;
    }
    var last := samples[|samples| - 1];
    if last.at < SLOPE_WINDOW {
      return None;
    }
    var cutoff := last.at - SLOPE_WINDOW;
    var n: nat := |samples|;
    while n > 0 && samples[n - 1].at > cutoff
      invariant n <= |samples|
      invariant forall j :: n <= j < |samples| ==> samples[j].at > cutoff
    {
      n := n - 1;
    }
    if n == 0 {
      return None;
    }
    var past := samples[n - 1];
    assert Reference(samples, n - 1);
    SecondsEnough(last.at - past.at);
    var seconds := Seconds(last.at - past.at);
    if seconds < Seconds(SLOPE_WINDOW) {
      assert false;
    }
    var delta := last.current as int - past.current as int;
    var perMinute := Trunc(delta * 60, seconds);
    SlopeFits(past, last);
    slope := Some(if perMinute < I64_MIN then I64_MIN else if perMinute > I64_MAX then I64_MAX else perMinute);
  }

  // ---------- tracked groups ----------

  type InstanceId = nat

  /** A control group and where its files are. */
  datatype Scope = Scope(key: nat, path: nat)

  datatype Target = Target(startTime: Option<nat>, scope: Option<nat>)

  datatype History = History(path: nat, current: Option<Amount>, observedPeak: Option<Amount>, samples: seq<Sample>, sampledAt: Option<Instant>)

  /** What the process and control group files say during one call: start times, the scope
      of each instance when first and when again resolved, and the amount in use. */
  datatype Files = Files(starts: map<InstanceId, nat>, scopes: map<InstanceId, Scope>, again: map<InstanceId, Scope>, amounts: map<nat, Amount>)

  datatype Availability = Fresh | Stale | Unavailable

  datatype View = View(
    availability: Availability,
    current: Option<Amount>,
    observedPeak: Option<Amount>,
    slope: Option<int>,
    scope: Option<nat>,
    shared: bool)

  function Referenced(instances: map<InstanceId, Target>): set<nat> {
    set id | id in instances && instances[id].scope.Some? :: instances[id].scope.value
  }

  predicate HistoryOk(history: History, last: Option<Instant>) {
    && Spaced(history.samples)
    && (forall sample :: sample in history.samples ==> last.Some? && sample.at <= last.value)
    && (history.sampledAt.Some? ==> last.Some? && history.sampledAt.value <= last.value)
  }

  const NO_HISTORY: History := History(0, None, None, [], None)

  /** The history of a group that was tracked before, or a new one; it is read at `path`. */
  function Tracked(scopes: map<nat, History>, key: nat): History {
    if key in scopes then scopes[key] else NO_HISTORY
  }

  function Resolved(target: Target, id: InstanceId, files: Files): Target {
    var start := if target.startTime.Some? then target.startTime
                 else if id in files.starts then Some(files.starts[id]) else None;
    Target(start, if start.Some? && id in files.scopes then Some(files.scopes[id].key) else target.scope)
  }

  predicate Resolves(target: Target, id: InstanceId, files: Files) {
    (target.startTime.Some? || id in files.starts) && id in files.scopes
  }

  /** Whether one of the instances found in the group is still there. */
  predicate Confirmed(instances: map<InstanceId, Target>, resolved: map<InstanceId, nat>, files: Files, scope: Scope) {
    exists id :: id in instances && id in resolved && resolved[id] == scope.key && id in files.again && files.again[id] == scope
  }

  /** A history after a call that found the group. */
  function Sampled(history: History, valid: bool, files: Files, now: Instant): History {
    if valid && history.path in files.amounts then
      var current := files.amounts[history.path];
      History(history.path, Some(current),
              Some(if history.observedPeak.Some? && history.observedPeak.value > current then history.observedPeak.value else current),
              Pruned(history.samples, now) + [Sample(now, current)], Some(now))
    else history.(samples := Pruned(history.samples, now))
  }

  predicate IsSlope(samples: seq<Sample>, slope: Option<int>) {
    match slope
    case Some(_) => exists i: nat | i < |samples| ::
      Reference(samples, i) && slope == Some(PerMinute(samples[i], samples[|samples| - 1]))
    case None => forall i: nat | i < |samples| :: !Reference(samples, i)
  }

  class CgroupMemorySampler {
    var instances: map<InstanceId, Target>
    var scopes: map<nat, History>
    var lastSample: Option<Instant>

    /** Exactly the groups that some instance is in are tracked. */
    ghost predicate Valid()
      reads this
    {
      && scopes.Keys == Referenced(instances)
      && forall key :: key in scopes ==> HistoryOk(scopes[key], lastSample)
    }

    constructor ()
      ensures Valid() && instances == map[]
    {
      instances, scopes, lastSample := map[], map[], None;
    }

    /** `entry(key).or_insert_with(..)`. */
    method Track(scope: Scope)
      modifies this`scopes
      ensures scope.key in old(scopes) ==> scopes == old(scopes)
      ensures scope.key !in old(scopes) ==> scopes == old(scopes)[scope.key := NO_HISTORY.(path := scope.path)]
    {
      if scope.key !in scopes {
        scopes := scopes[scope.key := NO_HISTORY.(path := scope.path)];
      }
    }

    method PurgeUnreferencedScopes()
      modifies this`scopes
      ensures scopes.Keys == old(scopes).Keys * Referenced(instances)
      ensures forall key :: key in scopes ==> scopes[key] == old(scopes)[key]
    {
      scopes := scopes - (scopes.Keys - Referenced(instances));
    }

    method Register(id: InstanceId, files: Files)
      requires Valid()
      modifies this`instances, this`scopes
      ensures Valid()
      ensures instances == old(instances)[id := Resolved(Target(None, None), id, files)]
      ensures forall key :: key in scopes ==>
        scopes[key] == if key in old(scopes) then old(scopes)[key] else NO_HISTORY.(path := files.scopes[id].path)
    {
      var start := if id in files.starts then Some(files.starts[id]) else None;
      var scope: Option<nat> := None;
      if start.Some? && id in files.scopes {
        Track(files.scopes[id]);
        scope := Some(files.scopes[id].key);
      }
      ghost var before := instances;
      instances := instances[id := Target(start, scope)];
      ReferencedAfter(before, id, instances[id]);
      PurgeUnreferencedScopes();
    }

    method Remove(id: InstanceId)
      requires Valid()
      modifies this`instances, this`scopes
      ensures Valid()
      ensures instances == old(instances) - {id}
      ensures forall key :: key in scopes ==> key in old(scopes) && scopes[key] == old(scopes)[key]
    {
      instances := instances - {id};
      assert Referenced(instances) <= Referenced(old(instances));
      PurgeUnreferencedScopes();
    }

    /** The first loop of `sample`: where each instance runs now. */
    method ResolveAll(files: Files) returns (resolved: map<InstanceId, nat>)
      requires Valid()
      modifies this`instances, this`scopes
      ensures FoundScopes(old(instances), instances, {}, files, resolved)
      ensures Referenced(instances) <= scopes.Keys && Located(old(scopes), scopes)
      ensures PlacesFound(old(scopes), scopes, resolved, files)
    {
      resolved := map[];
      var rest := instances.Keys;
      while rest != {}
        invariant rest <= old(instances).Keys
        invariant FoundScopes(old(instances), instances, rest, files, resolved)
        invariant Referenced(instances) <= scopes.Keys && Located(old(scopes), scopes)
        invariant PlacesFound(old(scopes), scopes, resolved, files) && rest !! resolved.Keys
        decreases rest
      {
        var id :| id in rest;
        ghost var before, known, places := instances, resolved, scopes;
        var scope := ResolveOne(id, files, old(scopes));
        if scope.Some? {
          resolved := resolved[id := scope.value];
        }
        PlaceOneMore(old(scopes), places, scopes, known, id, scope, resolved, files);
        FoundOneMore(old(instances), before, rest, files, known, id, instances, resolved);
        ReferencedAfter(before, id, instances[id]);
        rest := rest - {id};
      }
    }

    method ResolveOne(id: InstanceId, files: Files, ghost start: map<nat, History>) returns (scope: Option<nat>)
      requires id in instances && Referenced(instances) <= scopes.Keys && Located(start, scopes)
      modifies this`instances, this`scopes
      ensures instances == old(instances)[id := Resolved(old(instances)[id], id, files)]
      ensures scope == if Resolves(old(instances)[id], id, files) then Some(files.scopes[id].key) else None
      ensures scopes == if scope.Some?
                        then old(scopes)[scope.value := Tracked(old(scopes), scope.value).(path := files.scopes[id].path)]
                        else old(scopes)
      ensures old(scopes).Keys <= scopes.Keys && Located(start, scopes)
      ensures instances[id].scope.Some? ==> instances[id].scope.value in scopes
    {
      assert instances[id].scope.Some? ==> instances[id].scope.value in Referenced(instances);
      var target := instances[id];
      scope := None;
      if target.startTime.Some? || id in files.starts {
        if target.startTime.None? {
          target := target.(startTime := Some(files.starts[id]));
        }
        if id in files.scopes {
          scope := Some(files.scopes[id].key);
          target := target.(scope := scope);
          Locate(files.scopes[id]);
        }
        instances := instances[id := target];
      }
    }

    /** `entry(key).and_modify(..).or_insert_with(..)`. */
    method Locate(scope: Scope)
      modifies this`scopes
      ensures scopes == old(scopes)[scope.key := Tracked(old(scopes), scope.key).(path := scope.path)]
    {
      if scope.key in scopes {
        scopes := scopes[scope.key := scopes[scope.key].(path := scope.path)];
      } else {
        Track(scope);
      }
    }

    /** The second loop of `sample`. Every group to be sampled is tracked. */
    method SampleScopes(keys: set<nat>, resolved: map<InstanceId, nat>, files: Files, now: Instant)
      requires keys <= scopes.Keys
      requires forall key :: key in scopes ==> HistoryOk(scopes[key], lastSample)
      requires lastSample.Some? ==> lastSample.value + MEMORY_SAMPLE_INTERVAL <= now
      modifies this`scopes
      ensures scopes.Keys == old(scopes).Keys
      ensures AllSampled(old(scopes), scopes, keys, instances, resolved, files, now)
    {
      var rest := keys;
      while rest != {}
        invariant rest <= keys <= scopes.Keys
        invariant AllSampled(old(scopes), scopes, keys - rest, instances, resolved, files, now)
        decreases rest
      {
        var key :| key in rest;
        var history := SampleOne(scopes[key], Confirmed(instances, resolved, files, Scope(key, scopes[key].path)), files, now);
        ghost var before := scopes;
        scopes := scopes[key := history];
        SampledOneMore(old(scopes), before, keys, rest, instances, resolved, files, now, key, scopes);
        rest := rest - {key};
      }
    }

    method SampleOne(before: History, valid: bool, files: Files, now: Instant) returns (history: History)
      requires HistoryOk(before, lastSample) && (lastSample.Some? ==> lastSample.value + MEMORY_SAMPLE_INTERVAL <= now)
      ensures history == Sampled(before, valid, files, now)
    {
      if valid && before.path in files.amounts {
        var current := files.amounts[before.path];
        var samples := Append(before.samples, now, current);
        var peak := if before.observedPeak.Some? && before.observedPeak.value > current then before.observedPeak.value else current;
        history := History(before.path, Some(current), Some(peak), samples, Some(now));
      } else {
        var samples := PruneHistory(before.samples, now);
        history := before.(samples := samples);
      }
    }

    /** `sample`, at least one interval after the last call. */
    method SampleAll(files: Files, now: Instant) returns (views: map<InstanceId, View>, ghost resolved: map<InstanceId, nat>)
      requires Valid() && (lastSample.Some? ==> lastSample.value + MEMORY_SAMPLE_INTERVAL <= now)
      modifies this
      ensures Valid() && lastSample == Some(now)
      ensures FoundScopes(old(instances), instances, {}, files, resolved)
      ensures GroupsSampled(old(scopes), scopes, instances, resolved, files, now)
      ensures PlacesFound(old(scopes), scopes, resolved, files)
      ensures views.Keys == instances.Keys
      ensures forall id :: id in views ==> Shows(views[id], instances, id, id in resolved, scopes, now)
      ensures forall id :: id in views && views[id].availability.Fresh? ==>
        id in resolved && ReadNow(views[id], resolved[id], instances, resolved, files, scopes)
    {
      var found := SampleGroups(files, now);
      views := ViewAll(found, now);
      resolved := found;
    }

    /** The last part of `sample`: one view for each instance. */
    method ViewAll(resolved: map<InstanceId, nat>, now: Instant) returns (views: map<InstanceId, View>)
      ensures views.Keys == instances.Keys
      ensures forall id :: id in views ==> Shows(views[id], instances, id, id in resolved, scopes, now)
    {
      views := map[];
      var rest := instances.Keys;
      while rest != {}
        invariant rest <= instances.Keys && views.Keys == instances.Keys - rest
        invariant forall id :: id in views ==> Shows(views[id], instances, id, id in resolved, scopes, now)
        decreases rest
      {
        var id :| id in rest;
        var view := ViewOf(id, id in resolved, now);
        views := views[id := view];
        rest := rest - {id};
      }
    }

    /** The part of `sample` that changes the histories. */
    method SampleGroups(files: Files, now: Instant) returns (resolved: map<InstanceId, nat>)
      requires Valid() && (lastSample.Some? ==> lastSample.value + MEMORY_SAMPLE_INTERVAL <= now)
      modifies this
      ensures Valid() && lastSample == Some(now)
      ensures FoundScopes(old(instances), instances, {}, files, resolved)
      ensures GroupsSampled(old(scopes), scopes, instances, resolved, files, now)
      ensures PlacesFound(old(scopes), scopes, resolved, files)
      ensures forall key :: key in scopes && scopes[key].sampledAt == Some(now) ==>
        IsRead(key, scopes[key], instances, resolved, files)
    {
      resolved := ResolveAll(files);
      LocatedOk(old(scopes), scopes, lastSample);
      ghost var located := scopes;
      PurgeUnreferencedScopes();
      ghost var purged := scopes;
      SampledAreTracked(instances, resolved, scopes);
      SampleScopes(resolved.Values, resolved, files, now);
      SampledOk(purged, scopes, resolved.Values, instances, resolved, files, lastSample, now);
      SampledGroups(old(scopes), located, purged, scopes, instances, resolved, files, now);
      PlacesStay(old(scopes), located, purged, scopes, instances, resolved, files, now);
      lastSample := Some(now);
    }

    method ViewOf(id: InstanceId, identityValid: bool, now: Instant) returns (view: View)
      requires id in instances
      ensures Shows(view, instances, id, identityValid, scopes, now)
    {
      if instances[id].scope.None? {
        return View(Unavailable, None, None, None, None, false);
      }
      var key := instances[id].scope.value;
      var shared := |Users(instances, key)| > 1;
      if key !in scopes || scopes[key].current.None? {
        return View(Unavailable, None, None, None, Some(key), shared);
      }
      var history := scopes[key];
      var slope := Slope(history.samples);
      var current := identityValid && history.sampledAt == Some(now);
      return View(if current then Fresh else Stale, history.current, history.observedPeak, slope, Some(key), shared);
    }
  }

  function Users(instances: map<InstanceId, Target>, key: nat): set<InstanceId> {
    set id | id in instances && instances[id].scope == Some(key)
  }

  /** The instances outside `rest` are resolved; `resolved` says which of them succeeded. */
  ghost predicate FoundScopes(before: map<InstanceId, Target>, after: map<InstanceId, Target>, rest: set<InstanceId>, files: Files,
                        resolved: map<InstanceId, nat>)
  {
    && after.Keys == before.Keys
    && (forall id :: id in after ==> after[id] == (if id in rest then before[id] else Resolved(before[id], id, files)))
    && (forall id :: id in resolved <==> id in before && id !in rest && Resolves(before[id], id, files))
    && (forall id :: id in resolved ==> after[id].scope == Some(resolved[id]))
  }

  /** Histories are the same as before, or new, wherever their files are now. */
  ghost predicate Located(before: map<nat, History>, after: map<nat, History>) {
    before.Keys <= after.Keys && forall key :: key in after ==> after[key] == Tracked(before, key).(path := after[key].path)
  }

  /** A group in which an instance was found is read where one of them found it. */
  ghost predicate PlacesFound(before: map<nat, History>, after: map<nat, History>, resolved: map<InstanceId, nat>, files: Files) {
    && (forall id :: id in resolved ==> id in files.scopes && files.scopes[id].key == resolved[id])
    && forall key :: key in after ==>
         if key in resolved.Values
         then exists id :: id in resolved && id in files.scopes && files.scopes[id] == Scope(key, after[key].path)
         else key in before && after[key].path == before[key].path
  }

  lemma PlaceOneMore(start: map<nat, History>, before: map<nat, History>, after: map<nat, History>, known: map<InstanceId, nat>,
                     id: InstanceId, scope: Option<nat>, resolved: map<InstanceId, nat>, files: Files)
    requires PlacesFound(start, before, known, files) && id !in known
    requires scope.Some? ==> id in files.scopes && scope.value == files.scopes[id].key
    requires resolved == if scope.Some? then known[id := scope.value] else known
    requires after == if scope.Some?
                      then before[scope.value := Tracked(before, scope.value).(path := files.scopes[id].path)] else before
    ensures PlacesFound(start, after, resolved, files)
  {
    forall key | key in after
      ensures if key in resolved.Values
              then exists j :: j in resolved && j in files.scopes && files.scopes[j] == Scope(key, after[key].path)
              else key in start && after[key].path == start[key].path
    {
      if scope == Some(key) {
        assert id in resolved && resolved[id] == key;
      } else {
        assert key in before;
        if key in known.Values {
          var j :| j in known && j in files.scopes && files.scopes[j] == Scope(key, before[key].path);
          assert resolved[j] == known[j];
        } else {
          assert key !in resolved.Values;
        }
      }
    }
  }

  lemma FoundOneMore(start: map<InstanceId, Target>, before: map<InstanceId, Target>, rest: set<InstanceId>, files: Files,
                     known: map<InstanceId, nat>, id: InstanceId, after: map<InstanceId, Target>, resolved: map<InstanceId, nat>)
    requires FoundScopes(start, before, rest, files, known) && id in rest && id in start
    requires after == before[id := Resolved(before[id], id, files)]
    requires resolved == if Resolves(before[id], id, files) then known[id := files.scopes[id].key] else known
    ensures FoundScopes(start, after, rest - {id}, files, resolved)
  {
  }

  lemma LocatedOk(before: map<nat, History>, after: map<nat, History>, last: Option<Instant>)
    requires Located(before, after) && forall key :: key in before ==> HistoryOk(before[key], last)
    ensures forall key :: key in after ==> HistoryOk(after[key], last)
  {
  }

  ghost predicate AllSampled(before: map<nat, History>, after: map<nat, History>, keys: set<nat>, instances: map<InstanceId, Target>,
                             resolved: map<InstanceId, nat>, files: Files, now: Instant)
  {
    && after.Keys == before.Keys
    && forall key :: key in after ==>
         (after[key] == if key in keys
                        then Sampled(before[key], Confirmed(instances, resolved, files, Scope(key, before[key].path)), files, now)
                        else before[key])
  }

  /** What became of the histories: those of the groups in which an instance was found were
      sampled where the group is now, the others are as before. */
  ghost predicate GroupsSampled(before: map<nat, History>, after: map<nat, History>, instances: map<InstanceId, Target>,
                                resolved: map<InstanceId, nat>, files: Files, now: Instant)
  {
    forall key :: key in after ==> GroupSampled(key, Tracked(before, key), after[key], instances, resolved, files, now)
  }

  predicate GroupSampled(key: nat, before: History, after: History, instances: map<InstanceId, Target>,
                         resolved: map<InstanceId, nat>, files: Files, now: Instant)
  {
    var located := before.(path := after.path);
    after == if key in resolved.Values
             then Sampled(located, Confirmed(instances, resolved, files, Scope(key, located.path)), files, now)
             else located
  }

  lemma PlacesStay(before: map<nat, History>, located: map<nat, History>, purged: map<nat, History>, after: map<nat, History>,
                   instances: map<InstanceId, Target>, resolved: map<InstanceId, nat>, files: Files, now: Instant)
    requires PlacesFound(before, located, resolved, files)
    requires purged.Keys <= located.Keys && forall key :: key in purged ==> purged[key] == located[key]
    requires AllSampled(purged, after, resolved.Values, instances, resolved, files, now)
    ensures PlacesFound(before, after, resolved, files)
  {
  }

  lemma SampledGroups(before: map<nat, History>, located: map<nat, History>, purged: map<nat, History>, after: map<nat, History>,
                      instances: map<InstanceId, Target>, resolved: map<InstanceId, nat>, files: Files, now: Instant)
    requires Located(before, located)
    requires purged.Keys <= located.Keys && forall key :: key in purged ==> purged[key] == located[key]
    requires AllSampled(purged, after, resolved.Values, instances, resolved, files, now)
    ensures GroupsSampled(before, after, instances, resolved, files, now)
  {
  }

  lemma SampledOneMore(start: map<nat, History>, before: map<nat, History>, keys: set<nat>, rest: set<nat>,
                       instances: map<InstanceId, Target>, resolved: map<InstanceId, nat>, files: Files, now: Instant,
                       key: nat, after: map<nat, History>)
    requires AllSampled(start, before, keys - rest, instances, resolved, files, now) && key in rest && rest <= keys && key in start
    requires after == before[key := Sampled(before[key], Confirmed(instances, resolved, files, Scope(key, before[key].path)), files, now)]
    ensures AllSampled(start, after, keys - (rest - {key}), instances, resolved, files, now)
  {
  }

  /** The group was found again where the history says, and its amount was read there. */
  predicate IsRead(key: nat, history: History, instances: map<InstanceId, Target>, resolved: map<InstanceId, nat>, files: Files) {
    && Confirmed(instances, resolved, files, Scope(key, history.path))
    && history.path in files.amounts && history.current == Some(files.amounts[history.path])
  }

  /** The view shows the group that its instance was found in, read in this call. */
  predicate ReadNow(view: View, key: nat, instances: map<InstanceId, Target>, resolved: map<InstanceId, nat>, files: Files,
                    scopes: map<nat, History>)
  {
    view.scope == Some(key) && key in scopes && view.current == scopes[key].current
    && IsRead(key, scopes[key], instances, resolved, files)
  }

  lemma ReferencedAfter(before: map<InstanceId, Target>, id: InstanceId, target: Target)
    ensures Referenced(before[id := target]) <= Referenced(before) + (if target.scope.Some? then {target.scope.value} else {})
    ensures target.scope.Some? ==> target.scope.value in Referenced(before[id := target])
  {
    assert before[id := target][id] == target;
  }

  /** What a view says of an instance. */
  predicate Shows(view: View, instances: map<InstanceId, Target>, id: InstanceId, identityValid: bool, scopes: map<nat, History>, now: Instant)
    requires id in instances
  {
    var scope := instances[id].scope;
    && view.scope == scope
    && view.shared == (scope.Some? && |Users(instances, scope.value)| > 1)
    && if scope.None? || scope.value !in scopes || scopes[scope.value].current.None?
       then view.availability.Unavailable? && view.current.None? && view.observedPeak.None? && view.slope.None?
       else
         var history := scopes[scope.value];
         && view.current == history.current && view.observedPeak == history.observedPeak
         && view.availability == (if identityValid && history.sampledAt == Some(now) then Fresh else Stale)
         && IsSlope(history.samples, view.slope)
  }

  lemma SampledAreTracked(instances: map<InstanceId, Target>, resolved: map<InstanceId, nat>, scopes: map<nat, History>)
    requires Referenced(instances) <= scopes.Keys
    requires forall id :: id in resolved ==> id in instances && instances[id].scope == Some(resolved[id])
    ensures resolved.Values <= scopes.Keys
  {
  }

  lemma SampledOk(before: map<nat, History>, after: map<nat, History>, keys: set<nat>, instances: map<InstanceId, Target>,
                  resolved: map<InstanceId, nat>, files: Files, last: Option<Instant>, now: Instant)
    requires AllSampled(before, after, keys, instances, resolved, files, now)
    requires forall key :: key in before ==> HistoryOk(before[key], last)
    requires last.Some? ==> last.value + MEMORY_SAMPLE_INTERVAL <= now
    ensures forall key :: key in after ==> HistoryOk(after[key], Some(now))
    ensures forall key :: key in after && after[key].sampledAt == Some(now) ==> IsRead(key, after[key], instances, resolved, files)
  {
    forall key | key in after
      ensures HistoryOk(after[key], Some(now))
      ensures after[key].sampledAt == Some(now) ==> IsRead(key, after[key], instances, resolved, files)
    {
      SampledHistoryOk(before[key], Confirmed(instances, resolved, files, Scope(key, before[key].path)), files, last, now);
    }
  }

  lemma SampledHistoryOk(history: History, valid: bool, files: Files, last: Option<Instant>, now: Instant)
    requires HistoryOk(history, last) && (last.Some? ==> last.value + MEMORY_SAMPLE_INTERVAL <= now)
    ensures HistoryOk(Sampled(history, valid, files, now), Some(now))
  {
    assert NotAfter(history.samples, now) by {
      assert forall i :: 0 <= i < |history.samples| ==> history.samples[i] in history.samples;
    }
    PrunedMeaning(history.samples, now);
    var kept := Pruned(history.samples, now);
    assert kept != [] ==> kept[|kept| - 1] in kept;
  }
}
