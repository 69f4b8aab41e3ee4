/** What the files of one call make of the memory views. */
module MemoryLaws {
  import opened Wrappers
  import opened Memory

  /** The process of the instance is known and was found in the group `key`. */
  predicate FoundIn(before: map<InstanceId, Target>, files: Files, id: InstanceId, key: nat) {
    && id in before && (before[id].startTime.Some? || id in files.starts)
    && id in files.scopes && files.scopes[id].key == key
  }

  /** Some instance was found at the group's path, one is still there when looked at again,
      and the amount can be read there. */
  ghost predicate Readable(before: map<InstanceId, Target>, files: Files, key: nat, path: nat) {
    && (exists id :: FoundIn(before, files, id, key) && files.scopes[id] == Scope(key, path))
    && (exists id :: FoundIn(before, files, id, key) && id in files.again && files.again[id] == Scope(key, path))
    && path in files.amounts
  }

  /** The contract of a call of `SampleAll`. */
  ghost predicate Called(before: map<InstanceId, Target>, instances: map<InstanceId, Target>, past: map<nat, History>,
                         scopes: map<nat, History>, resolved: map<InstanceId, nat>, files: Files, now: Instant) {
    && FoundScopes(before, instances, {}, files, resolved)
    && GroupsSampled(past, scopes, instances, resolved, files, now)
    && PlacesFound(past, scopes, resolved, files)
    && scopes.Keys == Referenced(instances)
  }

  lemma ResolvedMeansFound(before: map<InstanceId, Target>, instances: map<InstanceId, Target>, resolved: map<InstanceId, nat>,
                           files: Files, id: InstanceId, key: nat)
    requires FoundScopes(before, instances, {}, files, resolved)
    requires forall j :: j in resolved ==> j in files.scopes && files.scopes[j].key == resolved[j]
    ensures FoundIn(before, files, id, key) <==> id in resolved && resolved[id] == key
  {
  }

  lemma GroupReadable(before: map<InstanceId, Target>, instances: map<InstanceId, Target>, past: map<nat, History>,
                      scopes: map<nat, History>, resolved: map<InstanceId, nat>, files: Files, now: Instant, key: nat)
    requires Called(before, instances, past, scopes, resolved, files, now) && key in scopes
    ensures Readable(before, files, key, scopes[key].path) <==>
            && key in resolved.Values && Confirmed(instances, resolved, files, Scope(key, scopes[key].path))
            && scopes[key].path in files.amounts
  {
    FoundMeansResolved(before, instances, resolved, files, key);
    PlaceMeans(before, resolved, files, key, scopes[key].path);
    AgainMeans(before, instances, resolved, files, key, scopes[key].path);
  }

  /** The instances found in the group are those that the call resolved to it. */
  ghost predicate ResolvedAre(before: map<InstanceId, Target>, resolved: map<InstanceId, nat>, files: Files, key: nat) {
    forall id :: FoundIn(before, files, id, key) <==> id in resolved && resolved[id] == key
  }

  lemma FoundMeansResolved(before: map<InstanceId, Target>, instances: map<InstanceId, Target>, resolved: map<InstanceId, nat>,
                           files: Files, key: nat)
    requires FoundScopes(before, instances, {}, files, resolved)
    requires forall j :: j in resolved ==> j in files.scopes && files.scopes[j].key == resolved[j]
    ensures ResolvedAre(before, resolved, files, key)
  {
    forall id ensures FoundIn(before, files, id, key) <==> id in resolved && resolved[id] == key {
      ResolvedMeansFound(before, instances, resolved, files, id, key);
    }
  }

  lemma PlaceMeans(before: map<InstanceId, Target>, resolved: map<InstanceId, nat>, files: Files, key: nat, path: nat)
    requires ResolvedAre(before, resolved, files, key)
    requires key in resolved.Values ==> exists id :: id in resolved && id in files.scopes && files.scopes[id] == Scope(key, path)
    requires forall j :: j in resolved ==> j in files.scopes && files.scopes[j].key == resolved[j]
    ensures key in resolved.Values <==> exists id :: FoundIn(before, files, id, key) && files.scopes[id] == Scope(key, path)
  {
    if key in resolved.Values {
      var id :| id in resolved && id in files.scopes && files.scopes[id] == Scope(key, path);
      assert FoundIn(before, files, id, key);
    }
  }

  lemma AgainMeans(before: map<InstanceId, Target>, instances: map<InstanceId, Target>, resolved: map<InstanceId, nat>,
                   files: Files, key: nat, path: nat)
    requires ResolvedAre(before, resolved, files, key) && instances.Keys == before.Keys
    ensures Confirmed(instances, resolved, files, Scope(key, path)) <==>
            exists id :: FoundIn(before, files, id, key) && id in files.again && files.again[id] == Scope(key, path)
  {
    if Confirmed(instances, resolved, files, Scope(key, path)) {
      var id :| id in instances && id in resolved && resolved[id] == key && id in files.again && files.again[id] == Scope(key, path);
      assert FoundIn(before, files, id, key);
    }
    if id :| FoundIn(before, files, id, key) && id in files.again && files.again[id] == Scope(key, path) {
      assert id in instances && id in resolved && resolved[id] == key;
    }
  }

  /** What a call keeps of a group: the new amount and a sample of it if it could be read, and
      otherwise what was known; old samples go in either case. */
  ghost predicate NewHistory(past: History, after: History, readable: bool, files: Files, now: Instant) {
    if readable && after.path in files.amounts then
      var amount := files.amounts[after.path];
      && after.current == Some(amount) && after.sampledAt == Some(now)
      && after.observedPeak.Some? && after.observedPeak.value >= amount
      && (past.observedPeak.Some? ==> after.observedPeak.value >= past.observedPeak.value)
      && (after.observedPeak.value == amount || after.observedPeak == past.observedPeak)
      && after.samples != [] && after.samples[|after.samples| - 1] == Sample(now, amount)
    else
      && after.current == past.current && after.sampledAt == past.sampledAt && after.observedPeak == past.observedPeak
  }

  lemma GroupKept(before: map<InstanceId, Target>, instances: map<InstanceId, Target>, past: map<nat, History>,
                  scopes: map<nat, History>, resolved: map<InstanceId, nat>, files: Files, now: Instant, key: nat)
    requires Called(before, instances, past, scopes, resolved, files, now) && key in scopes
    ensures NewHistory(Tracked(past, key), scopes[key], Readable(before, files, key, scopes[key].path), files, now)
  {
    GroupReadable(before, instances, past, scopes, resolved, files, now, key);
    assert GroupSampled(key, Tracked(past, key), scopes[key], instances, resolved, files, now);
  }

  /** The samples after a call: those of the last two hours, and the one just read, if any. */
  ghost predicate InWindow(past: seq<Sample>, after: seq<Sample>, read: Option<Amount>, now: Instant) {
    forall sample :: sample in after <==>
      || (sample in past && sample.at <= now <= sample.at + HISTORY_WINDOW)
      || (read.Some? && sample == Sample(now, read.value))
  }

  function AmountAt(readable: bool, files: Files, path: nat): Option<Amount> {
    if readable && path in files.amounts then Some(files.amounts[path]) else None
  }

  /** A group in which somebody was found keeps the samples of its window; the samples of any
      other group stay as they are. */
  lemma SamplesKept(before: map<InstanceId, Target>, instances: map<InstanceId, Target>, past: map<nat, History>,
                    scopes: map<nat, History>, resolved: map<InstanceId, nat>, files: Files, last: Option<Instant>, now: Instant, key: nat)
    requires Called(before, instances, past, scopes, resolved, files, now) && key in scopes
    requires forall k :: k in past ==> HistoryOk(past[k], last)
    requires last.Some? ==> last.value < now
    ensures if exists id :: FoundIn(before, files, id, key)
            then InWindow(Tracked(past, key).samples, scopes[key].samples,
                          AmountAt(Readable(before, files, key, scopes[key].path), files, scopes[key].path), now)
            else scopes[key].samples == Tracked(past, key).samples
  {
    var history := Tracked(past, key);
    GroupReadable(before, instances, past, scopes, resolved, files, now, key);
    FoundMeansResolved(before, instances, resolved, files, key);
    assert GroupSampled(key, history, scopes[key], instances, resolved, files, now);
    assert forall i :: 0 <= i < |history.samples| ==> history.samples[i] in history.samples;
    PrunedMeaning(history.samples, now);
  }

  /** A view is fresh if and only if its instance was found in this call and its group could
      be read, and then it shows the amount that was read. */
  lemma FreshIff(before: map<InstanceId, Target>, instances: map<InstanceId, Target>, past: map<nat, History>,
                 scopes: map<nat, History>, resolved: map<InstanceId, nat>, files: Files, last: Option<Instant>, now: Instant,
                 id: InstanceId, view: View)
    requires Called(before, instances, past, scopes, resolved, files, now)
    requires forall key :: key in past ==> HistoryOk(past[key], last)
    requires last.Some? ==> last.value < now
    requires id in instances && Shows(view, instances, id, id in resolved, scopes, now)
    ensures view.availability.Fresh? <==>
            exists key :: FoundIn(before, files, id, key) && key in scopes && Readable(before, files, key, scopes[key].path)
    ensures view.availability.Fresh? ==>
      && view.scope == Some(files.scopes[id].key) && view.scope.value in scopes
      && scopes[view.scope.value].path in files.amounts
      && view.current == Some(files.amounts[scopes[view.scope.value].path])
  {
    var scope := instances[id].scope;
    if scope.Some? && scope.value in scopes {
      GroupKept(before, instances, past, scopes, resolved, files, now, scope.value);
    }
    if id in resolved {
      ResolvedMeansFound(before, instances, resolved, files, id, resolved[id]);
    }
    forall key ensures FoundIn(before, files, id, key) <==> id in resolved && resolved[id] == key {
      ResolvedMeansFound(before, instances, resolved, files, id, key);
    }
  }

  /** What is remembered of an instance: its first known start time, and the last group in
      which its process was found. */
  lemma TargetRemembered(before: map<InstanceId, Target>, instances: map<InstanceId, Target>, resolved: map<InstanceId, nat>,
                         files: Files, id: InstanceId)
    requires FoundScopes(before, instances, {}, files, resolved) && id in before
    ensures id in instances
    ensures instances[id].startTime == (if before[id].startTime.Some? then before[id].startTime
                                        else if id in files.starts then Some(files.starts[id]) else None)
    ensures forall key: nat :: FoundIn(before, files, id, key) ==> instances[id].scope == Some(key)
    ensures (forall key: nat :: !FoundIn(before, files, id, key)) ==> instances[id].scope == before[id].scope
  {
    if instances[id].startTime.Some? && id in files.scopes {
      assert FoundIn(before, files, id, files.scopes[id].key);
    }
  }

  /** A view is marked shared if and only if another instance is in the same group, and its
      slope is that of the group's samples. */
  lemma ViewIsShared(view: View, instances: map<InstanceId, Target>, id: InstanceId, valid: bool, scopes: map<nat, History>, now: Instant)
    requires id in instances && Shows(view, instances, id, valid, scopes, now)
    ensures view.shared <==>
            exists other :: other in instances && other != id && instances[id].scope.Some? && instances[other].scope == instances[id].scope
  {
    if instances[id].scope.Some? {
      var users := Users(instances, instances[id].scope.value);
      assert id in users;
      if view.shared {
        assert |users - {id}| > 0;
        var other :| other in users - {id};
      }
      if other :| other in instances && other != id && instances[other].scope == instances[id].scope {
        assert {id, other} <= users;
        assert users == {id, other} + (users - {id, other});
      }
    }
  }

  /** If all its instances were found at one place, one of them is still there and the amount
      can be read, the group is fresh for each of them. */
  lemma GroupIsFresh(before: map<InstanceId, Target>, instances: map<InstanceId, Target>, past: map<nat, History>,
                     scopes: map<nat, History>, resolved: map<InstanceId, nat>, files: Files, last: Option<Instant>, now: Instant,
                     id: InstanceId, other: InstanceId, key: nat, path: nat, view: View)
    requires Called(before, instances, past, scopes, resolved, files, now)
    requires forall k :: k in past ==> HistoryOk(past[k], last)
    requires last.Some? ==> last.value < now
    requires id in instances && Shows(view, instances, id, id in resolved, scopes, now)
    requires FoundIn(before, files, id, key) && FoundIn(before, files, other, key)
    requires forall j :: FoundIn(before, files, j, key) ==> files.scopes[j] == Scope(key, path)
    requires other in files.again && files.again[other] == Scope(key, path) && path in files.amounts
    ensures view.availability.Fresh? && view.scope == Some(key) && view.current == Some(files.amounts[path])
  {
    ResolvedMeansFound(before, instances, resolved, files, id, key);
    assert instances[id].scope == Some(key);
    assert key in Referenced(instances);
    var j :| j in resolved && j in files.scopes && files.scopes[j] == Scope(key, scopes[key].path);
    ResolvedMeansFound(before, instances, resolved, files, j, key);
    assert scopes[key].path == path;
    FreshIff(before, instances, past, scopes, resolved, files, last, now, id, view);
  }
}
