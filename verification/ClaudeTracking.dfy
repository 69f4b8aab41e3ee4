/** `ClaudeTracker`: marker scans reduced to events. Every event is appended to `log`. */
module ClaudeTracking {
  import opened Wrappers
  import opened ClaudeLog

  datatype Observed = Observed(session: ClaudeSession, status: ClaudeStatus)

  datatype Retained = Retained(observed: Observed, misses: nat, armed: bool, stale: bool)

  type Sessions = sessions: map<SessionKey, Retained> | forall key :: key in sessions ==> sessions[key].observed.session.key == key

  // ---------- what a scan makes of one session ----------

  predicate UniquePids(observed: seq<Observed>) {
    forall i, j :: 0 <= i < j < |observed| ==> observed[i].session.key.pid != observed[j].session.key.pid
  }

  function KeysOf(observed: seq<Observed>): set<SessionKey> {
    set current | current in observed :: current.session.key
  }

  /** The process id now belongs to another process. */
  predicate Superseded(observed: seq<Observed>, key: SessionKey) {
    exists current :: current in observed && current.session.key.pid == key.pid && current.session.key != key
  }

  /** The entry of a session that was observed. */
  function Seen(previous: Option<Retained>, current: Observed): Retained {
    Retained(current, 0,
             if previous.None? || previous.value.observed.session.sessionId != current.session.sessionId
             then Working(current.status)
             else if current.status == previous.value.observed.status then previous.value.armed
             else Working(current.status) || (current.status.Unknown? && previous.value.armed),
             false)
  }

  /** The entry of a session that was not. */
  function Missed(previous: Retained): Retained {
    previous.(misses := previous.misses + 1, stale := true)
  }

  function Staled(retained: Retained): ClaudeEvent {
    Projected(retained.observed.session, retained.observed.status, true)
  }

  /** The events of a change of status. */
  function Turned(current: Observed, previous: ClaudeStatus, armed: bool): Log {
    [Changed(current.session, previous, current.status)]
    + if armed && current.status.Idle? then [Ready(current.session)] else []
  }

  /** The events of one observation. */
  function Told(previous: Option<Retained>, current: Observed): Log {
    var shown := Projected(current.session, current.status, false);
    match previous
    case None => [Found(current.session), shown]
    case Some(retained) =>
      if retained.observed.session.sessionId != current.session.sessionId then
        [Removed(retained.observed.session), Found(current.session), shown]
      else
        (if retained.observed.status != current.status then Turned(current, retained.observed.status, retained.armed) else [])
        + if retained.observed != current || retained.stale then [shown] else []
  }

  function At(sessions: Sessions, key: SessionKey): Option<Retained> {
    if key in sessions then Some(sessions[key]) else None
  }

  ghost predicate ScannedAt(before: Option<Retained>, observed: seq<Observed>, key: SessionKey, after: Option<Retained>) {
    if key in KeysOf(observed) then
      exists current :: current in observed && current.session.key == key && after == Some(Seen(before, current))
    else if before.None? || Superseded(observed, key) || before.value.misses + 1 >= 2 then after == None
    else after == Some(Missed(before.value))
  }

  /** A session that was not observed is kept for one scan, stale, unless its process id was
      observed with another start time. One that was is there, and nothing of it was missed. */
  ghost predicate KeptOnce(observed: seq<Observed>, before: Retained, after: Option<Retained>) {
    if exists current :: current in observed && current.session.key == before.observed.session.key then
      after.Some? && after.value.misses == 0 && !after.value.stale && after.value.observed in observed
    else if before.misses == 0 && !exists current :: current in observed && current.session.key.pid == before.observed.session.key.pid then
      after == Some(Retained(before.observed, 1, before.armed, true))
    else after == None
  }

  ghost predicate Scanned(before: Sessions, observed: seq<Observed>, after: Sessions) {
    forall key :: ScannedAt(At(before, key), observed, key, At(after, key))
  }

  // ---------- reading the markers ----------

  const MAX_MARKERS_PER_SCAN: nat := 1024

  /** A directory entry: the process id in its name, if it has one, and the session that
      its marker and its process describe, if they pass the checks. */
  datatype Marker = Marker(pid: Option<nat>, session: Option<Observed>)

  predicate Honest(marker: Marker) {
    marker.session.Some? ==> marker.pid == Some(marker.session.value.session.key.pid)
  }

  predicate FirstOfPid(markers: seq<Marker>, i: nat)
    requires i < |markers|
  {
    markers[i].pid.Some? && forall j :: 0 <= j < i ==> markers[j].pid != markers[i].pid
  }

  function Collected(markers: seq<Marker>): seq<Observed> {
    if markers == [] then []
    else
      var n := |markers| - 1;
      var init := Collected(markers[..n]);
      if FirstOfPid(markers, n) && markers[n].session.Some? then init + [markers[n].session.value] else init
  }

  /** `discover` and `scan` up to their final sort: the first marker of each process id
      counts, and too many entries are an error. */
  method Discover(markers: seq<Marker>) returns (sessions: Option<seq<Observed>>)
    requires forall marker :: marker in markers ==> Honest(marker)
    ensures sessions == if |markers| <= MAX_MARKERS_PER_SCAN then Some(Collected(markers)) else None
    ensures sessions.Some? ==> UniquePids(sessions.value)
  {
    var collected: seq<Observed> := [];
    var seenPids: set<nat> := {};
    for index := 0 to |markers|
      invariant index <= MAX_MARKERS_PER_SCAN
      invariant collected == Collected(markers[..index])
      invariant forall pid :: pid in seenPids <==> exists j :: 0 <= j < index && markers[j].pid == Some(pid)
    {
      if index >= MAX_MARKERS_PER_SCAN {
        return None;
      }
      var marker := markers[index];
      assert markers[..index + 1][..index] == markers[..index];
      if marker.pid.Some? && marker.pid.value !in seenPids {
        seenPids := seenPids + {marker.pid.value};
        if marker.session.Some? {
          collected := collected + [marker.session.value];
        }
      }
    }
    assert markers[..|markers|] == markers;
    CollectedPids(markers);
    return Some(collected);
  }

  /** No two collected sessions share a process id. */
  lemma {:induction false} CollectedPids(markers: seq<Marker>)
    requires forall marker :: marker in markers ==> Honest(marker)
    ensures UniquePids(Collected(markers))
    ensures forall current :: current in Collected(markers) ==>
              exists j :: 0 <= j < |markers| && markers[j].pid == Some(current.session.key.pid)
  {
    if markers != [] {
      var n := |markers| - 1;
      CollectedPids(markers[..n]);
      forall current | current in Collected(markers[..n])
        ensures exists j :: 0 <= j < n && markers[j].pid == Some(current.session.key.pid)
      {
        var j :| 0 <= j < n && markers[..n][j].pid == Some(current.session.key.pid);
        assert markers[j].pid == Some(current.session.key.pid);
      }
      assert markers[n] in markers;
    }
  }

  // ---------- how the log and the entries agree ----------

  ghost predicate AgreesAt(log: Log, key: SessionKey, entry: Option<Retained>) {
    && (key in Replay(log) <==> entry.Some?)
    && (entry.Some? ==>
          && Replay(log)[key] == Shown(entry.value.observed.session, entry.value.observed.status, entry.value.stale)
          && (entry.value.armed <==> WasWorking(log, key))
          && (entry.value.observed.status.Unknown? || LastKnown(log, key) == Some(entry.value.observed.status)))
  }

  ghost predicate Agrees(log: Log, sessions: Sessions) {
    forall key :: AgreesAt(log, key, At(sessions, key))
  }

  ghost predicate AgreesBut(log: Log, sessions: Sessions, but: SessionKey) {
    forall key :: key != but ==> AgreesAt(log, key, At(sessions, key))
  }

  lemma OthersAgree(log: Log, event: ClaudeEvent, sessions: Sessions)
    requires AgreesBut(log, sessions, event.session.key)
    ensures AgreesBut(log + [event], sessions, event.session.key)
  {
  }

  lemma AllAgree(log: Log, before: Sessions, after: Sessions, key: SessionKey)
    requires AgreesBut(log, before, key) && AgreesAt(log, key, At(after, key))
    requires after - {key} == before - {key}
    ensures Agrees(log, after)
  {
    forall other ensures AgreesAt(log, other, At(after, other)) {
      if other != key {
        assert AgreesAt(log, other, At(before, other));
        assert other in after - {key} <==> other in before - {key};
      }
    }
  }

  // ---------- what is announced ----------

  /** `event` was emitted after `before`. */
  ghost predicate Says(before: Log, after: Log, event: ClaudeEvent) {
    exists i :: |before| <= i < |after| && after[i] == event
  }

  /** Everything emitted after `before` is about the sessions at `keys`. */
  ghost predicate SpeaksOf(before: Log, after: Log, keys: set<SessionKey>) {
    before <= after && forall i :: |before| <= i < |after| ==> after[i].session.key in keys
  }

  ghost predicate SilentOn(before: Log, after: Log, key: SessionKey) {
    before <= after && forall i :: |before| <= i < |after| ==> after[i].session.key != key
  }

  /** If the session is on the screen under the same id and with another status, the change
      is announced with both statuses, and a ready notice if and only if the session is idle
      now and the last status known of it in this incarnation was busy or waiting. If it is on
      the screen exactly as it was observed, nothing is said of it. */
  ghost predicate Announced(before: Log, after: Log, current: Observed) {
    && (SameSession(Replay(before), current.session) && Replay(before)[current.session.key].status != current.status ==>
          && Says(before, after, Changed(current.session, Replay(before)[current.session.key].status, current.status))
          && (Says(before, after, Ready(current.session)) <==>
                current.status == Idle && Worked(before, current.session.key, |before|)))
    && (UpToDate(Replay(before), current) ==> SilentOn(before, after, current.session.key))
  }

  predicate UpToDate(screen: Screen, current: Observed) {
    current.session.key in screen && screen[current.session.key] == Shown(current.session, current.status, false)
  }

  ghost predicate ChangeOf(before: Log, event: ClaudeEvent, current: Observed) {
    && SameSession(Replay(before), current.session)
    && event == Changed(current.session, Replay(before)[current.session.key].status, current.status)
  }

  /** Only what was observed is announced as a change. */
  ghost predicate ChangesObserved(before: Log, after: Log, observed: seq<Observed>) {
    forall i :: |before| <= i < |after| && after[i].Changed? ==> exists current :: current in observed && ChangeOf(before, after[i], current)
  }

  ghost predicate NoChange(before: Log, after: Log) {
    before <= after && forall i :: |before| <= i < |after| ==> !after[i].Changed?
  }

  ghost predicate AllAnnounced(before: Log, after: Log, observed: seq<Observed>) {
    && before <= after && (forall current :: current in observed ==> Announced(before, after, current))
    && ChangesObserved(before, after, observed)
  }

  /** What is known of a session stays as long as nothing is said of it. */
  lemma {:induction false} SilenceKeeps(before: Log, after: Log, key: SessionKey)
    requires SilentOn(before, after, key)
    ensures key in Replay(after) <==> key in Replay(before)
    ensures key in Replay(after) ==> Replay(after)[key] == Replay(before)[key]
    ensures LastKnown(after, key) == LastKnown(before, key)
    ensures Worked(after, key, |after|) <==> Worked(before, key, |before|)
    decreases |after|
  {
    if |after| > |before| {
      SilenceKeeps(before, after[..|after| - 1], key);
    } else {
      assert after == before;
    }
    WasWorkingMeaning(after, key);
    WasWorkingMeaning(before, key);
  }

  lemma ToldAnnounces(before: Log, previous: Option<Retained>, current: Observed, after: Log)
    requires AgreesAt(before, current.session.key, previous) && after == before + Told(previous, current)
    requires previous.Some? ==> previous.value.observed.session.key == current.session.key
    ensures SpeaksOf(before, after, {current.session.key}) && AllAnnounced(before, after, [current])
  {
    var n := |before|;
    WasWorkingMeaning(before, current.session.key);
    if previous.Some? && SameSession(Replay(before), current.session) && previous.value.observed.status != current.status {
      assert after[n] == Changed(current.session, previous.value.observed.status, current.status);
      if current.status == Idle && Worked(before, current.session.key, n) {
        assert after[n + 1] == Ready(current.session);
      }
      assert ChangeOf(before, after[n], current);
    }
    assert current in [current];
  }

  lemma AnnouncedSince(before: Log, mid: Log, after: Log, current: Observed)
    requires SilentOn(before, mid, current.session.key) && mid <= after && Announced(mid, after, current)
    ensures Announced(before, after, current)
  {
    SilenceKeeps(before, mid, current.session.key);
    SaidSince(before, mid, after, Ready(current.session));
    if SameSession(Replay(before), current.session) && Replay(before)[current.session.key].status != current.status {
      SaidSince(before, mid, after, Changed(current.session, Replay(before)[current.session.key].status, current.status));
    }
  }

  lemma SaidSince(before: Log, mid: Log, after: Log, event: ClaudeEvent)
    requires SilentOn(before, mid, event.session.key) && mid <= after
    ensures Says(before, after, event) <==> Says(mid, after, event)
  {
    if Says(before, after, event) {
      var i :| |before| <= i < |after| && after[i] == event;
      LaterThan(before, mid, after, i);
    }
  }

  /** What is said of a session on which the log was silent was said later. */
  lemma LaterThan(before: Log, mid: Log, after: Log, i: nat)
    requires |before| <= i < |after| && SilentOn(before, mid, after[i].session.key) && mid <= after
    ensures |mid| <= i
  {
  }

  lemma ChangedLater(before: Log, mid: Log, after: Log, i: nat)
    requires |before| <= i < |after| && NoChange(before, mid) && mid <= after && after[i].Changed?
    ensures |mid| <= i
  {
  }

  lemma AnnouncedStays(before: Log, mid: Log, after: Log, current: Observed)
    requires SilentOn(mid, after, current.session.key) && before <= mid && Announced(before, mid, current)
    ensures Announced(before, after, current)
  {
    SaidBefore(before, mid, after, Ready(current.session));
    if SameSession(Replay(before), current.session) {
      SaidBefore(before, mid, after, Changed(current.session, Replay(before)[current.session.key].status, current.status));
    }
  }

  lemma SaidBefore(before: Log, mid: Log, after: Log, event: ClaudeEvent)
    requires SilentOn(mid, after, event.session.key) && before <= mid
    ensures Says(before, after, event) <==> Says(before, mid, event)
  {
    if Says(before, mid, event) {
      var i :| |before| <= i < |mid| && mid[i] == event;
      assert after[i] == event;
    }
    if Says(before, after, event) {
      var i :| |before| <= i < |after| && after[i] == event;
      assert mid[i] == event;
    }
  }

  /** One more observation of a session that was not yet spoken of. */
  lemma AnnouncedOneMore(before: Log, mid: Log, after: Log, observed: seq<Observed>, i: nat)
    requires UniquePids(observed) && i < |observed|
    requires SpeaksOf(before, mid, KeysOf(observed[..i])) && AllAnnounced(before, mid, observed[..i])
    requires SpeaksOf(mid, after, {observed[i].session.key}) && AllAnnounced(mid, after, [observed[i]])
    ensures SpeaksOf(before, after, KeysOf(observed[..i + 1])) && AllAnnounced(before, after, observed[..i + 1])
  {
    var current := observed[i];
    NotBefore(observed, i, current.session.key);
    assert observed[..i + 1] == observed[..i] + [current];
    assert current in [current];
    AnnouncedSince(before, mid, after, current);
    forall other | other in observed[..i] ensures Announced(before, after, other) {
      assert other.session.key in KeysOf(observed[..i]);
      AnnouncedStays(before, mid, after, other);
    }
    ChangesOneMore(before, mid, after, observed[..i], current);
    SpeaksOneMore(before, mid, after, observed[..i], current);
  }

  lemma SpeaksOneMore(before: Log, mid: Log, after: Log, observed: seq<Observed>, current: Observed)
    requires SpeaksOf(before, mid, KeysOf(observed)) && SpeaksOf(mid, after, {current.session.key})
    ensures SpeaksOf(before, after, KeysOf(observed + [current]))
  {
    forall i | |before| <= i < |after| ensures after[i].session.key in KeysOf(observed + [current]) {
      assert current in observed + [current];
      assert i < |mid| ==> after[i] == mid[i];
      assert forall o :: o in observed ==> o in observed + [current];
    }
  }

  lemma ChangesOneMore(before: Log, mid: Log, after: Log, observed: seq<Observed>, current: Observed)
    requires before <= mid <= after && SilentOn(before, mid, current.session.key)
    requires ChangesObserved(before, mid, observed) && ChangesObserved(mid, after, [current])
    ensures ChangesObserved(before, after, observed + [current])
  {
    SilenceKeeps(before, mid, current.session.key);
    forall i | |before| <= i < |after| && after[i].Changed?
      ensures exists o :: o in observed + [current] && ChangeOf(before, after[i], o)
    {
      if i < |mid| {
        assert after[i] == mid[i];
        var o :| o in observed && ChangeOf(before, mid[i], o);
        assert o in observed + [current];
      } else {
        var o :| o in [current] && ChangeOf(mid, after[i], o);
        assert current in observed + [current] && ChangeOf(before, after[i], current);
      }
    }
  }

  /** What was removed or missed before does not concern the sessions observed. */
  lemma AnnouncedInAll(before: Log, mid: Log, after: Log, observed: seq<Observed>, gone: set<SessionKey>)
    requires SpeaksOf(before, mid, gone) && gone !! KeysOf(observed) && NoChange(before, mid)
    requires AllAnnounced(mid, after, observed)
    ensures AllAnnounced(before, after, observed)
  {
    forall current | current in observed ensures Announced(before, after, current) {
      assert current.session.key in KeysOf(observed);
      AnnouncedSince(before, mid, after, current);
    }
    forall i | |before| <= i < |after| && after[i].Changed?
      ensures exists current :: current in observed && ChangeOf(before, after[i], current)
    {
      ChangedLater(before, mid, after, i);
      var current :| current in observed && ChangeOf(mid, after[i], current);
      assert current.session.key in KeysOf(observed);
      SilenceKeeps(before, mid, current.session.key);
      assert ChangeOf(before, after[i], current);
    }
  }

  lemma SaidOfGone(start: Log, before: Log, after: Log, gone: set<SessionKey>)
    requires SpeaksOf(start, before, gone) && NoChange(start, before)
    requires SpeaksOf(before, after, gone) && NoChange(before, after)
    ensures SpeaksOf(start, after, gone) && NoChange(start, after)
  {
  }

  class ClaudeTracker {
    var sessions: Sessions
    var log: Log

    ghost predicate Valid()
      reads this
    {
      Legal(log) && !Due(log) && Agrees(log, sessions)
    }

    constructor ()
      ensures Valid() && log == [] && sessions == map[]
    {
      sessions, log := map[], [];
    }

    /** Emits an event about one session; the others are not concerned. */
    method Emit(event: ClaudeEvent)
      requires Legal(log) && Allowed(log, event) && AgreesBut(log, sessions, event.session.key)
      modifies this`log
      ensures log == old(log) + [event] && Legal(log) && AgreesBut(log, sessions, event.session.key)
      ensures Replay(log) == Step(Replay(old(log)), event)
      ensures LastKnown(log, event.session.key) == KnownAfter(LastKnown(old(log), event.session.key), event, event.session.key)
      ensures Due(log) <==> event.Changed? && event.current.Idle? && WasWorking(old(log), event.session.key)
    {
      Append(log, event);
      OthersAgree(log, event, sessions);
      log := log + [event];
    }

    method Remove(key: SessionKey)
      requires Valid() && key in sessions
      modifies this
      ensures Valid() && sessions == old(sessions) - {key}
      ensures log == old(log) + [Removed(old(sessions)[key].observed.session)]
    {
      assert AgreesAt(log, key, At(sessions, key));
      Emit(Removed(sessions[key].observed.session));
      sessions := sessions - {key};
      AllAgree(log, old(sessions), sessions, key);
    }

    method Miss(key: SessionKey)
      requires Valid() && key in sessions
      modifies this
      ensures Valid() && sessions == old(sessions)[key := Missed(old(sessions)[key])]
      ensures log == if old(sessions)[key].stale then old(log) else old(log) + [Staled(old(sessions)[key])]
    {
      assert AgreesAt(log, key, At(sessions, key));
      sessions := sessions[key := sessions[key].(misses := sessions[key].misses + 1)];
      AllAgree(log, old(sessions), sessions, key);
      if !sessions[key].stale {
        MarkStale(key);
      }
    }

    method MarkStale(key: SessionKey)
      requires Valid() && key in sessions && !sessions[key].stale
      modifies this
      ensures Valid() && sessions == old(sessions)[key := old(sessions)[key].(stale := true)]
      ensures log == old(log) + [Staled(old(sessions)[key])]
    {
      assert AgreesAt(log, key, At(sessions, key));
      Emit(Projected(sessions[key].observed.session, sessions[key].observed.status, true));
      sessions := sessions[key := sessions[key].(stale := true)];
      AllAgree(log, old(sessions), sessions, key);
    }

    /** A session that was not there before. */
    method Find(current: Observed)
      requires Valid()
      requires forall key :: key in sessions ==> key.pid != current.session.key.pid
      modifies this
      ensures Valid() && sessions == old(sessions)[current.session.key := Seen(None, current)]
      ensures log == old(log) + Told(None, current)
    {
      assert forall k :: k in Replay(log) ==> AgreesAt(log, k, At(sessions, k));
      Introduce(current);
    }

    /** A session that is not on the screen comes onto it. */
    method Introduce(current: Observed)
      requires Legal(log) && Allowed(log, Found(current.session)) && AgreesBut(log, sessions, current.session.key)
      modifies this
      ensures Valid() && sessions == old(sessions)[current.session.key := Retained(current, 0, Working(current.status), false)]
      ensures log == old(log) + [Found(current.session), Projected(current.session, current.status, false)]
    {
      var key := current.session.key;
      Present(current);
      sessions := sessions[key := Retained(current, 0, Working(current.status), false)];
      AllAgree(log, old(sessions), sessions, key);
    }

    method Present(current: Observed)
      requires Legal(log) && Allowed(log, Found(current.session)) && AgreesBut(log, sessions, current.session.key)
      modifies this`log
      ensures Legal(log) && !Due(log) && AgreesBut(log, sessions, current.session.key)
      ensures log == old(log) + [Found(current.session), Projected(current.session, current.status, false)]
      ensures AgreesAt(log, current.session.key, Some(Retained(current, 0, Working(current.status), false)))
    {
      Emit(Found(current.session));
      Emit(Projected(current.session, current.status, false));
    }

    /** The process runs another session now. */
    method Replace(current: Observed)
      requires Valid() && current.session.key in sessions
      requires sessions[current.session.key].observed.session.sessionId != current.session.sessionId
      modifies this
      ensures Valid() && sessions == old(sessions)[current.session.key := Seen(At(old(sessions), current.session.key), current)]
      ensures log == old(log) + Told(At(old(sessions), current.session.key), current)
    {
      var key := current.session.key;
      assert AgreesAt(log, key, At(sessions, key));
      PidsAreUnique(log);
      Emit(Removed(sessions[key].observed.session));
      Introduce(current);
    }

    /** The session is still there: its status may have changed, and it is fresh again. */
    method Refresh(current: Observed)
      requires Valid() && current.session.key in sessions
      requires sessions[current.session.key].observed.session.sessionId == current.session.sessionId
      modifies this
      ensures Valid() && sessions == old(sessions)[current.session.key := Seen(At(old(sessions), current.session.key), current)]
      ensures log == old(log) + Told(At(old(sessions), current.session.key), current)
    {
      var key := current.session.key;
      assert AgreesAt(log, key, At(sessions, key));
      var retained := sessions[key];
      var changed := retained.observed != current || retained.stale;
      var armed := retained.armed;
      if retained.observed.status != current.status {
        armed := Transit(current, retained.observed.status, armed);
      }
      Store(current, armed, changed);
    }

    /** Keeps what was observed, and shows it if it is news. */
    method Store(current: Observed, armed: bool, changed: bool)
      requires Legal(log) && !Due(log) && AgreesBut(log, sessions, current.session.key)
      requires SameSession(Replay(log), current.session)
      requires changed || Replay(log)[current.session.key] == Shown(current.session, current.status, false)
      requires armed <==> WasWorking(log, current.session.key)
      requires current.status.Unknown? || LastKnown(log, current.session.key) == Some(current.status)
      modifies this
      ensures Valid() && sessions == old(sessions)[current.session.key := Retained(current, 0, armed, false)]
      ensures log == if changed then old(log) + [Projected(current.session, current.status, false)] else old(log)
    {
      var key := current.session.key;
      if changed {
        Emit(Projected(current.session, current.status, false));
      }
      sessions := sessions[key := Retained(current, 0, armed, false)];
      AllAgree(log, old(sessions), sessions, key);
    }

    /** Reports a change of status, and that the work is done if it is. */
    method Transit(current: Observed, previous: ClaudeStatus, wasArmed: bool) returns (armed: bool)
      requires Legal(log) && !Due(log) && AgreesBut(log, sessions, current.session.key)
      requires SameSession(Replay(log), current.session)
      requires Replay(log)[current.session.key].status == previous && previous != current.status
      requires wasArmed <==> WasWorking(log, current.session.key)
      modifies this`log
      ensures Legal(log) && !Due(log) && AgreesBut(log, sessions, current.session.key)
      ensures log == old(log) + Turned(current, previous, wasArmed)
      ensures Replay(log) == Replay(old(log))
      ensures armed <==> WasWorking(log, current.session.key)
      ensures armed == (Working(current.status) || (current.status.Unknown? && wasArmed))
      ensures current.status.Unknown? || LastKnown(log, current.session.key) == Some(current.status)
    {
      armed := wasArmed;
      if Working(current.status) {
        armed := true;
      }
      Emit(Changed(current.session, previous, current.status));
      if armed && current.status.Idle? {
        armed := false;
        Emit(Ready(current.session));
      }
    }

    method Observe(current: Observed)
      requires Valid()
      requires forall key :: key in sessions && key.pid == current.session.key.pid ==> key == current.session.key
      modifies this
      ensures Valid() && sessions == old(sessions)[current.session.key := Seen(At(old(sessions), current.session.key), current)]
      ensures log == old(log) + Told(At(old(sessions), current.session.key), current)
      ensures SpeaksOf(old(log), log, {current.session.key}) && AllAnnounced(old(log), log, [current])
    {
      var key := current.session.key;
      if key in sessions {
        if sessions[key].observed.session.sessionId != current.session.sessionId {
          Replace(current);
        } else {
          Refresh(current);
        }
      } else {
        Find(current);
      }
      ToldAnnounces(old(log), At(old(sessions), key), current, log);
    }

    /** Removes the sessions whose process id was taken over, and after a scan those that
        were missed twice. */
    method RemoveAll(keys: set<SessionKey>)
      requires Valid() && keys <= sessions.Keys
      modifies this
      ensures Valid() && sessions == old(sessions) - keys
      ensures SpeaksOf(old(log), log, keys) && NoChange(old(log), log)
    {
      var rest := keys;
      while rest != {}
        invariant rest <= keys && Valid()
        invariant SpeaksOf(old(log), log, keys) && NoChange(old(log), log)
        invariant sessions == old(sessions) - (keys - rest)
        decreases rest
      {
        var key :| key in rest;
        Remove(key);
        rest := rest - {key};
      }
    }

    method MissAll(keys: set<SessionKey>)
      requires Valid() && keys <= sessions.Keys
      modifies this
      ensures Valid() && sessions.Keys == old(sessions).Keys
      ensures SpeaksOf(old(log), log, keys) && NoChange(old(log), log)
      ensures forall key :: key in sessions ==>
        sessions[key] == if key in keys then Missed(old(sessions)[key]) else old(sessions)[key]
    {
      var rest := keys;
      while rest != {}
        invariant rest <= keys && Valid() && sessions.Keys == old(sessions).Keys
        invariant SpeaksOf(old(log), log, keys) && NoChange(old(log), log)
        invariant forall key :: key in sessions ==>
          sessions[key] == if key in keys - rest then Missed(old(sessions)[key]) else old(sessions)[key]
        decreases rest
      {
        var key :| key in rest;
        Miss(key);
        rest := rest - {key};
      }
    }

    method ObserveAll(observed: seq<Observed>)
      requires Valid() && UniquePids(observed)
      requires forall key :: key in sessions ==> !Superseded(observed, key)
      modifies this
      ensures Valid() && AllAnnounced(old(log), log, observed)
      ensures forall key :: ObservedAt(observed, key, At(old(sessions), key), At(sessions, key))
    {
      for i := 0 to |observed|
        invariant Valid()
        invariant SpeaksOf(old(log), log, KeysOf(observed[..i])) && AllAnnounced(old(log), log, observed[..i])
        invariant forall key :: ObservedAt(observed[..i], key, At(old(sessions), key), At(sessions, key))
      {
        var current := observed[i];
        ghost var before, mid := sessions, log;
        FreePid(observed, i, old(sessions), sessions);
        Observe(current);
        AnnouncedOneMore(old(log), mid, log, observed, i);
        forall key ensures ObservedAt(observed[..i + 1], key, At(old(sessions), key), At(sessions, key)) {
          ObserveOne(observed, i, key, At(old(sessions), key), At(before, key), At(sessions, key));
        }
      }
      assert observed[..|observed|] == observed;
    }

    /** `apply_success`: the outcome of a complete scan. */
    method ApplySuccess(observed: seq<Observed>)
      requires Valid() && Rested(sessions) && UniquePids(observed)
      modifies this
      ensures Valid() && Rested(sessions) && AllAnnounced(old(log), log, observed)
      ensures Scanned(old(sessions), observed, sessions)
      ensures forall key :: key in old(sessions) ==> KeptOnce(observed, old(sessions)[key], At(sessions, key))
      ensures forall key :: key in sessions ==> key in old(sessions) || exists current :: current in observed && current.session.key == key
    {
      ghost var gone := ClearOut(observed);
      ghost var remaining, mid := sessions, log;
      ObserveAll(observed);
      AnnouncedInAll(old(log), mid, log, observed, gone);
      ScanDone(old(sessions), remaining, sessions, observed);
      ScanKeeps(old(sessions), observed, sessions);
    }

    /** Removes what the scan rules out: taken-over process ids and second misses. */
    method ClearOut(observed: seq<Observed>) returns (ghost gone: set<SessionKey>)
      requires Valid() && Rested(sessions) && UniquePids(observed)
      modifies this
      ensures SpeaksOf(old(log), log, gone) && gone !! KeysOf(observed) && NoChange(old(log), log)
      ensures Valid() && ClearedOut(old(sessions), observed, sessions)
      ensures forall key :: key in sessions ==> !Superseded(observed, key)
    {
      RemoveAll(set key | key in sessions && Superseded(observed, key));
      ghost var kept, first := sessions, log;
      gone := old(sessions).Keys - KeysOf(observed);
      ClearsOthers(observed, old(sessions));
      MissAll(set key | key in sessions && key !in KeysOf(observed));
      ghost var missed, second := sessions, log;
      SaidOfGone(old(log), old(log), first, gone);
      SaidOfGone(old(log), first, second, gone);
      RemoveAll(set key | key in sessions && sessions[key].misses >= 2);
      SaidOfGone(old(log), second, log, gone);
      ClearingDone(old(sessions), kept, missed, sessions, observed);
    }

    /** Any mix of scans and failures: the log stays legal and tells the entries exactly.
        `logs` is the log between the scans; each change of status that a scan finds is
        announced by that scan, and nothing else is. */
    method Run(scans: seq<Option<seq<Observed>>>) returns (ghost logs: seq<Log>)
      requires Valid() && Rested(sessions) && Plausible(scans)
      modifies this
      ensures Valid() && Rested(sessions)
      ensures |logs| == |scans| + 1 && logs[0] == old(log) && logs[|scans|] == log
      ensures forall k :: 0 <= k < |scans| ==> Heard(logs[k], logs[k + 1], scans[k])
    {
      logs := [log];
      for i := 0 to |scans|
        invariant Valid() && Rested(sessions)
        invariant |logs| == i + 1 && logs[0] == old(log) && logs[i] == log
        invariant forall k :: 0 <= k < i ==> Heard(logs[k], logs[k + 1], scans[k])
      {
        match scans[i] {
          case Some(observed) => ApplySuccess(observed);
          case None => ApplyFailure();
        }
        assert Heard(logs[i], log, scans[i]);
        logs := logs + [log];
      }
    }

    /** `apply_failure`: nothing is known, so everything turns stale; no miss is counted. */
    method ApplyFailure()
      requires Valid()
      modifies this
      ensures Valid() && NoChange(old(log), log) && sessions.Keys == old(sessions).Keys
      ensures forall key :: key in sessions ==> sessions[key] == old(sessions)[key].(stale := true)
    {
      var rest := sessions.Keys;
      while rest != {}
        invariant rest <= sessions.Keys == old(sessions).Keys && Valid() && NoChange(old(log), log)
        invariant forall key :: key in sessions ==>
          sessions[key] == if key in rest then old(sessions)[key] else old(sessions)[key].(stale := true)
        decreases rest
      {
        var key :| key in rest;
        if !sessions[key].stale {
          MarkStale(key);
        }
        rest := rest - {key};
      }
    }
  }

  /** What one scan or failure adds to the log. */
  ghost predicate Heard(before: Log, after: Log, scan: Option<seq<Observed>>) {
    match scan
    case Some(observed) => AllAnnounced(before, after, observed)
    case None => NoChange(before, after)
  }

  /** A scan delivers sessions with distinct process ids, or fails. */
  predicate Plausible(scans: seq<Option<seq<Observed>>>) {
    forall i :: 0 <= i < |scans| && scans[i].Some? ==> UniquePids(scans[i].value)
  }

  predicate Rested(sessions: Sessions) {
    forall key :: key in sessions ==> sessions[key].misses < 2
  }

  ghost predicate ObservedAt(observed: seq<Observed>, key: SessionKey, before: Option<Retained>, after: Option<Retained>) {
    if key in KeysOf(observed)
    then exists current :: current in observed && current.session.key == key && after == Some(Seen(before, current))
    else after == before
  }

  lemma FreePid(observed: seq<Observed>, i: nat, before: Sessions, sessions: Sessions)
    requires UniquePids(observed) && i < |observed|
    requires forall key :: key in before ==> !Superseded(observed, key)
    requires forall key :: ObservedAt(observed[..i], key, At(before, key), At(sessions, key))
    ensures forall key :: key in sessions && key.pid == observed[i].session.key.pid ==> key == observed[i].session.key
  {
    forall key | key in sessions && key.pid == observed[i].session.key.pid ensures key == observed[i].session.key {
      assert ObservedAt(observed[..i], key, At(before, key), At(sessions, key));
      NotBefore(observed, i, key);
      assert observed[i] in observed && !Superseded(observed, key);
    }
  }

  lemma NotBefore(observed: seq<Observed>, i: nat, key: SessionKey)
    requires UniquePids(observed) && i < |observed| && key.pid == observed[i].session.key.pid
    ensures key !in KeysOf(observed[..i])
  {
  }

  lemma ObserveOne(observed: seq<Observed>, i: nat, key: SessionKey, start: Option<Retained>,
                                      before: Option<Retained>, after: Option<Retained>)
    requires UniquePids(observed) && i < |observed|
    requires ObservedAt(observed[..i], key, start, before)
    requires after == if key == observed[i].session.key then Some(Seen(before, observed[i])) else before
    ensures ObservedAt(observed[..i + 1], key, start, after)
  {
  }

  /** What is left of one entry before the observations are taken in. */
  predicate ClearedAt(observed: seq<Observed>, key: SessionKey, before: Option<Retained>, after: Option<Retained>) {
    if before.None? || Superseded(observed, key) then after == None
    else if key in KeysOf(observed) then after == before
    else after == if Missed(before.value).misses >= 2 then None else Some(Missed(before.value))
  }

  ghost predicate ClearedOut(before: Sessions, observed: seq<Observed>, after: Sessions) {
    forall key :: ClearedAt(observed, key, At(before, key), At(after, key))
  }

  lemma ClearsOthers(observed: seq<Observed>, before: Sessions)
    requires UniquePids(observed)
    ensures (set key | key in before && Superseded(observed, key)) !! KeysOf(observed)
  {
    forall key | key in before && Superseded(observed, key) ensures key !in KeysOf(observed) {
      if key in KeysOf(observed) {
        NotSuperseded(observed, key);
      }
    }
  }

  lemma ClearingDone(before: Sessions, kept: Sessions, missed: Sessions, after: Sessions, observed: seq<Observed>)
    requires Rested(before)
    requires kept == before - (set key | key in before && Superseded(observed, key))
    requires missed.Keys == kept.Keys && forall key :: key in missed ==>
      missed[key] == if key !in KeysOf(observed) then Missed(kept[key]) else kept[key]
    requires after == missed - (set key | key in missed && missed[key].misses >= 2)
    ensures ClearedOut(before, observed, after)
    ensures forall key :: key in after ==> !Superseded(observed, key)
  {
  }

  lemma ScanDone(before: Sessions, remaining: Sessions, after: Sessions, observed: seq<Observed>)
    requires Rested(before) && UniquePids(observed) && ClearedOut(before, observed, remaining)
    requires forall key :: ObservedAt(observed, key, At(remaining, key), At(after, key))
    ensures Scanned(before, observed, after) && Rested(after)
  {
    forall key ensures ScannedAt(At(before, key), observed, key, At(after, key)) && (key in after ==> after[key].misses < 2) {
      assert ObservedAt(observed, key, At(remaining, key), At(after, key)) && ClearedAt(observed, key, At(before, key), At(remaining, key));
      if key in KeysOf(observed) {
        NotSuperseded(observed, key);
        assert At(remaining, key) == At(before, key);
      }
    }
  }

  lemma ScanKeeps(before: Sessions, observed: seq<Observed>, after: Sessions)
    requires Scanned(before, observed, after) && UniquePids(observed)
    ensures forall key :: key in before ==> KeptOnce(observed, before[key], At(after, key))
    ensures forall key :: key in after ==> key in before || exists current :: current in observed && current.session.key == key
  {
    forall key | key in before ensures KeptOnce(observed, before[key], At(after, key)) {
      assert ScannedAt(At(before, key), observed, key, At(after, key));
    }
    forall key | key in after && key !in before ensures exists current :: current in observed && current.session.key == key {
      assert ScannedAt(At(before, key), observed, key, At(after, key));
    }
  }

  lemma NotSuperseded(observed: seq<Observed>, key: SessionKey)
    requires UniquePids(observed) && key in KeysOf(observed)
    ensures !Superseded(observed, key)
  {
  }
}
