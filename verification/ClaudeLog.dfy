/** The events that the Claude monitor emits, as a log. */
module ClaudeLog {
  import opened Wrappers

  datatype SessionKey = SessionKey(pid: nat, startTime: nat)

  /** `details` stands for the working directory, the name and the terminal. */
  datatype ClaudeSession = ClaudeSession(key: SessionKey, sessionId: nat, details: nat)

  datatype ClaudeStatus = Busy | Waiting | Idle | Unknown

  datatype ClaudeEvent =
    | Found(session: ClaudeSession)
    | Removed(session: ClaudeSession)
    | Projected(session: ClaudeSession, status: ClaudeStatus, stale: bool)
    | Changed(session: ClaudeSession, previous: ClaudeStatus, current: ClaudeStatus)
    | Ready(session: ClaudeSession)

  type Log = seq<ClaudeEvent>

  datatype Shown = Shown(session: ClaudeSession, status: ClaudeStatus, stale: bool)

  type Screen = map<SessionKey, Shown>

  predicate Working(status: ClaudeStatus) {
    status.Busy? || status.Waiting?
  }

  // ---------- what a reader of the log knows ----------

  function Step(screen: Screen, event: ClaudeEvent): Screen {
    match event
    case Found(session) => screen[session.key := Shown(session, Unknown, false)]
    case Removed(session) => screen - {session.key}
    case Projected(session, status, stale) =>
      if session.key in screen then screen[session.key := Shown(session, status, stale)] else screen
    case Changed(_, _, _) => screen
    case Ready(_) => screen
  }

  function Replay(log: Log): Screen {
    if log == [] then map[] else Step(Replay(log[..|log| - 1]), log[|log| - 1])
  }

  /** The status that an event reports of the session at `key`. */
  function Reported(event: ClaudeEvent, key: SessionKey): Option<ClaudeStatus> {
    match event
    case Projected(session, status, _) => if session.key == key then Some(status) else None
    case Changed(session, _, current) => if session.key == key then Some(current) else None
    case _ => None
  }

  predicate Begins(event: ClaudeEvent, key: SessionKey) {
    event.Found? && event.session.key == key
  }

  /** The last status other than unknown that was reported since the session was found. */
  function LastKnown(log: Log, key: SessionKey): Option<ClaudeStatus> {
    if log == [] then None
    else
      KnownAfter(LastKnown(log[..|log| - 1], key), log[|log| - 1], key)
  }

  /** `LastKnown` after one more event. */
  function KnownAfter(known: Option<ClaudeStatus>, event: ClaudeEvent, key: SessionKey): Option<ClaudeStatus> {
    if Begins(event, key) then None
    else if Reported(event, key).Some? && !Reported(event, key).value.Unknown? then Reported(event, key)
    else known
  }

  predicate WasWorking(log: Log, key: SessionKey) {
    LastKnown(log, key).Some? && Working(LastKnown(log, key).value)
  }

  /** The session just came to rest after work: its user is due a ready notice. */
  predicate Due(log: Log) {
    && log != []
    && log[|log| - 1].Changed? && log[|log| - 1].current.Idle?
    && WasWorking(log[..|log| - 1], log[|log| - 1].session.key)
  }

  predicate Allowed(log: Log, event: ClaudeEvent) {
    var screen := Replay(log);
    && (Due(log) <==> event.Ready?)
    && match event
       case Found(session) => forall key :: key in screen ==> key.pid != session.key.pid
       case Removed(session) => session.key in screen && screen[session.key].session == session
       case Projected(session, _, _) => SameSession(screen, session)
       case Changed(session, previous, current) =>
         SameSession(screen, session) && screen[session.key].status == previous && previous != current
       case Ready(session) => log != [] && log[|log| - 1].session == session
  }

  predicate SameSession(screen: Screen, session: ClaudeSession) {
    session.key in screen && screen[session.key].session.sessionId == session.sessionId
  }

  predicate Legal(log: Log) {
    log == [] || (Legal(log[..|log| - 1]) && Allowed(log[..|log| - 1], log[|log| - 1]))
  }

  lemma Append(log: Log, event: ClaudeEvent)
    ensures Legal(log + [event]) <==> Legal(log) && Allowed(log, event)
    ensures Replay(log + [event]) == Step(Replay(log), event)
    ensures Due(log + [event]) <==> event.Changed? && event.current.Idle? && WasWorking(log, event.session.key)
    ensures forall key :: LastKnown(log + [event], key) == KnownAfter(LastKnown(log, key), event, key)
  {
  }

  lemma {:induction false} LegalAt(log: Log, n: nat)
    requires Legal(log) && n < |log|
    ensures Legal(log[..n]) && Allowed(log[..n], log[n])
    ensures Replay(log[..n + 1]) == Step(Replay(log[..n]), log[n])
    decreases |log|
  {
    assert log[..n + 1] == log[..n] + [log[n]];
    Append(log[..n], log[n]);
    if n == |log| - 1 {
      assert log[..n + 1] == log;
    } else {
      LegalAt(log[..|log| - 1], n);
      assert log[..|log| - 1][..n] == log[..n];
    }
  }

  // ---------- guarantees of every log ----------

  ghost predicate OnePerPid(screen: Screen) {
    && (forall k, j :: k in screen && j in screen && k.pid == j.pid ==> k == j)
    && forall key :: key in screen ==> screen[key].session.key == key
  }

  /** At every point of the log no two live sessions share a process id. */
  lemma {:induction false} PidsAreUnique(log: Log)
    requires Legal(log)
    ensures OnePerPid(Replay(log))
  {
    if log != [] {
      PidsAreUnique(log[..|log| - 1]);
    }
  }

  predicate Ends(event: ClaudeEvent, key: SessionKey) {
    event.Removed? && event.session.key == key
  }

  /** The session at `key` was found at `start` and not removed before `until`. */
  ghost predicate Lives(log: Log, key: SessionKey, start: nat, until: nat) {
    && start < until <= |log| && Begins(log[start], key)
    && forall i :: start < i < until ==> !Begins(log[i], key) && !Ends(log[i], key)
  }

  lemma {:induction false} OnScreenMeansLives(log: Log, key: SessionKey)
    requires Legal(log)
    ensures key in Replay(log) ==>
      exists start: nat :: Lives(log, key, start, |log|) && log[start].session.sessionId == Replay(log)[key].session.sessionId
    ensures key !in Replay(log) ==> forall start: nat :: !Lives(log, key, start, |log|)
    decreases |log|
  {
    if log != [] {
      var n := |log| - 1;
      var init, last := log[..n], log[n];
      OnScreenMeansLives(init, key);
      if Begins(last, key) {
        assert Lives(log, key, n, |log|);
      } else if Ends(last, key) {
        assert forall start: nat :: !Lives(log, key, start, |log|);
      } else if key in Replay(init) {
        var start: nat :| Lives(init, key, start, n) && init[start].session.sessionId == Replay(init)[key].session.sessionId;
        assert Lives(log, key, start, |log|);
      } else {
        forall start: nat ensures !Lives(log, key, start, |log|) {
          if Lives(log, key, start, |log|) {
            assert Lives(init, key, start, n);
          }
        }
      }
    }
  }

  /** Found and Removed alternate for each key, and every other event speaks of a session
      that was found, under the same session id, and has not been removed. */
  lemma Alternates(log: Log, n: nat)
    requires Legal(log) && n < |log|
    ensures log[n].Found? ==> forall start: nat :: !Lives(log, log[n].session.key, start, n)
    ensures !log[n].Found? && !log[n].Ready? ==> exists start: nat ::
      Lives(log, log[n].session.key, start, n) && log[start].session.sessionId == log[n].session.sessionId
  {
    LegalAt(log, n);
    var key := log[n].session.key;
    OnScreenMeansLives(log[..n], key);
    if log[n].Found? {
      forall start: nat ensures !Lives(log, key, start, n) {
        if Lives(log, key, start, n) {
          assert Lives(log[..n], key, start, n);
        }
      }
    } else if !log[n].Ready? {
      var start: nat :| Lives(log[..n], key, start, n)
        && log[..n][start].session.sessionId == Replay(log[..n])[key].session.sessionId;
      assert Lives(log, key, start, n);
    }
  }

  /** At `at` work was reported of the session at `key`; since then it was neither found
      anew nor reported with any status but unknown. */
  ghost predicate WorkedAt(log: Log, key: SessionKey, at: nat, until: nat) {
    && at < until <= |log| && Reported(log[at], key).Some? && Working(Reported(log[at], key).value)
    && forall i :: at < i < until ==>
         !Begins(log[i], key) && (Reported(log[i], key).Some? ==> Reported(log[i], key).value.Unknown?)
  }

  ghost predicate Worked(log: Log, key: SessionKey, until: nat) {
    exists at: nat :: WorkedAt(log, key, at, until)
  }

  lemma {:induction false} WasWorkingMeaning(log: Log, key: SessionKey)
    ensures WasWorking(log, key) <==> Worked(log, key, |log|)
    decreases |log|
  {
    if log != [] {
      var n := |log| - 1;
      var init, last := log[..n], log[n];
      WasWorkingMeaning(init, key);
      if Begins(last, key) || (Reported(last, key).Some? && !Reported(last, key).value.Unknown?) {
        assert Reported(last, key).Some? && Working(Reported(last, key).value) ==> WorkedAt(log, key, n, |log|);
      } else {
        WorkedPrefix(log, key, n, |log|);
        assert log[..n] == init;
      }
    }
  }

  /** Work reported before `n` is still the last thing known at `until` if nothing else was
      learnt in between. */
  lemma WorkedPrefix(log: Log, key: SessionKey, n: nat, until: nat)
    requires n <= until <= |log|
    requires forall i :: n <= i < until ==>
      !Begins(log[i], key) && (Reported(log[i], key).Some? ==> Reported(log[i], key).value.Unknown?)
    ensures Worked(log[..n], key, n) <==> Worked(log, key, until)
  {
    forall at: nat ensures WorkedAt(log[..n], key, at, n) <==> WorkedAt(log, key, at, until) {
    }
    if Worked(log[..n], key, n) {
      var at: nat :| WorkedAt(log[..n], key, at, n);
      assert WorkedAt(log, key, at, until);
    }
    if Worked(log, key, until) {
      var at: nat :| WorkedAt(log, key, at, until);
      assert WorkedAt(log[..n], key, at, n);
    }
  }

  /** A ready notice is given exactly when a session turns idle and the last status known of
      it before, in the same incarnation, was busy or waiting. */
  lemma ReadyMeansWorkDone(log: Log, n: nat)
    requires Legal(log) && n < |log|
    ensures log[n].Ready? <==>
      n > 0 && log[n - 1].Changed? && log[n - 1].current.Idle? && Worked(log, log[n - 1].session.key, n - 1)
    ensures log[n].Ready? ==> log[n].session == log[n - 1].session
  {
    LegalAt(log, n);
    if n > 0 {
      assert log[..n][..n - 1] == log[..n - 1];
      WasWorkingMeaning(log[..n - 1], log[n - 1].session.key);
      WorkedPrefix(log, log[n - 1].session.key, n - 1, n - 1);
    }
  }
}
