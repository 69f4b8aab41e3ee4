/** The discovery loop: what starts a full scan, and the settling scans that follow a scan
    which saw a change. */
module Settling {
  import opened Wrappers

  /** The eligible listener and registration rows. */
  type Fingerprint = set<nat>

  /** `SETTLING_DELAYS.len()`. */
  const SETTLING_SCANS: nat := 3

  /** A `watch` channel of which only the version matters. */
  datatype Channel = Channel(version: nat, seen: nat) {
    predicate HasChanged() { seen < version }
    function Seen(): Channel { Channel(version, version) }
    function Sent(): Channel { Channel(version + 1, seen) }
  }

  datatype Happening =
    | Requested                 // a resync, a discovery trigger, or the full interval
    | Mismatched                // the gate differs from the baseline, or cannot be read
    | Fired(index: nat)         // a settling timer ran out
    | Started                   // a full scan
    | Changed                   // the scan, or the gate before it, saw a change
    | Blocked                   // the loop waits with nothing to do

  type Log = seq<Happening>

  // ---------- what the log must look like ----------

  /** The settling scan that comes next; none after the last. */
  function Next(log: Log): nat {
    if log == [] then SETTLING_SCANS
    else
      match log[|log| - 1]
      case Changed => 0
      case Fired(index) => index + 1
      case _ => Next(log[..|log| - 1])
  }

  /** Something asks for a scan that has not been started yet. */
  predicate Owed(log: Log) {
    log != [] &&
    match log[|log| - 1]
    case Requested => true
    case Mismatched => true
    case Started => false
    case _ => Owed(log[..|log| - 1])
  }

  predicate Allowed(log: Log, next: Happening) {
    && (next.Fired? ==> next.index == Next(log) && next.index < SETTLING_SCANS)
    && (next.Blocked? ==> !Owed(log))
  }

  predicate Legal(log: Log) {
    log == [] || (Legal(log[..|log| - 1]) && Allowed(log[..|log| - 1], log[|log| - 1]))
  }

  lemma Append(log: Log, next: Happening)
    ensures Legal(log + [next]) <==> Legal(log) && Allowed(log, next)
    ensures Next(log + [next]) == if next.Changed? then 0 else if next.Fired? then next.index + 1 else Next(log)
    ensures Owed(log + [next]) <==> next.Requested? || next.Mismatched? || (Owed(log) && !next.Started?)
  {
  }

  function Count(log: Log, what: Happening -> bool): nat {
    if log == [] then 0 else Count(log[..|log| - 1], what) + if what(log[|log| - 1]) then 1 else 0
  }

  /** The settling timers start at most three scans for each scan that saw a change, and
      after a change they run out in order, each at most once. */
  lemma {:induction false} SettlingIsBounded(log: Log)
    requires Legal(log)
    ensures Next(log) <= SETTLING_SCANS
    ensures Count(log, (h: Happening) => h.Fired?) + (SETTLING_SCANS - Next(log)) <= SETTLING_SCANS * Count(log, (h: Happening) => h.Changed?)
  {
    if log != [] {
      SettlingIsBounded(log[..|log| - 1]);
    }
  }

  /** Whenever the loop blocks, every request and every mismatch of the gate before it was
      followed by the start of a full scan. */
  lemma RequestsAreServed(log: Log, asked: nat, blocked: nat)
    requires Legal(log) && asked < blocked < |log| && log[blocked].Blocked?
    requires log[asked].Requested? || log[asked].Mismatched?
    ensures exists started :: asked < started < blocked && log[started].Started?
  {
    LegalAt(log, blocked);
    if forall i :: asked < i < blocked ==> !log[i].Started? {
      Unserved(log, asked, blocked);
    }
  }

  lemma {:induction false} LegalAt(log: Log, n: nat)
    requires Legal(log) && n < |log|
    ensures Legal(log[..n]) && Allowed(log[..n], log[n])
    decreases |log|
  {
    if n == |log| - 1 {
    } else {
      LegalAt(log[..|log| - 1], n);
      assert log[..|log| - 1][..n] == log[..n];
    }
  }

  lemma {:induction false} Unserved(log: Log, asked: nat, until: nat)
    requires asked < until <= |log| && (log[asked].Requested? || log[asked].Mismatched?)
    requires forall i :: asked < i < until ==> !log[i].Started?
    ensures Owed(log[..until])
    decreases until
  {
    assert log[..until][..until - 1] == log[..until - 1];
    if until - 1 > asked {
      Unserved(log, asked, until - 1);
    }
  }

  // ---------- the loop ----------

  function Asked(n: nat): (log: Log)
    ensures |log| == n && forall i :: 0 <= i < n ==> log[i].Requested?
  {
    if n == 0 then [] else Asked(n - 1) + [Requested]
  }

  function If(condition: bool, happening: Happening): Log {
    if condition then [happening] else []
  }

  /** Whether a scan saw a change: a first scan does if there is anything at all. */
  predicate SawChange(baseline: Option<Fingerprint>, fingerprint: Option<Fingerprint>) {
    fingerprint.Some? &&
    match baseline
    case None => fingerprint.value != {}
    case Some(previous) => previous != fingerprint.value
  }

  /** What ends a wait. */
  datatype Wake =
    | Shutdown
    | Gate(fingerprint: Option<Fingerprint>)
    | FullInterval
    | Resynced(closed: bool)
    | Triggered(closed: bool)
    | TimerDue

  /** Whether the end of a wait asks for a full scan. */
  predicate Wakes(wake: Wake, baseline: Option<Fingerprint>, settling: Option<nat>, resynced: bool, triggered: bool) {
    match wake
    case Shutdown => false
    case Gate(fingerprint) => fingerprint.None? || fingerprint != baseline
    case FullInterval => true
    case Resynced(_) => resynced
    case Triggered(_) => triggered
    case TimerDue => settling.Some?
  }

  /** The start of a scan as the log shows it. */
  function Begun(gate: Option<Option<Fingerprint>>, baseline: Option<Fingerprint>, settling: Option<nat>, elapsed: bool): Log {
    If(gate.Some? && gate.value.Some? && gate.value != baseline, Mismatched) + Opened(settling, elapsed)
  }

  lemma Joined(before: Log, middle: Log, end: Log)
    ensures before + middle + end == before + (middle + end)
  {
  }

  /** The timer that ran out, if one did, and the scan. */
  function Opened(settling: Option<nat>, elapsed: bool): Log {
    if settling.Some? && elapsed then [Fired(settling.value), Started] else [Started]
  }

  /** The end of a wait as the log shows it. */
  function Woken(wake: Wake, baseline: Option<Fingerprint>, settling: Option<nat>): Log {
    match wake
    case Gate(fingerprint) => If(fingerprint.None? || fingerprint != baseline, Mismatched)
    case FullInterval => [Requested]
    case TimerDue => if settling.Some? then [Fired(settling.value)] else []
    case _ => []
  }

  /** The timer after a scan: the first one after a change, the next one after a timer that ran
      out, and otherwise the one that was armed. */
  function Rearmed(changed: bool, settling: Option<nat>, continuation: Option<nat>, elapsed: bool): Option<nat> {
    if changed then Some(0)
    else if settling.Some? && elapsed then if settling.value + 1 < SETTLING_SCANS then Some(settling.value + 1) else None
    else if continuation.Some? then if continuation.value < SETTLING_SCANS then continuation else None
    else settling
  }

  class DiscoveryLoop {
    var baseline: Option<Fingerprint>
    var fullPending: bool
    var gateChangePending: bool
    var settling: Option<nat>
    var settlingContinuation: Option<nat>
    var resync: Channel
    var trigger: Channel
    var log: Log

    /** Until the last settling scan has run, its timer or the scan before it is pending:
        no scan that is started for another reason uses it up. */
    ghost predicate Valid()
      reads this
    {
      && Legal(log)
      && (settling.Some? ==> settling.value < SETTLING_SCANS && settling.value == Next(log) && settlingContinuation.None?)
      && (settlingContinuation.Some? ==> settlingContinuation.value == Next(log) && fullPending)
      && (Next(log) < SETTLING_SCANS ==> settling.Some? || settlingContinuation.Some?)
      && (gateChangePending ==> fullPending)
      && resync.seen <= resync.version && trigger.seen <= trigger.version
      && (fullPending || Noted())
    }

    /** A scan that is owed is asked for in one of the channels. */
    ghost predicate Noted()
      reads this
    {
      Owed(log) ==> resync.HasChanged() || trigger.HasChanged()
    }

    constructor ()
      ensures Valid() && log == [] && fullPending
    {
      baseline, fullPending, gateChangePending, settling, settlingContinuation := None, true, false, None, None;
      resync, trigger, log := Channel(0, 0), Channel(0, 0), [];
    }

    method Record(next: Happening)
      requires Legal(log) && Allowed(log, next)
      modifies this`log
      ensures log == old(log) + [next] && Legal(log)
      ensures Next(log) == if next.Changed? then 0 else if next.Fired? then next.index + 1 else Next(old(log))
      ensures Owed(log) <==> next.Requested? || next.Mismatched? || (Owed(old(log)) && !next.Started?)
    {
      Append(log, next);
      log := log + [next];
    }

    /** A server task, or the user, asks for a scan. */
    method Request(manual: bool)
      requires Valid()
      modifies this`resync, this`trigger, this`log
      ensures Valid() && Noted() && log == old(log) + [Requested]
      ensures if manual then resync == old(resync).Sent() && trigger == old(trigger)
              else trigger == old(trigger).Sent() && resync == old(resync)
    {
      if manual {
        resync := resync.Sent();
      } else {
        trigger := trigger.Sent();
      }
      Record(Requested);
    }

    method Requests(manual: nat, triggered: nat)
      requires Valid()
      modifies this`resync, this`trigger, this`log
      ensures Valid() && (old(Noted()) ==> Noted())
      ensures resync == Channel(old(resync).version + manual, old(resync).seen)
      ensures trigger == Channel(old(trigger).version + triggered, old(trigger).seen)
      ensures log == old(log) + Asked(manual + triggered)
    {
      for i := 0 to manual
        invariant Valid() && (old(Noted()) ==> Noted())
        invariant log == old(log) + Asked(i)
        invariant resync == Channel(old(resync).version + i, old(resync).seen) && trigger == old(trigger)
      {
        Request(true);
      }
      for i := 0 to triggered
        invariant Valid() && (old(Noted()) ==> Noted())
        invariant resync == Channel(old(resync).version + manual, old(resync).seen)
        invariant trigger == Channel(old(trigger).version + i, old(trigger).seen)
        invariant log == old(log) + Asked(manual + i)
      {
        Request(false);
      }
    }

    /** What the loop does before a full scan: it takes note of all that is due. */
    method BeginScan(gate: Option<Option<Fingerprint>>, timerElapsed: bool)
      requires Valid() && fullPending
      modifies this`resync, this`trigger, this`gateChangePending, this`settling, this`settlingContinuation, this`log
      ensures Valid() && !Owed(log) && !resync.HasChanged() && !trigger.HasChanged()
      ensures gateChangePending == (old(gateChangePending) || (gate.Some? && gate.value.Some? && gate.value != baseline))
      ensures if old(settling).Some? && timerElapsed
              then settling.None? && settlingContinuation == Some(old(settling).value + 1)
              else settling == old(settling) && settlingContinuation == old(settlingContinuation)
      ensures log == old(log) + Begun(gate, baseline, old(settling), timerElapsed)
    {
      TakeNote(gate);
      StartScan(timerElapsed);
      Joined(old(log), If(gate.Some? && gate.value.Some? && gate.value != baseline, Mismatched), Opened(old(settling), timerElapsed));
    }

    method TakeNote(gate: Option<Option<Fingerprint>>)
      requires Valid() && fullPending
      modifies this`resync, this`trigger, this`gateChangePending, this`log
      ensures Valid() && !resync.HasChanged() && !trigger.HasChanged()
      ensures gateChangePending == (old(gateChangePending) || (gate.Some? && gate.value.Some? && gate.value != baseline))
      ensures log == old(log) + If(gate.Some? && gate.value.Some? && gate.value != baseline, Mismatched)
    {
      resync := resync.Seen();
      trigger := trigger.Seen();
      PollGate(gate);
    }

    method StartScan(timerElapsed: bool)
      requires Valid() && fullPending
      modifies this`settling, this`settlingContinuation, this`log
      ensures Valid() && !Owed(log)
      ensures if old(settling).Some? && timerElapsed
              then settling.None? && settlingContinuation == Some(old(settling).value + 1)
              else settling == old(settling) && settlingContinuation == old(settlingContinuation)
      ensures log == old(log) + Opened(old(settling), timerElapsed)
    {
      if settling.Some? && timerElapsed {
        Fire();
      }
      Record(Started);
    }

    /** Polls the gate, if it is due, before a scan. An error changes nothing. */
    method PollGate(gate: Option<Option<Fingerprint>>)
      requires Valid() && fullPending
      modifies this`gateChangePending, this`log
      ensures Valid()
      ensures gateChangePending == (old(gateChangePending) || (gate.Some? && gate.value.Some? && gate.value != baseline))
      ensures log == old(log) + If(gate.Some? && gate.value.Some? && gate.value != baseline, Mismatched)
    {
      if gate.Some? {
        match gate.value {
          case Some(fingerprint) =>
            if baseline != Some(fingerprint) {
              gateChangePending := true;
              Record(Mismatched);
            }
          case None =>
        }
      }
    }

    /** The settling timer ran out: the next one is armed after the scan. */
    method Fire()
      requires Valid() && fullPending && settling.Some?
      modifies this`settling, this`settlingContinuation, this`log
      ensures Valid() && settling.None? && settlingContinuation == Some(old(settling).value + 1)
      ensures log == old(log) + [Fired(old(settling).value)] && Owed(log) == Owed(old(log))
    {
      var index := settling.value;
      settling := None;
      Record(Fired(index));
      settlingContinuation := Some(index + 1);
    }

    /** What the loop makes of the result of a scan; `None` if the scan failed. */
    method EndScan(fingerprint: Option<Fingerprint>)
      requires Valid() && fullPending
      requires Noted()
      modifies this`baseline, this`fullPending, this`gateChangePending, this`settling, this`settlingContinuation, this`log
      ensures Valid() && !fullPending && !gateChangePending && settlingContinuation.None?
      ensures baseline == if fingerprint.Some? then fingerprint else old(baseline)
      ensures var changed := SawChange(old(baseline), fingerprint) || old(gateChangePending);
        && log == (if changed then old(log) + [Changed] else old(log))
        && settling == (if changed then Some(0)
                        else if old(settlingContinuation).None? then old(settling)
                        else if old(settlingContinuation).value < SETTLING_SCANS then old(settlingContinuation) else None)
      ensures log == old(log) + [Changed] && settling == Some(0) <==>
        || old(gateChangePending)
        || (fingerprint.Some? && old(baseline).Some? && fingerprint.value != old(baseline).value)
        || (fingerprint.Some? && old(baseline).None? && exists row :: row in fingerprint.value)
    {
      var changed := SawChange(baseline, fingerprint);
      if fingerprint.Some? {
        baseline := fingerprint;
      }
      if changed || gateChangePending {
        Record(Changed);
        settling := Some(0);
        settlingContinuation := None;
      } else if settlingContinuation.Some? {
        var index := settlingContinuation.value;
        settlingContinuation := None;
        if index < SETTLING_SCANS {
          settling := Some(index);
        }
      }
      gateChangePending := false;
      fullPending := false;
    }

    /** One turn with a full scan. `outcome` is `None` if the monitor stops during it. */
    method ScanTurn(gate: Option<Option<Fingerprint>>, timerElapsed: bool, manual: nat, triggered: nat,
                    outcome: Option<Option<Fingerprint>>) returns (continues: bool)
      requires Valid() && fullPending
      modifies this
      ensures Valid()
      ensures continues == outcome.Some? && (continues ==> !fullPending && !gateChangePending && settlingContinuation.None?)
      ensures baseline == if outcome.Some? && outcome.value.Some? then outcome.value else old(baseline)
      ensures continues ==>
        var pending := old(gateChangePending) || (gate.Some? && gate.value.Some? && gate.value != old(baseline));
        settling == Rearmed(SawChange(old(baseline), outcome.value) || pending, old(settling), old(settlingContinuation), timerElapsed)
      ensures var pending := old(gateChangePending) || (gate.Some? && gate.value.Some? && gate.value != old(baseline));
        log == old(log) + Begun(gate, old(baseline), old(settling), timerElapsed) + Asked(manual + triggered)
               + If(outcome.Some? && (SawChange(old(baseline), outcome.value) || pending), Changed)
    {
      BeginScan(gate, timerElapsed);
      Requests(manual, triggered);
      if outcome.None? {
        return false;
      }
      EndScan(outcome.value);
      return true;
    }

    /** One turn of waiting. The loop blocks if nothing is due; meanwhile requests may come. */
    method WaitTurn(due: bool, manual: nat, triggered: nat, wake: Wake) returns (continues: bool)
      requires Valid() && !fullPending
      modifies this
      ensures Valid() && baseline == old(baseline)
      ensures continues <==> !(wake.Shutdown? || (wake.Resynced? && wake.closed) || (wake.Triggered? && wake.closed))
      ensures continues ==> (fullPending <==> Wakes(wake, baseline, old(settling), old(resync).HasChanged() || manual > 0,
                                                    old(trigger).HasChanged() || triggered > 0))
      ensures continues ==> (gateChangePending <==> wake.Gate? && wake.fingerprint.Some? && wake.fingerprint != baseline)
      ensures wake == FullInterval ==> continues && fullPending
      ensures wake == Gate(None) ==> continues && fullPending
      ensures forall seen :: wake == Gate(Some(seen)) ==> continues && (fullPending <==> baseline != Some(seen))
      ensures wake == Resynced(false) && manual > 0 ==> continues && fullPending
      ensures wake == Triggered(false) && triggered > 0 ==> continues && fullPending
      ensures wake == TimerDue && old(settling).Some? ==> continues && fullPending
      ensures if wake == TimerDue && old(settling).Some?
              then settling.None? && settlingContinuation == Some(old(settling).value + 1)
              else settling == old(settling) && settlingContinuation == old(settlingContinuation)
      ensures log == old(log) + If(!due && !old(resync).HasChanged() && !old(trigger).HasChanged(), Blocked)
                     + Asked(manual + triggered) + Woken(wake, baseline, old(settling))
    {
      Idle(due, manual, triggered);
      continues := WakeUp(wake);
    }

    /** Blocks unless something is due; requests may come meanwhile. */
    method Idle(due: bool, manual: nat, triggered: nat)
      requires Valid() && !fullPending
      modifies this`resync, this`trigger, this`log
      ensures Valid()
      ensures resync == Channel(old(resync).version + manual, old(resync).seen)
      ensures trigger == Channel(old(trigger).version + triggered, old(trigger).seen)
      ensures log == old(log) + If(!due && !old(resync).HasChanged() && !old(trigger).HasChanged(), Blocked) + Asked(manual + triggered)
    {
      if !due && !resync.HasChanged() && !trigger.HasChanged() {
        Record(Blocked);
      }
      Requests(manual, triggered);
    }

    /** What ends the wait. */
    method WakeUp(wake: Wake) returns (continues: bool)
      requires Valid() && !fullPending
      modifies this
      ensures Valid() && baseline == old(baseline)
      ensures continues <==> !(wake.Shutdown? || (wake.Resynced? && wake.closed) || (wake.Triggered? && wake.closed))
      ensures continues ==>
        (fullPending <==> Wakes(wake, baseline, old(settling), old(resync).HasChanged(), old(trigger).HasChanged()))
      ensures continues ==> (gateChangePending <==> wake.Gate? && wake.fingerprint.Some? && wake.fingerprint != baseline)
      ensures if wake == TimerDue && old(settling).Some?
              then settling.None? && settlingContinuation == Some(old(settling).value + 1)
              else settling == old(settling) && settlingContinuation == old(settlingContinuation)
      ensures log == old(log) + Woken(wake, baseline, old(settling))
    {
      match wake {
        case Shutdown =>
          return false;
        case Gate(fingerprint) =>
          match fingerprint {
            case Some(current) =>
              if baseline != Some(current) {
                Record(Mismatched);
                gateChangePending := true;
                fullPending := true;
              }
            case None =>
              Record(Mismatched);
              fullPending := true;
          }
        case FullInterval =>
          Record(Requested);
          fullPending := true;
        case Resynced(closed) =>
          if closed {
            return false;
          }
          if resync.HasChanged() {
            resync := resync.Seen();
            fullPending := true;
          }
        case Triggered(closed) =>
          if closed {
            return false;
          }
          if trigger.HasChanged() {
            trigger := trigger.Seen();
            fullPending := true;
          }
        case TimerDue =>
          if settling.Some? {
            fullPending := true;
            Fire();
          }
      }
      return true;
    }

    ghost function Now(): Snapshot
      reads this
    {
      Snapshot(log, baseline, fullPending, settling, resync.HasChanged(), trigger.HasChanged())
    }

    /** One turn: a full scan if one is pending, and otherwise a wait. */
    method TakeTurn(turn: Turn) returns (continues: bool)
      requires Valid()
      modifies this
      ensures Valid() && old(log) <= log
      ensures Follows(old(Now()), turn, Now()) && (continues <==> !Ends(old(Now()), turn))
    {
      if fullPending {
        continues := TakeScan(turn);
      } else {
        continues := TakeWait(turn);
      }
    }

    method TakeScan(turn: Turn) returns (continues: bool)
      requires Valid() && fullPending
      modifies this
      ensures Valid() && old(log) <= log && Scans(old(Now()), turn, Now()) && continues == turn.outcome.Some?
    {
      continues := ScanTurn(turn.gate, turn.elapsed, turn.manual, turn.triggered, turn.outcome);
    }

    method TakeWait(turn: Turn) returns (continues: bool)
      requires Valid() && !fullPending
      modifies this
      ensures Valid() && old(log) <= log && Waits(old(Now()), turn, Now()) && continues != Halts(turn.wake)
    {
      continues := WaitTurn(turn.elapsed, turn.manual, turn.triggered, turn.wake);
    }

    /** `run_discovery_with`, turn by turn until one ends it. `states` are the states between the
        turns. */
    method Run(turns: seq<Turn>) returns (ghost states: seq<Snapshot>)
      requires Valid()
      modifies this
      ensures Valid() && old(log) <= log
      ensures 0 < |states| <= |turns| + 1 && states[0] == old(Now()) && states[|states| - 1] == Now()
      ensures forall k :: 0 <= k < |states| - 1 ==> Follows(states[k], turns[k], states[k + 1])
      ensures forall k :: 0 <= k < |states| - 2 ==> !Ends(states[k], turns[k])
      ensures |states| < |turns| + 1 ==> |states| > 1 && Ends(states[|states| - 2], turns[|states| - 2])
    {
      states := [Now()];
      for i := 0 to |turns|
        invariant Valid() && old(log) <= log
        invariant |states| == i + 1 && states[0] == old(Now()) && states[i] == Now()
        invariant forall k :: 0 <= k < i ==> Follows(states[k], turns[k], states[k + 1])
        invariant forall k :: 0 <= k < i ==> !Ends(states[k], turns[k])
      {
        var continues := TakeTurn(turns[i]);
        states := states + [Now()];
        if !continues {
          return;
        }
      }
    }
  }

  /** What can be seen of the loop between two turns. */
  datatype Snapshot = Snapshot(log: Log, baseline: Option<Fingerprint>, fullPending: bool, settling: Option<nat>,
                               resynced: bool, triggered: bool)

  /** A turn ends the loop if the monitor stops, or a channel is closed. */
  predicate Ends(before: Snapshot, turn: Turn) {
    if before.fullPending then turn.outcome.None? else Halts(turn.wake)
  }

  predicate Halts(wake: Wake) {
    wake.Shutdown? || (wake.Resynced? && wake.closed) || (wake.Triggered? && wake.closed)
  }

  /** The scan is made, and its result becomes the baseline. */
  predicate Scans(before: Snapshot, turn: Turn, after: Snapshot) {
    && before.log + Begun(turn.gate, before.baseline, before.settling, turn.elapsed) + Asked(turn.manual + turn.triggered) <= after.log
    && after.baseline == (if turn.outcome.Some? && turn.outcome.value.Some? then turn.outcome.value else before.baseline)
    && (turn.outcome.Some? ==> !after.fullPending)
  }

  /** The loop blocks unless something is due, and what ends the wait decides whether a scan
      is made next. */
  predicate Waits(before: Snapshot, turn: Turn, after: Snapshot) {
    && after.log == before.log + If(!turn.elapsed && !before.resynced && !before.triggered, Blocked)
                    + Asked(turn.manual + turn.triggered) + Woken(turn.wake, before.baseline, before.settling)
    && after.baseline == before.baseline
    && (!Halts(turn.wake) ==>
          (after.fullPending <==> Wakes(turn.wake, before.baseline, before.settling, before.resynced || turn.manual > 0,
                                        before.triggered || turn.triggered > 0)))
  }

  predicate Follows(before: Snapshot, turn: Turn, after: Snapshot) {
    if before.fullPending then Scans(before, turn, after) else Waits(before, turn, after)
  }

  /** What one turn of the loop meets: the gate and the timers if they are due, the requests
      that arrive, the outcome of a scan, the end of a wait. */
  datatype Turn = Turn(
    gate: Option<Option<Fingerprint>>,
    elapsed: bool,
    manual: nat,
    triggered: nat,
    outcome: Option<Option<Fingerprint>>,
    wake: Wake)
}
