/** The server tasks and the discovery loop in one log. A task that loses its connection asks
    for a scan in the same step. */
module Disconnects {
  import Lifecycle
  import Settling

  datatype Moment = OfServers(event: Lifecycle.Event) | OfLoop(happening: Settling.Happening)

  type Run = seq<Moment>

  function ServerLog(run: Run): seq<Lifecycle.Event> {
    if run == [] then []
    else
      var init, last := ServerLog(run[..|run| - 1]), run[|run| - 1];
      if last.OfServers? then init + [last.event] else init
  }

  function LoopLog(run: Run): Settling.Log {
    if run == [] then []
    else
      var init, last := LoopLog(run[..|run| - 1]), run[|run| - 1];
      if last.OfLoop? then init + [last.happening] else init
  }

  /** `record_disconnect` noted the generation and is about to request a scan. */
  predicate Asking(run: Run) {
    run != [] && run[|run| - 1].OfServers? && run[|run| - 1].event.Dropped?
  }

  predicate Allowed(run: Run, next: Moment) {
    && (Asking(run) ==> next == OfLoop(Settling.Requested))
    && match next
       case OfServers(event) => Lifecycle.Allowed(Lifecycle.Replay(ServerLog(run)), event)
       case OfLoop(happening) => Settling.Allowed(LoopLog(run), happening)
  }

  predicate Legal(run: Run) {
    run == [] || (Legal(run[..|run| - 1]) && Allowed(run[..|run| - 1], run[|run| - 1]))
  }

  /** Each part of a legal run is legal on its own, so what the two logs guarantee holds. */
  lemma {:induction false} PartsAreLegal(run: Run)
    requires Legal(run)
    ensures Lifecycle.Legal(ServerLog(run)) && Settling.Legal(LoopLog(run))
  {
    if run != [] {
      var init, last := run[..|run| - 1], run[|run| - 1];
      PartsAreLegal(init);
      match last
      case OfServers(event) => Lifecycle.ReplayAppend(ServerLog(init), event);
      case OfLoop(happening) => Settling.Append(LoopLog(init), happening);
    }
  }

  lemma {:induction false} LegalAt(run: Run, n: nat)
    requires Legal(run) && n < |run|
    ensures Legal(run[..n]) && Allowed(run[..n], run[n])
    decreases |run|
  {
    if n < |run| - 1 {
      LegalAt(run[..|run| - 1], n);
      assert run[..|run| - 1][..n] == run[..n];
    }
  }

  predicate IsStart(moment: Moment) {
    moment == OfLoop(Settling.Started)
  }

  /** Until a full scan starts the loop owes one. */
  lemma {:induction false} StillOwed(run: Run, drop: nat, until: nat)
    requires Legal(run) && drop + 1 < until <= |run| && Asking(run[..drop + 1])
    requires forall i :: drop < i < until ==> !IsStart(run[i])
    ensures Settling.Owed(LoopLog(run[..until]))
    decreases until
  {
    var n := until - 1;
    LegalAt(run, n);
    if n > drop + 1 {
      StillOwed(run, drop, n);
    }
    OwedAt(run, n);
  }

  lemma OwedAt(run: Run, n: nat)
    requires n < |run| && Allowed(run[..n], run[n]) && !IsStart(run[n])
    requires Asking(run[..n]) || Settling.Owed(LoopLog(run[..n]))
    ensures Settling.Owed(LoopLog(run[..n + 1]))
  {
    assert run[..n + 1] == run[..n] + [run[n]];
    OwedNext(run[..n], run[n]);
  }

  lemma OwedNext(run: Run, next: Moment)
    requires Allowed(run, next) && !IsStart(next) && (Asking(run) || Settling.Owed(LoopLog(run)))
    ensures Settling.Owed(LoopLog(run + [next]))
  {
  }

  /** After every disconnect a full scan starts before the discovery loop blocks again. */
  lemma {:induction false} DisconnectsAreScanned(run: Run, drop: nat, blocked: nat)
    requires Legal(run) && drop < blocked < |run|
    requires run[drop].OfServers? && run[drop].event.Dropped? && run[blocked] == OfLoop(Settling.Blocked)
    ensures exists started :: drop < started < blocked && IsStart(run[started])
  {
    LegalAt(run, blocked);
    if blocked == drop + 1 {
      assert Asking(run[..blocked]);
    } else if forall i :: drop < i < blocked ==> !IsStart(run[i]) {
      StillOwed(run, drop, blocked);
    }
  }
}
