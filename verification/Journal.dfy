/** The event journal kept while a snapshot is in flight, and the rules for polling the
    stream into it. */
module Journal {
  import opened SseGrammar
  import opened SseStream

  const BOOTSTRAP_EVENT_CAPACITY: nat := 1024
  const MAX_BUFFERED_SOURCE_BYTES: nat := 8 * 1024 * 1024
  const MAX_READY_SSE_DRAIN: nat := BOOTSTRAP_EVENT_CAPACITY

  /** The events among `items` that change state, in order. */
  function Kept<E>(items: seq<Item<E>>, state: E -> bool): seq<Item<E>> {
    if items == [] then []
    else
      var init, last := Kept(items[..|items| - 1], state), items[|items| - 1];
      if last.Event? && state(last.event) then init + [last] else init
  }

  function TotalBytes<E>(events: seq<Item<E>>): nat {
    if events == [] then 0
    else TotalBytes(events[..|events| - 1]) + if events[|events| - 1].Event? then events[|events| - 1].sourceBytes else 0
  }

  /** The journal exceeds its limits by less than one frame. */
  ghost predicate Bounded<E>(events: seq<Item<E>>) {
    && |events| <= BOOTSTRAP_EVENT_CAPACITY
    && TotalBytes(events) < MAX_BUFFERED_SOURCE_BYTES + MAX_SSE_FRAME_SIZE + MAX_SSE_DELIMITER_PREFIX
  }

  lemma KeptStep<E>(items: seq<Item<E>>, n: nat, state: E -> bool)
    requires n < |items|
    ensures Kept(items[..n + 1], state) ==
            if items[n].Event? && state(items[n].event) then Kept(items[..n], state) + [items[n]] else Kept(items[..n], state)
  {
    assert items[..n + 1][..n] == items[..n];
  }

  /** What one poll takes if nothing stops it: an item and those ready behind it. */
  function OnePoll(ready: nat): nat {
    if ready + 1 < 1024 then ready + 1 else 1024
  }

  function Polled(turns: seq<nat>): nat {
    if turns == [] then 0 else Polled(turns[..|turns| - 1]) + OnePoll(turns[|turns| - 1])
  }

  lemma {:induction false} PolledMore(turns: seq<nat>, i: nat)
    requires i < |turns|
    ensures Polled(turns[..i + 1]) == Polled(turns[..i]) + OnePoll(turns[i])
    ensures Polled(turns[..i + 1]) <= Polled(turns)
    decreases |turns| - i
  {
    assert turns[..i + 1][..i] == turns[..i];
    if i + 1 < |turns| {
      PolledMore(turns, i + 1);
    } else {
      assert turns[..i + 1] == turns;
    }
  }

  /** Nothing but the events that change state is kept, and all of them, in their order. */
  lemma {:induction false} KeptMeaning<E>(items: seq<Item<E>>, more: seq<Item<E>>, state: E -> bool)
    ensures Kept(items + more, state) == Kept(items, state) + Kept(more, state)
    ensures forall event, n :: items == [Event(event, n)] ==> Kept(items, state) == if state(event) then items else []
    ensures forall error :: items == [Failure(error)] ==> Kept(items, state) == []
  {
    assert forall item :: items == [item] ==> items[..0] == [];
    if more == [] {
      assert items + more == items && Kept(items, state) + [] == Kept(items, state);
    } else {
      var n := |more| - 1;
      KeptMeaning(items, more[..n], state);
      assert (items + more)[..|items| + n] == items + more[..n];
    }
  }

  class EventJournal<E> {
    var events: seq<Item<E>>
    var sourceBytes: nat

    ghost predicate Valid()
      reads this
    {
      sourceBytes == TotalBytes(events)
    }

    constructor ()
      ensures Valid() && events == []
    {
      events, sourceBytes := [], 0;
    }

    /** There is no room for another event. */
    ghost predicate Full()
      reads this
    {
      |events| >= 1024 || TotalBytes(events) >= 8_388_608
    }

    predicate CanPoll()
      reads this
    {
      |events| < BOOTSTRAP_EVENT_CAPACITY && sourceBytes < MAX_BUFFERED_SOURCE_BYTES
    }

    method Push(event: Item<E>)
      requires Valid() && event.Event?
      modifies this
      ensures Valid() && events == old(events) + [event]
      ensures old(CanPoll()) && event.sourceBytes <= MAX_SSE_FRAME_SIZE + MAX_SSE_DELIMITER_PREFIX ==> Bounded(events)
    {
      assert (events + [event])[..|events|] == events;
      sourceBytes := sourceBytes + event.sourceBytes;
      events := events + [event];
    }

    /** The loop of `bootstrap_connection`: everything is buffered until the snapshot is
        there, the stream fails, or the journal is full. */
    method Bootstrap(stream: seq<Item<E>>, polls: nat) returns (consumed: nat, failed: bool)
      requires Valid() && events == [] && EventsBounded(stream)
      modifies this
      ensures Valid() && Bounded(events)
      ensures consumed <= |stream| && events == stream[..consumed]
      ensures failed ==> consumed == |stream| || stream[consumed].Failure?
      ensures if failed then consumed < polls && !Full() else consumed == polls || (consumed < polls && Full())
    {
      consumed, failed := 0, false;
      for i := 0 to polls
        invariant Valid() && Bounded(events)
        invariant consumed <= |stream| && events == stream[..consumed]
        invariant consumed == i || (consumed < i && !CanPoll())
      {
        if CanPoll() {
          if consumed == |stream| || stream[consumed].Failure? {
            return consumed, true;
          }
          assert stream[consumed] in stream;
          Push(stream[consumed]);
          consumed := consumed + 1;
        }
      }
    }

    /** `process_reconciliation_item`: state events are kept. */
    method Process(item: Item<E>, state: E -> bool)
      requires Valid() && item.Event?
      modifies this
      ensures Valid() && events == if state(item.event) then old(events) + [item] else old(events)
      ensures old(CanPoll() && Bounded(events)) && item.sourceBytes <= MAX_SSE_FRAME_SIZE + MAX_SSE_DELIMITER_PREFIX ==>
        Bounded(events)
    {
      if state(item.event) {
        Push(item);
      }
    }

    /** The stream branch of `reconcile_in_flight`: one item, then those that are ready. It
        stops early only when the journal is full or the stream fails. */
    method Drain(stream: seq<Item<E>>, start: nat, ready: nat, state: E -> bool) returns (consumed: nat, failed: bool)
      requires Valid() && Bounded(events) && EventsBounded(stream) && CanPoll()
      requires start <= |stream| && events == Kept(stream[..start], state)
      modifies this
      ensures Valid() && Bounded(events)
      ensures start <= consumed <= |stream| && events == Kept(stream[..consumed], state)
      ensures failed ==> consumed == |stream| || stream[consumed].Failure?
      ensures failed ==> consumed - start < OnePoll(ready)
      ensures !failed ==> consumed - start == OnePoll(ready) || (start < consumed < start + OnePoll(ready) && Full())
    {
      consumed, failed := start, false;
      for i := 0 to MAX_READY_SSE_DRAIN
        invariant Valid() && Bounded(events) && (i == 0 ==> CanPoll())
        invariant start <= consumed <= |stream| && events == Kept(stream[..consumed], state)
        invariant consumed == start + i && i <= OnePoll(ready)
      {
        if i > 0 && (!CanPoll() || i > ready) {
          return;
        }
        if consumed == |stream| || stream[consumed].Failure? {
          return consumed, true;
        }
        TakeOne(stream, consumed, state);
        consumed := consumed + 1;
      }
    }

    method TakeOne(stream: seq<Item<E>>, next: nat, state: E -> bool)
      requires Valid() && Bounded(events) && CanPoll() && EventsBounded(stream)
      requires next < |stream| && stream[next].Event? && events == Kept(stream[..next], state)
      modifies this
      ensures Valid() && Bounded(events) && events == Kept(stream[..next + 1], state)
    {
      KeptStep(stream, next, state);
      Process(stream[next], state);
    }

    /** `reconcile_in_flight`: while the snapshot is on its way the stream is polled as long
        as the journal has room; `turns` says how many items are ready at each poll. */
    method Reconcile(stream: seq<Item<E>>, turns: seq<nat>, state: E -> bool) returns (consumed: nat, failed: bool)
      requires Valid() && events == [] && EventsBounded(stream)
      modifies this
      ensures Valid() && Bounded(events)
      ensures consumed <= |stream| && events == Kept(stream[..consumed], state)
      ensures failed ==> consumed == |stream| || stream[consumed].Failure?
      ensures if failed then consumed < Polled(turns) else consumed == Polled(turns) || (consumed <= Polled(turns) && Full())
    {
      consumed, failed := 0, false;
      for i := 0 to |turns|
        invariant Valid() && Bounded(events) && !failed
        invariant consumed <= |stream| && events == Kept(stream[..consumed], state)
        invariant consumed == Polled(turns[..i]) || (consumed <= Polled(turns[..i]) && !CanPoll())
      {
        PolledMore(turns, i);
        if CanPoll() {
          consumed, failed := Drain(stream, consumed, turns[i], state);
          if failed {
            return;
          }
        }
      }
      assert turns[..|turns|] == turns;
    }
  }
}
