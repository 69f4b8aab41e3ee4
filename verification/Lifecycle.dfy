/** The life of discovered servers as a log: what the supervisor and the server tasks send
    to the sink, interleaved with the steps of the reconnect protocol. `Legal` says which
    logs can occur; the lemmas say what every such log guarantees. */
module Lifecycle {
  import opened Wrappers

  type Endpoint = nat

  datatype Source = Procfs | Managed

  datatype Protocol = ProtocolV1 | ProtocolV2

  datatype Key = Key(source: Source, identity: nat)

  /** `ServerInstance`. */
  datatype Server = Server(key: Key, endpoint: Endpoint, protocol: Protocol)

  /** `DiscoveryCompletion`: the last scan told to a task, and whether it found the task's
      server. */
  datatype Completion = Completion(generation: nat, named: bool)

  datatype Phase = Starting | Connected | Dropping(recorded: nat) | Waiting(recorded: nat)

  datatype Task = Task(server: Server, heard: Completion, phase: Phase)

  /** Found, Removed, Notice, Said and Lost reach the sink; the others are steps that only
      the supervisor and the tasks see. What a task says is a projection of its server's
      sessions or something else. */
  datatype Event =
    | Found(server: Server)
    | Removed(server: Server)
    | Notice
    | Said(server: Server, projection: bool)
    | Lost(server: Server)
    | Attempt(key: Key)
    | Dropped(key: Key, recorded: nat)
    | Published(key: Key, generation: nat, found: set<Key>)
    | Completed(generation: nat)

  datatype World = World(open: map<Key, Task>, completed: nat)

  function Step(world: World, event: Event): World {
    match event
    case Found(server) =>
      world.(open := world.open[server.key := Task(server, Completion(world.completed, false), Starting)])
    case Removed(server) => world.(open := world.open - {server.key})
    case Notice => world
    case Said(_, _) => world
    case Attempt(key) => InPhase(world, key, Connected)
    case Dropped(key, recorded) => InPhase(world, key, Dropping(recorded))
    case Lost(server) =>
      if server.key in world.open && world.open[server.key].phase.Dropping?
      then InPhase(world, server.key, Waiting(world.open[server.key].phase.recorded)) else world
    case Published(key, generation, found) =>
      if key in world.open
      then world.(open := world.open[key := world.open[key].(heard := Completion(generation, key in found))]) else world
    case Completed(generation) => world.(completed := generation)
  }

  function InPhase(world: World, key: Key, phase: Phase): World {
    if key in world.open then world.(open := world.open[key := world.open[key].(phase := phase)]) else world
  }

  predicate MayAttempt(task: Task) {
    match task.phase
    case Starting => true
    case Waiting(recorded) => task.heard.named && task.heard.generation > recorded
    case _ => false
  }

  predicate Allowed(world: World, event: Event) {
    match event
    case Found(server) =>
      server.key !in world.open && forall key :: key in world.open ==> world.open[key].server.endpoint != server.endpoint
    case Removed(server) => IsOpen(world, server)
    case Notice => true
    case Said(server, _) => IsOpen(world, server) && (world.open[server.key].phase.Starting? || world.open[server.key].phase.Connected?)
    case Lost(server) => IsOpen(world, server) && world.open[server.key].phase.Dropping?
    case Attempt(key) => key in world.open && MayAttempt(world.open[key])
    case Dropped(key, recorded) =>
      key in world.open && world.open[key].phase.Connected? && recorded == world.open[key].heard.generation
    case Published(key, generation, _) =>
      key in world.open && world.completed < generation && world.open[key].heard.generation <= generation
    case Completed(generation) =>
      world.completed < generation && forall key :: key in world.open ==> world.open[key].heard.generation == generation
  }

  predicate IsOpen(world: World, server: Server) {
    server.key in world.open && world.open[server.key].server == server
  }

  function Replay(log: seq<Event>): World {
    if log == [] then World(map[], 0) else Step(Replay(log[..|log| - 1]), log[|log| - 1])
  }

  predicate Legal(log: seq<Event>) {
    log == [] || (Legal(log[..|log| - 1]) && Allowed(Replay(log[..|log| - 1]), log[|log| - 1]))
  }

  lemma ReplayAppend(log: seq<Event>, event: Event)
    ensures Replay(log + [event]) == Step(Replay(log), event)
    ensures Legal(log + [event]) <==> Legal(log) && Allowed(Replay(log), event)
  {
  }

  lemma {:induction false} LegalPrefix(log: seq<Event>, n: nat)
    requires Legal(log) && n <= |log|
    ensures Legal(log[..n])
    decreases |log|
  {
    if n == |log| {
      assert log[..n] == log;
    } else {
      LegalPrefix(log[..|log| - 1], n);
      assert log[..|log| - 1][..n] == log[..n];
    }
  }

  lemma LegalAt(log: seq<Event>, n: nat)
    requires Legal(log) && n < |log|
    ensures Legal(log[..n]) && Allowed(Replay(log[..n]), log[n])
    ensures Replay(log[..n + 1]) == Step(Replay(log[..n]), log[n])
  {
    LegalPrefix(log, n);
    LegalPrefix(log, n + 1);
    assert log[..n + 1] == log[..n] + [log[n]];
    ReplayAppend(log[..n], log[n]);
  }

  // ---------- one server per endpoint ----------

  ghost predicate Keyed(world: World) {
    forall key :: key in world.open ==> world.open[key].server.key == key
  }

  ghost predicate OnePerEndpoint(world: World) {
    forall k, j :: k in world.open && j in world.open && world.open[k].server.endpoint == world.open[j].server.endpoint ==> k == j
  }

  ghost predicate HeardKept(world: World) {
    forall key :: key in world.open ==>
      (world.open[key].phase.Dropping? || world.open[key].phase.Waiting? ==>
            world.open[key].phase.recorded <= world.open[key].heard.generation)
  }

  ghost predicate Sane(world: World) {
    Keyed(world) && OnePerEndpoint(world) && HeardKept(world)
  }

  lemma StepIsSane(world: World, event: Event)
    requires Sane(world) && Allowed(world, event)
    ensures Sane(Step(world, event))
  {
  }

  /** At every point of a legal log at most one server is open at an endpoint. */
  lemma {:induction false} LegalIsSane(log: seq<Event>)
    requires Legal(log)
    ensures Sane(Replay(log))
  {
    if log != [] {
      LegalIsSane(log[..|log| - 1]);
      StepIsSane(Replay(log[..|log| - 1]), log[|log| - 1]);
    }
  }

  // ---------- bracketing ----------

  predicate Opens(event: Event, key: Key) {
    event.Found? && event.server.key == key
  }

  predicate Closes(event: Event, key: Key) {
    event.Removed? && event.server.key == key
  }

  /** At `start` the server of `key` was found, and it was not removed before `until`. */
  ghost predicate Spans(log: seq<Event>, key: Key, start: nat, until: nat) {
    && start < until <= |log|
    && Opens(log[start], key)
    && forall i :: start < i < until ==> !Opens(log[i], key) && !Closes(log[i], key)
  }

  lemma StepKeeps(world: World, event: Event, key: Key)
    requires !Opens(event, key) && !Closes(event, key)
    ensures key in Step(world, event).open <==> key in world.open
    ensures key in world.open ==> Step(world, event).open[key].server == world.open[key].server
  {
  }

  /** A server is open exactly while its latest discovery has not been followed by its
      removal, and it is the server that was found then. */
  lemma {:induction false} OpenMeansFound(log: seq<Event>, key: Key)
    requires Legal(log)
    ensures key in Replay(log).open ==>
      exists start: nat :: Spans(log, key, start, |log|) && log[start].server == Replay(log).open[key].server
    ensures key !in Replay(log).open ==> forall start: nat :: !Spans(log, key, start, |log|)
    decreases |log|
  {
    if log != [] {
      var n := |log| - 1;
      var init, last := log[..n], log[n];
      OpenMeansFound(init, key);
      if Opens(last, key) {
        assert Spans(log, key, n, |log|);
      } else if Closes(last, key) {
        assert forall start: nat :: !Spans(log, key, start, |log|);
      } else {
        StepKeeps(Replay(init), last, key);
        if key in Replay(init).open {
          var start: nat :| Spans(init, key, start, n) && init[start].server == Replay(init).open[key].server;
          assert Spans(log, key, start, |log|);
        } else {
          forall start: nat ensures !Spans(log, key, start, |log|) {
            if Spans(log, key, start, |log|) {
              assert Spans(init, key, start, n);
            }
          }
        }
      }
    }
  }

  /** The server an event speaks of, other than to announce it. */
  function Subject(event: Event): Option<Server> {
    match event
    case Removed(server) => Some(server)
    case Said(server, _) => Some(server)
    case Lost(server) => Some(server)
    case _ => None
  }

  /** The log of each server is its discovery, then events of its task, then its removal,
      over and over: whatever is said of a server is said after its discovery and before
      its removal, and a server is not found again before it was removed. */
  lemma Bracketed(log: seq<Event>, n: nat)
    requires Legal(log) && n < |log|
    ensures Subject(log[n]).Some? ==>
      exists start: nat :: Spans(log, Subject(log[n]).value.key, start, n) && log[start].server == Subject(log[n]).value
    ensures log[n].Found? ==> forall start: nat :: !Spans(log, log[n].server.key, start, n)
  {
    LegalAt(log, n);
    if Subject(log[n]).Some? {
      var server := Subject(log[n]).value;
      OpenMeansFound(log[..n], server.key);
      var start: nat :| Spans(log[..n], server.key, start, n) && log[..n][start].server == server;
      assert Spans(log, server.key, start, n);
    }
    if log[n].Found? {
      OpenMeansFound(log[..n], log[n].server.key);
      forall start: nat ensures !Spans(log, log[n].server.key, start, n) {
        if Spans(log, log[n].server.key, start, n) {
          assert Spans(log[..n], log[n].server.key, start, n);
        }
      }
    }
  }

  /** While one server is open, no other is found at its endpoint. */
  lemma EndpointsDoNotOverlap(log: seq<Event>, key: Key, start: nat, n: nat)
    requires Legal(log) && n < |log| && Spans(log, key, start, n) && log[n].Found?
    ensures log[n].server.endpoint != log[start].server.endpoint
  {
    LegalAt(log, n);
    assert Spans(log[..n], key, start, n);
    OpenMeansFound(log[..n], key);
    LatestIsUnique(log[..n], key, start, n);
  }

  lemma LatestIsUnique(log: seq<Event>, key: Key, start: nat, n: nat)
    requires Spans(log, key, start, n)
    ensures forall other: nat :: Spans(log, key, other, n) ==> other == start
  {
  }

  // ---------- consumers ----------

  type Places = map<Endpoint, Key>

  /** What `DashboardModel::apply_at` does to its endpoint map. A discovery and a projection
      both write it. */
  function DashboardStep(places: Places, event: Event): Places {
    match event
    case Found(server) => Claimed(places, server)
    case Said(server, projection) => if projection then Claimed(places, server) else places
    case Removed(server) => Forget(places, server.key)
    case _ => places
  }

  /** An endpoint that changes hands drops every trace of its former instance. */
  function Claimed(places: Places, server: Server): Places {
    var after := places[server.endpoint := server.key];
    if server.endpoint in places && places[server.endpoint] != server.key
    then Forget(after, places[server.endpoint]) else after
  }

  /** `endpoint_instances` without the entries of `key`, as `remove_instance` leaves it. */
  function Forget(places: Places, key: Key): Places {
    places - (set endpoint | endpoint in places && places[endpoint] == key)
  }

  function DashboardPlaces(log: seq<Event>): Places {
    if log == [] then map[] else DashboardStep(DashboardPlaces(log[..|log| - 1]), log[|log| - 1])
  }

  /** What `AttachmentSampler::observe` does to its targets. */
  function SamplerStep(targets: Places, event: Event): Places {
    match event
    case Found(server) => if server.protocol.ProtocolV2? then targets[server.endpoint := server.key] else targets
    case Removed(server) => targets - {server.endpoint}
    case _ => targets
  }

  function SamplerTargets(log: seq<Event>): Places {
    if log == [] then map[] else SamplerStep(SamplerTargets(log[..|log| - 1]), log[|log| - 1])
  }

  /** `places` holds the endpoints of the open servers: all, or only those that speak v2. */
  ghost predicate Reflects(places: Places, world: World, v2Only: bool) {
    && (forall key :: key in world.open && (v2Only ==> world.open[key].server.protocol.ProtocolV2?) ==>
          world.open[key].server.endpoint in places && places[world.open[key].server.endpoint] == key)
    && (forall endpoint :: endpoint in places ==>
          && places[endpoint] in world.open
          && world.open[places[endpoint]].server.endpoint == endpoint
          && (v2Only ==> world.open[places[endpoint]].server.protocol.ProtocolV2?))
  }

  lemma DashboardStepReflects(places: Places, world: World, event: Event)
    requires Sane(world) && Allowed(world, event) && Reflects(places, world, false)
    ensures Reflects(DashboardStep(places, event), Step(world, event), false)
  {
    if event.Said? {
      assert places[event.server.endpoint] == event.server.key;
      assert DashboardStep(places, event) == places;
    }
  }

  lemma SamplerStepReflects(targets: Places, world: World, event: Event)
    requires Sane(world) && Allowed(world, event) && Reflects(targets, world, true)
    ensures Reflects(SamplerStep(targets, event), Step(world, event), true)
  {
    if event.Removed? {
      var server := event.server;
      forall key | key in world.open && key != server.key
        ensures world.open[key].server.endpoint != server.endpoint
      {
        assert world.open[server.key].server == server;
      }
    }
  }

  /** Consumers that key servers by endpoint see exactly the open ones, whatever the
      interleaving. */
  lemma {:induction false} ConsumersMirror(log: seq<Event>)
    requires Legal(log)
    ensures Reflects(DashboardPlaces(log), Replay(log), false)
    ensures Reflects(SamplerTargets(log), Replay(log), true)
  {
    if log != [] {
      var init := log[..|log| - 1];
      ConsumersMirror(init);
      LegalIsSane(init);
      DashboardStepReflects(DashboardPlaces(init), Replay(init), log[|log| - 1]);
      SamplerStepReflects(SamplerTargets(init), Replay(init), log[|log| - 1]);
    }
  }

  /** Whoever speaks or loses its connection is the server that the dashboard has at that
      endpoint, and whoever is found is given a free one. So the dashboard never takes an
      endpoint from another instance, by a discovery or by a projection. */
  lemma SpeakerIsPlaced(log: seq<Event>, n: nat)
    requires Legal(log) && n < |log|
    ensures var places := DashboardPlaces(log[..n]);
      && (log[n].Said? || log[n].Lost? || log[n].Removed? ==>
            log[n].server.endpoint in places && places[log[n].server.endpoint] == log[n].server.key)
      && (log[n].Found? ==> log[n].server.endpoint !in places)
      && (log[n].Said? ==> DashboardStep(places, log[n]) == places)
  {
    LegalAt(log, n);
    ConsumersMirror(log[..n]);
  }

  // ---------- reconnecting ----------

  predicate TellsOf(event: Event, key: Key) {
    event.Published? && event.key == key
  }

  /** The last thing told to the task of `key` before `until` was told at `told`. */
  ghost predicate LastTold(log: seq<Event>, key: Key, told: nat, until: nat) {
    && told < until <= |log| && TellsOf(log[told], key)
    && forall i :: told < i < until ==> !TellsOf(log[i], key) && !Opens(log[i], key)
  }

  predicate IsDrop(event: Event, key: Key) {
    event.Dropped? && event.key == key
  }

  predicate IsAttempt(event: Event, key: Key) {
    event.Attempt? && event.key == key
  }

  /** The task of `key` lost its connection at `drop` and has not tried again since. */
  ghost predicate Disconnected(log: seq<Event>, key: Key, drop: nat, until: nat) {
    && drop < until <= |log| && IsDrop(log[drop], key)
    && forall i :: drop < i < until ==> !IsDrop(log[i], key) && !IsAttempt(log[i], key) && !Opens(log[i], key) && !Closes(log[i], key)
  }

  predicate DownWith(world: World, key: Key, recorded: nat) {
    key in world.open && (world.open[key].phase == Dropping(recorded) || world.open[key].phase == Waiting(recorded))
  }

  predicate HeardAt(log: seq<Event>, told: nat, heard: Completion) {
    told < |log| && log[told].Published? && heard == Completion(log[told].generation, log[told].key in log[told].found)
  }

  /** What a task heard since the drop was published after it. */
  ghost predicate HeardSince(log: seq<Event>, key: Key, drop: nat, until: nat, heard: Completion) {
    exists told: nat :: drop < told && LastTold(log, key, told, until) && HeardAt(log, told, heard)
  }

  lemma StaysDown(world: World, event: Event, key: Key, recorded: nat)
    requires DownWith(world, key, recorded) && Allowed(world, event)
    requires !IsDrop(event, key) && !IsAttempt(event, key) && !Opens(event, key) && !Closes(event, key)
    ensures DownWith(Step(world, event), key, recorded)
    ensures Step(world, event).open[key].heard ==
            if TellsOf(event, key) then Completion(event.generation, key in event.found) else world.open[key].heard
  {
  }

  lemma StillHeard(log: seq<Event>, key: Key, drop: nat, n: nat, heard: Completion)
    requires n < |log| && HeardSince(log, key, drop, n, heard) && !TellsOf(log[n], key) && !Opens(log[n], key)
    ensures HeardSince(log, key, drop, n + 1, heard)
  {
  }

  /** A task that is down since `drop` remembers what it had heard by then; if it has heard
      more since, that was published after the drop. */
  lemma {:induction false} DownRemembers(log: seq<Event>, key: Key, drop: nat, until: nat)
    requires Legal(log) && drop < until <= |log| && Disconnected(log, key, drop, until)
    ensures DownWith(Replay(log[..until]), key, log[drop].recorded)
    ensures var heard := Replay(log[..until]).open[key].heard;
      heard.generation == log[drop].recorded || HeardSince(log, key, drop, until, heard)
    decreases until
  {
    var n := until - 1;
    LegalAt(log, n);
    if n > drop {
      DownRemembers(log, key, drop, n);
      StaysDown(Replay(log[..n]), log[n], key, log[drop].recorded);
      var heard := Replay(log[..until]).open[key].heard;
      if TellsOf(log[n], key) {
        assert LastTold(log, key, n, until) && HeardAt(log, n, heard);
      } else if heard.generation != log[drop].recorded {
        StillHeard(log, key, drop, n, heard);
      }
    }
  }

  /** Between a disconnect and the next attempt the task was told of a scan newer than the
      one recorded at the disconnect; that scan found its server, and it is the last one
      the task was told of before the attempt. */
  lemma ReconnectSafe(log: seq<Event>, key: Key, drop: nat, attempt: nat)
    requires Legal(log) && drop < attempt < |log|
    requires Disconnected(log, key, drop, attempt) && IsAttempt(log[attempt], key)
    ensures exists told: nat :: (drop < told && LastTold(log, key, told, attempt)
                                 && key in log[told].found && log[told].generation > log[drop].recorded)
  {
    LegalAt(log, attempt);
    DownRemembers(log, key, drop, attempt);
    var heard := Replay(log[..attempt]).open[key].heard;
    var told: nat :| drop < told && LastTold(log, key, told, attempt) && HeardAt(log, told, heard);
  }

  /** A task never hears of an older scan after a newer one. */
  lemma GenerationsGrow(log: seq<Event>, key: Key, early: nat, late: nat)
    requires Legal(log) && early < late < |log|
    requires TellsOf(log[early], key) && TellsOf(log[late], key)
    requires forall i :: early < i < late ==> !Opens(log[i], key) && !Closes(log[i], key)
    ensures log[early].generation <= log[late].generation
  {
    HearsAtLeast(log, key, early, late);
    LegalAt(log, late);
  }

  lemma {:induction false} HearsAtLeast(log: seq<Event>, key: Key, early: nat, until: nat)
    requires Legal(log) && early < until <= |log| && TellsOf(log[early], key)
    requires forall i :: early < i < until ==> !Opens(log[i], key) && !Closes(log[i], key)
    ensures key in Replay(log[..until]).open && log[early].generation <= Replay(log[..until]).open[key].heard.generation
    decreases until
  {
    LegalAt(log, until - 1);
    if until - 1 > early {
      HearsAtLeast(log, key, early, until - 1);
    }
  }
}
