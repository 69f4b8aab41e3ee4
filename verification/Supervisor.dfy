/** The discovery supervisor and its server tasks. The tasks run whenever the supervisor
    waits: `Interfere` lets them take any number of steps in any order. Every step is
    recorded in `log`. */
module Supervisor {
  import opened Wrappers
  import opened Lifecycle

  /** Private connection settings, compared only for equality. */
  type Settings = nat

  datatype Entry = Entry(server: Server, settings: Settings, misses: nat)

  /** `DiscoveryReport`, with as many diagnostics as `notices` says. */
  datatype Report = Report(servers: seq<Server>, connections: map<Key, Settings>, incomplete: set<Source>, notices: nat)

  function Keys(servers: seq<Server>): set<Key> {
    set server | server in servers :: server.key
  }

  // ---------- what a pass decides ----------

  /** The replacement condition of `discover_once`. */
  predicate Replaces(report: Report, server: Server, entry: Entry) {
    || (server.key == entry.server.key && server.key in report.connections && report.connections[server.key] != entry.settings)
    || (server.endpoint == entry.server.endpoint && server.key != entry.server.key
        && (server.key.source.Managed? || entry.server.key.source !in report.incomplete))
  }

  predicate Replaced(report: Report, entry: Entry) {
    exists server :: server in report.servers && Replaces(report, server, entry)
  }

  type Book = book: map<Key, Entry> | forall key :: key in book ==> book[key].server.key == key

  function Survivors(book: Book, report: Report): Book {
    book - (set key | key in book && Replaced(report, book[key]))
  }

  /** How a pass counts one server's misses. */
  function Counted(entry: Entry, report: Report): Entry {
    if entry.server.key in Keys(report.servers) then entry.(misses := 0)
    else if entry.server.key.source in report.incomplete then entry
    else entry.(misses := if entry.server.key.source.Managed? then 2 else entry.misses + 1)
  }

  ghost predicate AllCounted(before: Book, report: Report, after: Book) {
    after.Keys == before.Keys && forall key :: key in after ==> after[key] == Counted(before[key], report)
  }

  predicate Taken(book: Book, endpoint: Endpoint) {
    exists key :: key in book && book[key].server.endpoint == endpoint
  }

  function With(book: Book, entry: Entry): Book {
    book[entry.server.key := entry]
  }

  function Admit(book: Book, server: Server, report: Report): Book {
    if server.key in book || Taken(book, server.endpoint) || server.key !in report.connections then book
    else With(book, Entry(server, report.connections[server.key], 0))
  }

  function AdmitAll(book: Book, servers: seq<Server>, report: Report): Book {
    if servers == [] then book else Admit(AdmitAll(book, servers[..|servers| - 1], report), servers[|servers| - 1], report)
  }

  lemma AdmitStep(book: Book, servers: seq<Server>, report: Report, i: nat)
    requires i < |servers|
    ensures AdmitAll(book, servers[..i + 1], report) == Admit(AdmitAll(book, servers[..i], report), servers[i], report)
  {
    assert servers[..i + 1][..i] == servers[..i];
  }

  lemma AdmitEnds(book: Book, servers: seq<Server>, report: Report)
    ensures AdmitAll(book, servers[..|servers|], report) == AdmitAll(book, servers, report)
  {
    assert servers[..|servers|] == servers;
  }

  function Gone(book: Book): set<Key> {
    set key | key in book && book[key].misses >= 2
  }

  /** The outcome of a completed pass. */
  ghost predicate Pass(before: Book, report: Report, after: Book) {
    exists counted: Book :: PassVia(before, report, counted, after)
  }

  ghost predicate PassVia(before: Book, report: Report, counted: Book, after: Book) {
    && AllCounted(Survivors(before, report), report, counted)
    && after == AdmitAll(counted, report.servers, report) - Gone(AdmitAll(counted, report.servers, report))
  }

  // ---------- tasks and entries ----------

  type Tasks = map<Key, Task>

  /** The same servers run, and they have heard nothing new. */
  ghost predicate Similar(before: Tasks, after: Tasks) {
    after.Keys == before.Keys &&
    forall key :: key in after ==> after[key].server == before[key].server && after[key].heard == before[key].heard
  }

  /** The entries name the running tasks. */
  ghost predicate Agree(book: Book, tasks: Tasks) {
    book.Keys == tasks.Keys && forall key :: key in book ==> tasks[key].server == book[key].server
  }

  /** Every task has heard of the last completed scan, or was started after it. */
  ghost predicate UpToDate(tasks: Tasks, completed: nat) {
    forall key :: key in tasks ==> tasks[key].heard.generation == completed
  }

  lemma SimilarKeeps(book: Book, before: Tasks, after: Tasks, completed: nat)
    requires Similar(before, after)
    ensures Agree(book, before) ==> Agree(book, after)
    ensures UpToDate(before, completed) ==> UpToDate(after, completed)
  {
  }

  lemma MayRemove(book: Book, tasks: Tasks, completed: nat, key: Key)
    requires Agree(book, tasks) && key in book
    ensures Allowed(World(tasks, completed), Removed(book[key].server))
    ensures var after := Step(World(tasks, completed), Removed(book[key].server)).open;
      && Agree(book - {key}, after) && (UpToDate(tasks, completed) ==> UpToDate(after, completed))
  {
  }

  lemma MayAdmit(book: Book, tasks: Tasks, completed: nat, server: Server, entry: Entry)
    requires Agree(book, tasks) && server.key !in book && !Taken(book, server.endpoint) && entry.server == server
    ensures Allowed(World(tasks, completed), Found(server))
    ensures var after := Step(World(tasks, completed), Found(server)).open;
      && Agree(With(book, entry), after) && (UpToDate(tasks, completed) ==> UpToDate(after, completed))
  {
  }

  /** What `run_server` does next. While it starts either the client cannot be set up or
      the first connection is tried; a connected task speaks or loses the connection and
      records what it has heard; then it says so; then it waits for a newer scan that found
      its server. */
  function TaskEvent(task: Task, choice: nat): Option<Event> {
    match task.phase
    case Starting => Some(if choice < 2 then Said(task.server, choice == 1) else Attempt(task.server.key))
    case Connected => Some(if choice < 2 then Said(task.server, choice == 1) else Dropped(task.server.key, task.heard.generation))
    case Dropping(_) => Some(Lost(task.server))
    case Waiting(recorded) =>
      if task.heard.named && task.heard.generation > recorded then Some(Attempt(task.server.key)) else None
  }

  lemma TaskEventAllowed(world: World, key: Key, choice: nat)
    requires Sane(world) && key in world.open && TaskEvent(world.open[key], choice).Some?
    ensures var event := TaskEvent(world.open[key], choice).value;
      && Allowed(world, event) && !event.Completed?
      && var after := Step(world, event);
         && Similar(world.open, after.open)
         && forall k :: k in after.open && k != key ==> after.open[k] == world.open[k]
  {
  }

  predicate EndsWith(log: seq<Event>, event: Event) {
    log != [] && log[|log| - 1] == event
  }

  predicate OfTask(event: Event, server: Server) {
    match event
    case Said(s, _) => s == server
    case Lost(s) => s == server
    case Attempt(key) => key == server.key
    case Dropped(key, _) => key == server.key
    case _ => false
  }

  /** The steps of the tasks are exactly the task events that a legal log allows. */
  lemma TasksDoWhatIsAllowed(world: World, key: Key, event: Event)
    requires Sane(world) && key in world.open && OfTask(event, world.open[key].server)
    ensures Allowed(world, event) <==> exists choice: nat :: TaskEvent(world.open[key], choice) == Some(event)
  {
    var task := world.open[key];
    if Allowed(world, event) {
      assert TaskEvent(task, if !event.Said? then 2 else if event.projection then 1 else 0) == Some(event);
    }
  }

  /** `event` was emitted after `before`. */
  ghost predicate Emitted(before: seq<Event>, after: seq<Event>, event: Event) {
    exists i :: |before| <= i < |after| && after[i] == event
  }

  /** The servers at `keys` are taken out, and announced as removed since `start`. */
  ghost predicate TakenOut(before: Book, keys: set<Key>, after: Book, start: seq<Event>, log: seq<Event>) {
    && after == before - keys && start <= log
    && forall key :: key in keys && key in before ==> Emitted(start, log, Removed(before[key].server))
  }

  lemma TakenOutOneMore(book: Book, keys: set<Key>, key: Key, before: Book, after: Book, start: seq<Event>,
                        mid: seq<Event>, log: seq<Event>)
    requires TakenOut(book, keys, before, start, mid) && key in before && after == before - {key}
    requires mid <= log && |mid| < |log| && EndsWith(log, Removed(before[key].server))
    ensures TakenOut(book, keys + {key}, after, start, log)
  {
    EmittedLast(start, mid, log, Removed(before[key].server));
  }

  lemma EmittedLast(start: seq<Event>, before: seq<Event>, after: seq<Event>, event: Event)
    requires start <= before <= after && EndsWith(after, event) && |before| < |after|
    ensures Emitted(start, after, event)
    ensures forall other :: Emitted(start, before, other) ==> Emitted(start, after, other)
  {
    assert after[|after| - 1] == event;
    EmittedLonger(start, start, before, after);
  }

  lemma EmittedLonger(start: seq<Event>, later: seq<Event>, before: seq<Event>, after: seq<Event>)
    requires start <= later && before <= after
    ensures forall other :: Emitted(later, before, other) ==> Emitted(start, after, other)
  {
    forall other | Emitted(later, before, other) ensures Emitted(start, after, other) {
      var i :| |later| <= i < |before| && before[i] == other;
      assert after[i] == other;
    }
  }

  /** Every server that goes, and every one whose settings changed, has its task joined and is
      announced as removed. */
  ghost predicate StoppedAreTold(before: Book, report: Report, after: Book, start: seq<Event>, log: seq<Event>) {
    forall key :: key in before && (key !in after || SettingsChanged(report, before[key])) ==>
      Emitted(start, log, Removed(before[key].server))
  }

  predicate SettingsChanged(report: Report, entry: Entry) {
    && entry.server.key in Keys(report.servers) && entry.server.key in report.connections
    && report.connections[entry.server.key] != entry.settings
  }

  lemma ChangedIsReplaced(report: Report, entry: Entry)
    requires SettingsChanged(report, entry)
    ensures Replaced(report, entry)
  {
    var server :| server in report.servers && server.key == entry.server.key;
    assert Replaces(report, server, entry);
  }

  lemma StoppedToldSince(before: Book, report: Report, after: Book, start: seq<Event>, later: seq<Event>, log: seq<Event>)
    requires start <= later && StoppedAreTold(before, report, after, later, log)
    ensures StoppedAreTold(before, report, after, start, log)
  {
    EmittedLonger(start, later, log, log);
  }

  lemma {:induction false} AdmissionKeeps(book: Book, servers: seq<Server>, report: Report)
    ensures forall key :: key in book ==> key in AdmitAll(book, servers, report) && AdmitAll(book, servers, report)[key] == book[key]
  {
    if servers != [] {
      AdmissionKeeps(book, servers[..|servers| - 1], report);
    }
  }

  lemma StoppedTold(before: Book, report: Report, counted: Book, admitted: Book, start: seq<Event>, first: seq<Event>,
                    second: seq<Event>, log: seq<Event>)
    requires start <= first <= second <= log
    requires AllCounted(Survivors(before, report), report, counted) && admitted == AdmitAll(counted, report.servers, report)
    requires forall key :: key in before && Replaced(report, before[key]) ==> Emitted(start, first, Removed(before[key].server))
    requires forall key :: key in Gone(admitted) ==> Emitted(second, log, Removed(admitted[key].server))
    ensures StoppedAreTold(before, report, admitted - Gone(admitted), start, log)
  {
    EmittedLonger(start, start, first, log);
    EmittedLonger(start, second, log, log);
    AdmissionKeeps(counted, report.servers, report);
    forall key | key in before && (key !in admitted - Gone(admitted) || SettingsChanged(report, before[key]))
      ensures Emitted(start, log, Removed(before[key].server))
    {
      if SettingsChanged(report, before[key]) {
        ChangedIsReplaced(report, before[key]);
      }
      if !Replaced(report, before[key]) {
        assert key in counted && admitted[key] == counted[key];
      }
    }
  }

  /** How many diagnostics were reported. */
  function Notices(log: seq<Event>): nat {
    if log == [] then 0 else Notices(log[..|log| - 1]) + if log[|log| - 1].Notice? then 1 else 0
  }

  lemma {:induction false} NoticesGrow(before: seq<Event>, after: seq<Event>)
    requires before <= after
    ensures Notices(before) <= Notices(after)
    decreases |after|
  {
    if before == after {
    } else {
      NoticesGrow(before, after[..|after| - 1]);
    }
  }

  lemma NoticeAdded(before: seq<Event>, later: seq<Event>)
    requires before <= later
    ensures Notices(before) + 1 <= Notices(later + [Notice])
  {
    NoticesGrow(before, later);
    assert (later + [Notice])[..|later|] == later;
  }

  // ---------- the running system ----------

  class Supervisor {
    var active: Book
    var tasks: Tasks
    var log: seq<Event>
    var completed: nat
    /** Shut down, or nobody listens any more: no send succeeds. */
    var stopped: bool

    /** The log can occur, and the tasks are where it puts them. */
    ghost predicate Sound()
      reads this
    {
      Legal(log) && Replay(log) == World(tasks, completed)
    }

    /** Between two scans, or before the end of one. */
    ghost predicate Running()
      reads this
    {
      Sound() && Agree(active, tasks) && UpToDate(tasks, completed)
    }

    constructor ()
      ensures Running() && log == [] && active == map[] && !stopped
    {
      active, tasks, log, completed, stopped := map[], map[], [], 0, false;
    }

    /** `EventSink::send`. */
    method Send(event: Event) returns (sent: bool)
      requires Sound() && (!stopped ==> Allowed(World(tasks, completed), event))
      requires !event.Completed?
      modifies this`log, this`tasks
      ensures Sound()
      ensures if sent then !stopped && log == old(log) + [event] && tasks == Step(old(World(tasks, completed)), event).open
              else stopped && log == old(log) && tasks == old(tasks)
    {
      if stopped {
        return false;
      }
      ReplayAppend(log, event);
      log := log + [event];
      tasks := Step(World(tasks, completed), event).open;
      return true;
    }

    /** One step of one task: it says something, loses its connection, or tries again. */
    method TaskStep(key: Key, choice: nat)
      requires Sound() && key in tasks
      modifies this`log, this`tasks
      ensures Sound() && Similar(old(tasks), tasks) && old(log) <= log
      ensures log == if stopped || TaskEvent(old(tasks)[key], choice).None? then old(log)
                     else old(log) + [TaskEvent(old(tasks)[key], choice).value]
      ensures forall k :: k in tasks && k != key ==> tasks[k] == old(tasks)[k]
    {
      LegalIsSane(log);
      var event := TaskEvent(tasks[key], choice);
      if event.Some? {
        TaskEventAllowed(World(tasks, completed), key, choice);
        var sent := Send(event.value);
      }
    }

    /** Whatever the tasks outside `joined` do while the supervisor waits; the monitor may
        also be shut down meanwhile. */
    method Interfere(joined: set<Key>)
      requires Sound()
      modifies this`log, this`tasks, this`stopped
      ensures Sound() && Similar(old(tasks), tasks) && old(log) <= log
      ensures old(stopped) ==> stopped && log == old(log)
      ensures forall key :: key in tasks && key in joined ==> tasks[key] == old(tasks)[key]
    {
      var schedule: seq<(Key, nat)> := *;
      var shutdown: bool := *;
      for i := 0 to |schedule|
        invariant Sound() && Similar(old(tasks), tasks) && old(log) <= log && stopped == old(stopped)
        invariant stopped ==> log == old(log)
        invariant forall key :: key in tasks && key in joined ==> tasks[key] == old(tasks)[key]
      {
        var (key, choice) := schedule[i];
        if key in tasks && key !in joined {
          TaskStep(key, choice);
        }
      }
      stopped := stopped || shutdown;
    }

    /** Takes one server out: its task is cancelled and joined before the sink hears of it. */
    method RemoveServer(key: Key) returns (ok: bool)
      requires Running() && key in active
      modifies this`active, this`log, this`tasks, this`stopped
      ensures Sound() && old(log) <= log
      ensures active == old(active) - {key}
      ensures if ok then Running() && EndsWith(log, Removed(old(active)[key].server)) && |old(log)| < |log| else stopped
    {
      var server := active[key].server;
      active := active - {key};
      Interfere({});
      SimilarKeeps(old(active), old(tasks), tasks, completed);
      ghost var cancelled := tasks;
      Interfere({key});
      SimilarKeeps(old(active), cancelled, tasks, completed);
      MayRemove(old(active), tasks, completed, key);
      ok := Send(Removed(server));
    }

    method RemoveServers(keys: set<Key>) returns (ok: bool)
      requires Running() && keys <= active.Keys
      modifies this`active, this`log, this`tasks, this`stopped
      ensures Sound() && old(log) <= log
      ensures if ok then Running() && active == old(active) - keys else stopped
      ensures ok ==> forall key :: key in keys ==> Emitted(old(log), log, Removed(old(active)[key].server))
    {
      var rest := keys;
      while rest != {}
        invariant rest <= keys && Running() && TakenOut(old(active), keys - rest, active, old(log), log)
        decreases rest
      {
        var key :| key in rest;
        ghost var before, mid, out := active, log, keys - rest;
        ok := RemoveServer(key);
        if !ok {
          return;
        }
        TakenOutOneMore(old(active), out, key, before, active, old(log), mid, log);
        rest := rest - {key};
        assert keys - rest == out + {key};
      }
      assert keys - rest == keys;
      return true;
    }

    /** The servers that the scan found have no misses; the others have one more, unless
        their backend failed. A managed server that is gone goes at once. */
    method CountMisses(report: Report)
      requires Running()
      modifies this`active
      ensures Running() && AllCounted(old(active), report, active)
    {
      var rest := active.Keys;
      while rest != {}
        invariant rest <= active.Keys == old(active).Keys
        invariant forall key :: key in active ==>
          active[key] == if key in rest then old(active)[key] else Counted(old(active)[key], report)
        decreases rest
      {
        var key :| key in rest;
        var entry := CountMiss(active[key], report);
        active := active[key := entry];
        rest := rest - {key};
      }
    }

    static method CountMiss(entry: Entry, report: Report) returns (counted: Entry)
      ensures counted == Counted(entry, report)
    {
      counted := entry;
      var key := entry.server.key;
      if key in Keys(report.servers) {
        counted := entry.(misses := 0);
      } else if key.source !in report.incomplete {
        if key.source.Managed? {
          counted := entry.(misses := 2);
        } else {
          counted := entry.(misses := entry.misses + 1);
        }
      }
    }

    method AdmitServer(server: Server, report: Report) returns (ok: bool)
      requires Running()
      modifies this`active, this`log, this`tasks, this`stopped
      ensures Sound() && old(log) <= log
      ensures if ok then Running() && active == Admit(old(active), server, report) else stopped
      ensures ok && server.key !in old(active) && server.key in active ==> EndsWith(log, Found(server))
    {
      if server.key in active || Taken(active, server.endpoint) {
        return true;
      }
      Interfere({});
      SimilarKeeps(active, old(tasks), tasks, completed);
      if server.key !in report.connections {
        ok := Send(Notice);
        return;
      }
      ok := Enter(Entry(server, report.connections[server.key], 0));
    }

    /** Announces a server and starts its task. */
    method Enter(entry: Entry) returns (ok: bool)
      requires Running() && entry.server.key !in active && !Taken(active, entry.server.endpoint)
      modifies this`active, this`log, this`tasks
      ensures Sound() && old(log) <= log
      ensures if ok then Running() && active == With(old(active), entry) && EndsWith(log, Found(entry.server)) else stopped
    {
      MayAdmit(active, tasks, completed, entry.server, entry);
      ok := Send(Found(entry.server));
      if ok {
        active := With(active, entry);
      }
    }

    method AdmitServers(report: Report) returns (ok: bool)
      requires Running()
      modifies this`active, this`log, this`tasks, this`stopped
      ensures Sound() && old(log) <= log
      ensures if ok then Running() && active == AdmitAll(old(active), report.servers, report) else stopped
    {
      for i := 0 to |report.servers|
        invariant Running() && old(log) <= log
        invariant active == AdmitAll(old(active), report.servers[..i], report)
      {
        AdmitStep(old(active), report.servers, report, i);
        ok := AdmitServer(report.servers[i], report);
        if !ok {
          return;
        }
      }
      AdmitEnds(old(active), report.servers, report);
      return true;
    }

    /** `publish_discovery_completion`. It sends nothing, so a shutdown does not stop it. */
    method Publish(found: set<Key>, generation: nat)
      requires Running() && completed < generation
      modifies this`log, this`tasks, this`completed, this`stopped
      ensures Running() && old(log) <= log && completed == generation
      ensures Told(tasks, generation, found)
    {
      var rest := active.Keys;
      while rest != {}
        invariant rest <= active.Keys
        invariant Sound() && old(log) <= log && completed == old(completed)
        invariant Agree(active, tasks) && Telling(tasks, rest, completed, generation, found)
        decreases rest
      {
        var key :| key in rest;
        TellOne(key, rest, generation, found);
        rest := rest - {key};
      }
      Complete(generation, found);
    }

    method TellOne(key: Key, ghost rest: set<Key>, generation: nat, found: set<Key>)
      requires Sound() && Agree(active, tasks) && completed < generation
      requires key in rest && key in active && Telling(tasks, rest, completed, generation, found)
      modifies this`log, this`tasks, this`stopped
      ensures Sound() && old(log) <= log
      ensures Agree(active, tasks) && Telling(tasks, rest - {key}, completed, generation, found)
    {
      Tell(key, generation, found);
      ghost var told := tasks;
      Interfere({});
      SimilarTelling(told, tasks, active, rest - {key}, completed, generation, found);
    }

    method Complete(generation: nat, ghost found: set<Key>)
      requires Sound() && Agree(active, tasks) && completed < generation && Told(tasks, generation, found)
      modifies this`log, this`completed
      ensures Running() && old(log) <= log && completed == generation
    {
      ReplayAppend(log, Completed(generation));
      log := log + [Completed(generation)];
      completed := generation;
    }

    /** `send_replace` on the channel of one server. */
    method Tell(key: Key, generation: nat, found: set<Key>)
      requires Sound() && key in tasks && completed < generation && tasks[key].heard.generation <= generation
      modifies this`log, this`tasks
      ensures Sound() && log == old(log) + [Published(key, generation, found)]
      ensures tasks == old(tasks)[key := old(tasks)[key].(heard := Completion(generation, key in found))]
    {
      ReplayAppend(log, Published(key, generation, found));
      log := log + [Published(key, generation, found)];
      tasks := tasks[key := tasks[key].(heard := Completion(generation, key in found))];
    }

    method SendNotices(n: nat) returns (ok: bool)
      requires Running()
      modifies this`log, this`tasks, this`stopped
      ensures Sound() && old(log) <= log
      ensures if ok then Running() && Notices(old(log)) + n <= Notices(log) else stopped
    {
      for i := 0 to n
        invariant Running() && old(log) <= log && Notices(old(log)) + i <= Notices(log)
      {
        ok := SendNotice();
        if !ok {
          return;
        }
      }
      return true;
    }

    method SendNotice() returns (ok: bool)
      requires Running()
      modifies this`log, this`tasks, this`stopped
      ensures Sound() && old(log) <= log
      ensures if ok then Running() && Notices(old(log)) + 1 <= Notices(log) else stopped
    {
      Interfere({});
      SimilarKeeps(active, old(tasks), tasks, completed);
      NoticeAdded(old(log), log);
      ok := Send(Notice);
    }

    /** `discover_once`: `result` is what the scan delivers, nothing if it fails. */
    method DiscoverOnce(result: Option<Report>, generation: nat) returns (ok: bool)
      requires Running() && completed < generation
      modifies this
      ensures Sound() && old(log) <= log
      ensures !ok ==> stopped
      ensures ok ==> Running()
      ensures ok && result.None? ==> active == old(active) && completed == old(completed)
      ensures ok && result.Some? ==>
        && Pass(old(active), result.value, active) && completed == generation
        && Told(tasks, generation, Keys(result.value.servers))
        && StoppedAreTold(old(active), result.value, active, old(log), log)
      ensures ok ==> Notices(old(log)) + (if result.None? then 1 else result.value.notices) <= Notices(log)
    {
      Interfere({});
      SimilarKeeps(active, old(tasks), tasks, completed);
      if stopped {
        return false;
      }
      NoticesGrow(old(log), log);
      if result.None? {
        ok := SendNotices(1);
        return;
      }
      var report := result.value;
      ok := SendNotices(report.notices);
      if !ok {
        return;
      }
      ghost var before := log;
      ok := Settle(report);
      if !ok || stopped {
        return false;
      }
      StoppedToldSince(old(active), report, active, old(log), before, log);
      Publish(Keys(report.servers), generation);
      NoticesGrow(before, log);
      return true;
    }

    /** The part of a scan that changes the entries. */
    method Settle(report: Report) returns (ok: bool)
      requires Running()
      modifies this`active, this`log, this`tasks, this`stopped
      ensures Sound() && old(log) <= log
      ensures if ok then Running() && Pass(old(active), report, active) else stopped
      ensures ok ==> StoppedAreTold(old(active), report, active, old(log), log)
    {
      ok := RemoveServers(set key | key in active && Replaced(report, active[key]));
      if !ok {
        return;
      }
      ghost var first := log;
      CountMisses(report);
      ghost var counted := active;
      ok := AdmitServers(report);
      if !ok {
        return;
      }
      ghost var admitted, second := active, log;
      ok := RemoveServers(Gone(active));
      assert ok ==> PassVia(old(active), report, counted, active);
      if ok {
        StoppedTold(old(active), report, counted, admitted, old(log), first, second, log);
      }
    }

    ghost function Now(): Snapshot
      reads this
    {
      Snapshot(active, log, completed)
    }

    /** `run_discovery_with`, with the scans that its triggers start: whatever they find and
        whatever the tasks do meanwhile, the log is a legal one, and every scan is made and
        followed unless the monitor stops. `states` are the states between the scans. */
    method Run(scans: seq<Option<Report>>) returns (ghost states: seq<Snapshot>)
      requires Running()
      modifies this
      ensures Sound() && old(log) <= log && active == map[]
      ensures 0 < |states| && states[0] == old(Now()) && AllFollowed(states, scans) && states[|states| - 1].log <= log
      ensures |states| == |scans| + 1 || stopped
    {
      states := TakeScans(scans);
      active := map[];
      Interfere({});
    }

    method TakeScans(scans: seq<Option<Report>>) returns (ghost states: seq<Snapshot>)
      requires Running()
      modifies this
      ensures Sound() && old(log) <= log
      ensures 0 < |states| && states[0] == old(Now()) && AllFollowed(states, scans) && states[|states| - 1].log <= log
      ensures |states| == |scans| + 1 || stopped
    {
      var generation := completed;
      states := [Now()];
      for i := 0 to |scans|
        invariant Running() && old(log) <= log && completed <= generation
        invariant |states| == i + 1 && states[0] == old(Now()) && states[i] == Now() && AllFollowed(states, scans)
      {
        generation := generation + 1;
        var ok := TakeScan(scans[i], generation);
        if !ok {
          return;
        }
        FollowedOneMore(states, scans, Now());
        states := states + [Now()];
      }
    }

    /** The tasks run until the next scan, and then the scan is made. */
    method TakeScan(scan: Option<Report>, generation: nat) returns (ok: bool)
      requires Running() && completed < generation
      modifies this
      ensures Sound() && old(log) <= log
      ensures if ok then Running() && completed <= generation && Followed(old(Now()), scan, Now()) else stopped
    {
      Interfere({});
      SimilarKeeps(active, old(tasks), tasks, completed);
      ghost var later := log;
      ok := DiscoverOnce(scan, generation);
      NoticesGrow(old(log), later);
      if ok && scan.Some? {
        StoppedToldSince(old(active), scan.value, active, old(log), later, log);
      }
    }
  }

  /** What can be seen of the supervisor between two scans. */
  datatype Snapshot = Snapshot(active: Book, log: seq<Event>, completed: nat)

  ghost predicate AllFollowed(states: seq<Snapshot>, scans: seq<Option<Report>>) {
    |states| <= |scans| + 1 && forall k :: 0 <= k < |states| - 1 ==> Followed(states[k], scans[k], states[k + 1])
  }

  lemma FollowedOneMore(states: seq<Snapshot>, scans: seq<Option<Report>>, next: Snapshot)
    requires 0 < |states| <= |scans| && AllFollowed(states, scans)
    requires Followed(states[|states| - 1], scans[|states| - 1], next)
    ensures AllFollowed(states + [next], scans)
  {
    var after := states + [next];
    forall k | 0 <= k < |after| - 1 ensures Followed(after[k], scans[k], after[k + 1]) {
    }
  }

  /** A scan that failed is reported and changes nothing; any other decides who stays, and
      whoever goes is announced, like every diagnostic. */
  ghost predicate Followed(before: Snapshot, scan: Option<Report>, after: Snapshot) {
    before.log <= after.log && Notices(before.log) + (if scan.None? then 1 else scan.value.notices) <= Notices(after.log) &&
    match scan
    case None => after.active == before.active && after.completed == before.completed
    case Some(report) =>
      && Pass(before.active, report, after.active) && before.completed < after.completed
      && StoppedAreTold(before.active, report, after.active, before.log, after.log)
  }

  /** Every task was told of the scan, and whether it found the task's server. */
  ghost predicate Told(tasks: Tasks, generation: nat, found: set<Key>) {
    forall key :: key in tasks ==> tasks[key].heard == Completion(generation, key in found)
  }

  ghost predicate Telling(tasks: Tasks, rest: set<Key>, completed: nat, generation: nat, found: set<Key>) {
    forall key :: key in tasks ==>
      if key in rest then tasks[key].heard.generation == completed else tasks[key].heard == Completion(generation, key in found)
  }

  lemma SimilarTelling(before: Tasks, after: Tasks, book: Book, rest: set<Key>, completed: nat, generation: nat, found: set<Key>)
    requires Similar(before, after) && Agree(book, before) && Telling(before, rest, completed, generation, found)
    ensures Agree(book, after) && Telling(after, rest, completed, generation, found)
  {
  }
}
