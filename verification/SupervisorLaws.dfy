/** What the passes of the supervisor guarantee, whatever state they start from. */
module SupervisorLaws {
  import opened Wrappers
  import opened Lifecycle
  import opened Supervisor

  /** Keys and endpoints are unique in a report, and every server has its settings. */
  ghost predicate WellFormed(report: Report) {
    && (forall i, j :: 0 <= i < j < |report.servers| ==>
          report.servers[i].key != report.servers[j].key && report.servers[i].endpoint != report.servers[j].endpoint)
    && Keys(report.servers) <= report.connections.Keys
  }

  predicate Complete(report: Report) {
    report.incomplete == {}
  }

  // ---------- admission ----------

  predicate Extends(before: Book, after: Book) {
    before.Keys <= after.Keys && forall key :: key in before ==> after[key] == before[key]
  }

  predicate Admitted(servers: seq<Server>, report: Report, entry: Entry) {
    && entry.server in servers && entry.misses == 0
    && entry.server.key in report.connections && entry.settings == report.connections[entry.server.key]
  }

  /** Admission keeps all entries and adds only listed servers with their settings. */
  lemma {:induction false} AdmitAllMeaning(book: Book, servers: seq<Server>, report: Report)
    ensures Extends(book, AdmitAll(book, servers, report))
    ensures forall key :: key in AdmitAll(book, servers, report) && key !in book ==>
              Admitted(servers, report, AdmitAll(book, servers, report)[key])
  {
    if servers != [] {
      var init := servers[..|servers| - 1];
      AdmitAllMeaning(book, init, report);
      assert forall server :: server in init ==> server in servers;
      assert servers[|servers| - 1] in servers;
    }
  }

  /** No entry outside the listed servers holds an endpoint that one of them needs. */
  ghost predicate Clear(book: Book, servers: seq<Server>) {
    forall key, server :: key in book && server in servers && book[key].server.endpoint == server.endpoint ==> key == server.key
  }

  lemma {:induction false} EveryoneEnters(book: Book, servers: seq<Server>, report: Report)
    requires Clear(book, servers) && Keys(servers) <= report.connections.Keys
    requires forall i, j :: 0 <= i < j < |servers| ==>
      servers[i].key != servers[j].key && servers[i].endpoint != servers[j].endpoint
    ensures Keys(servers) <= AdmitAll(book, servers, report).Keys
  {
    if servers != [] {
      var n := |servers| - 1;
      var init, last := servers[..n], servers[n];
      assert servers == init + [last];
      assert last in servers && last.key in Keys(servers);
      assert forall server :: server in servers <==> server in init || server == last;
      assert Keys(init) <= Keys(servers);
      EveryoneEnters(book, init, report);
      AdmitAllMeaning(book, init, report);
      NotTaken(book, init, last, report);
    }
  }

  lemma NotTaken(book: Book, init: seq<Server>, last: Server, report: Report)
    requires forall key :: key in book && book[key].server.endpoint == last.endpoint ==> key == last.key
    requires forall server :: server in init ==> server.endpoint != last.endpoint
    ensures Taken(AdmitAll(book, init, report), last.endpoint) ==> last.key in AdmitAll(book, init, report)
  {
    AdmitAllMeaning(book, init, report);
    var after := AdmitAll(book, init, report);
    forall key | key in after && after[key].server.endpoint == last.endpoint ensures key == last.key {
      assert key !in book ==> Admitted(init, report, after[key]);
    }
  }

  // ---------- convergence ----------

  /** After a complete pass every server found is active with the settings found, and each
      other active server was active before, with one miss less. */
  lemma CompletePass(before: Book, report: Report, after: Book)
    requires WellFormed(report) && Complete(report) && Pass(before, report, after)
    ensures forall key :: key in Keys(report.servers) ==>
              key in after && after[key].misses == 0 && after[key].settings == report.connections[key]
    ensures forall key :: key in after && key !in Keys(report.servers) ==>
              key in before && after[key].misses == before[key].misses + 1 && after[key].misses < 2
  {
    var counted :| PassVia(before, report, counted, after);
    CountedBook(before, report, counted);
    EveryoneEnters(counted, report.servers, report);
    AdmitAllMeaning(counted, report.servers, report);
    var all := AdmitAll(counted, report.servers, report);
    Entered(counted, report, all);
    Swept(before, report, counted, all, after);
  }

  lemma Swept(before: Book, report: Report, counted: Book, all: Book, after: Book)
    requires after == all - Gone(all) && Keys(report.servers) <= all.Keys && Keys(report.servers) <= report.connections.Keys
    requires forall key :: key in all && key in Keys(report.servers) ==>
      all[key].misses == 0 && all[key].settings == report.connections[key]
    requires forall key :: key in all && key !in Keys(report.servers) ==> key in counted && all[key] == counted[key]
    requires forall key :: key in counted && key !in Keys(report.servers) ==>
      key in before && (counted[key].misses == before[key].misses + 1 || counted[key].misses >= 2)
    ensures forall key :: key in Keys(report.servers) ==>
              key in after && after[key].misses == 0 && after[key].settings == report.connections[key]
    ensures forall key :: key in after && key !in Keys(report.servers) ==>
              key in before && after[key].misses == before[key].misses + 1 && after[key].misses < 2
  {
  }

  lemma Entered(counted: Book, report: Report, all: Book)
    requires Extends(counted, all)
    requires forall key :: key in all && key !in counted ==> Admitted(report.servers, report, all[key])
    requires Keys(report.servers) <= report.connections.Keys
    requires forall key :: key in counted && key in Keys(report.servers) ==>
      counted[key].misses == 0 && counted[key].settings == report.connections[key]
    ensures forall key :: key in all && key in Keys(report.servers) ==>
              all[key].misses == 0 && all[key].settings == report.connections[key]
    ensures forall key :: key in all && key !in Keys(report.servers) ==> key in counted && all[key] == counted[key]
  {
  }

  lemma CountedBook(before: Book, report: Report, counted: Book)
    requires Complete(report) && WellFormed(report) && AllCounted(Survivors(before, report), report, counted)
    ensures Clear(counted, report.servers)
    ensures forall key :: key in counted && key in Keys(report.servers) ==>
              counted[key].misses == 0 && counted[key].settings == report.connections[key]
    ensures forall key :: key in counted && key !in Keys(report.servers) ==>
              key in before && (counted[key].misses == before[key].misses + 1 || counted[key].misses >= 2)
  {
  }

  ghost predicate SameServers(left: Report, right: Report) {
    && Keys(left.servers) == Keys(right.servers)
    && forall key :: key in Keys(left.servers) && key in left.connections && key in right.connections ==>
         left.connections[key] == right.connections[key]
  }

  /** From any state, two complete scans in a row that find the same servers leave exactly
      those servers active, with the settings found and no misses. */
  lemma TwoScansConverge(before: Book, first: Report, middle: Book, second: Report, after: Book)
    requires WellFormed(first) && WellFormed(second) && Complete(first) && Complete(second) && SameServers(first, second)
    requires Pass(before, first, middle) && Pass(middle, second, after)
    ensures after.Keys == Keys(second.servers)
    ensures forall key :: key in after ==> after[key].settings == second.connections[key] && after[key].misses == 0
  {
    CompletePass(before, first, middle);
    CompletePass(middle, second, after);
  }

  /** From scan `n` on, every scan fails or finds the same servers as `report`. */
  ghost predicate Steady(scans: seq<Option<Report>>, n: nat, end: nat, report: Report) {
    forall k :: n <= k < end && k < |scans| && scans[k].Some? ==>
      WellFormed(scans[k].value) && Complete(scans[k].value) && Keys(scans[k].value.servers) == Keys(report.servers)
  }

  /** How many of these scans did not fail. */
  function Successes(scans: seq<Option<Report>>, n: nat, end: nat): nat
    requires n <= end <= |scans|
  {
    if end == n then 0 else Successes(scans, n, end - 1) + if scans[end - 1].Some? then 1 else 0
  }

  /** How far a book has come: after one scan the servers found are there and no other one is
      unmissed, after two there is no other one. */
  ghost predicate Nears(book: Book, report: Report, successes: nat) {
    && (successes >= 1 ==> Keys(report.servers) <= book.Keys
                           && forall key :: key in book && key !in Keys(report.servers) ==> book[key].misses > 0)
    && (successes >= 2 ==> book.Keys == Keys(report.servers))
  }

  /** Over a run of the supervisor, whatever it started with: while the scans find the same
      servers, exactly those are active as soon as two scans have succeeded, and they stay so;
      scans that fail in between do no harm. */
  lemma {:induction false} RunConverges(states: seq<Snapshot>, scans: seq<Option<Report>>, report: Report, n: nat, end: nat)
    requires AllFollowed(states, scans) && n <= end < |states| && Steady(scans, n, end, report)
    ensures Nears(states[end].active, report, Successes(scans, n, end))
    decreases end
  {
    if n < end {
      RunConverges(states, scans, report, n, end - 1);
      assert Followed(states[end - 1], scans[end - 1], states[end]);
      if scans[end - 1].Some? {
        PassNears(states[end - 1].active, scans[end - 1].value, states[end].active, report, Successes(scans, n, end - 1));
      }
    }
  }

  lemma PassNears(before: Book, scan: Report, after: Book, report: Report, successes: nat)
    requires WellFormed(scan) && Complete(scan) && Pass(before, scan, after) && Keys(scan.servers) == Keys(report.servers)
    requires Nears(before, report, successes)
    ensures Nears(after, report, successes + 1)
  {
    CompletePass(before, scan, after);
  }

  // ---------- isolation ----------

  predicate ManagedTakes(report: Report, endpoint: Endpoint) {
    exists server :: server in report.servers && server.key.source.Managed? && server.endpoint == endpoint
  }

  /** While its backend cannot be scanned, a server that no other scan finds keeps its entry,
      misses included; it goes if and only if a managed server takes its endpoint. */
  lemma IncompleteBackendIsolated(before: Book, report: Report, after: Book, key: Key)
    requires Pass(before, report, after) && key in before && before[key].misses < 2
    requires key.source in report.incomplete && key !in Keys(report.servers)
    ensures key in after <==> !ManagedTakes(report, before[key].server.endpoint)
    ensures key in after ==> after[key] == before[key]
  {
    var counted :| PassVia(before, report, counted, after);
    AdmitAllMeaning(counted, report.servers, report);
    var all := AdmitAll(counted, report.servers, report);
    assert key in all && key !in counted ==> Admitted(report.servers, report, all[key]);
    assert forall server :: server in report.servers ==> server.key in Keys(report.servers);
    if ManagedTakes(report, before[key].server.endpoint) {
      var server :| server in report.servers && server.key.source.Managed? && server.endpoint == before[key].server.endpoint;
      assert Replaces(report, server, before[key]);
    } else {
      assert !Replaced(report, before[key]);
    }
  }

  /** A server whose backend was scanned and did not find it: a procfs server keeps its entry
      with one miss more until it has missed two scans, a managed one goes at once. */
  lemma MissedOnce(before: Book, report: Report, after: Book, key: Key)
    requires Pass(before, report, after) && key in before
    requires key !in Keys(report.servers) && key.source !in report.incomplete
    requires forall server :: server in report.servers ==> server.endpoint != before[key].server.endpoint
    ensures key in after <==> key.source == Procfs && before[key].misses == 0
    ensures key in after ==> after[key] == Entry(before[key].server, before[key].settings, 1)
  {
    var counted :| PassVia(before, report, counted, after);
    NotReplaced(before, report, key);
    AdmitAllMeaning(counted, report.servers, report);
    assert key in counted;
  }

  lemma NotReplaced(before: Book, report: Report, key: Key)
    requires key in before && key !in Keys(report.servers)
    requires forall server :: server in report.servers ==> server.endpoint != before[key].server.endpoint
    ensures !Replaced(report, before[key])
  {
    assert forall server :: server in report.servers ==> server.key in Keys(report.servers);
  }

  /** So a procfs server goes exactly at the second complete scan in a row that misses it. */
  lemma MissedTwice(before: Book, first: Report, middle: Book, second: Report, after: Book, key: Key)
    requires Pass(before, first, middle) && Pass(middle, second, after)
    requires key in before && key.source == Procfs && before[key].misses == 0
    requires key !in Keys(first.servers) && Procfs !in first.incomplete
    requires forall server :: server in first.servers + second.servers ==> server.endpoint != before[key].server.endpoint
    requires Procfs !in second.incomplete && key !in Keys(second.servers)
    ensures key in middle && key !in after
  {
    assert forall server :: server in first.servers + second.servers <==> server in first.servers || server in second.servers;
    MissedOnce(before, first, middle, key);
    MissedOnce(middle, second, after, key);
  }

  /** A server that was found with unchanged settings stays, unless another server took its
      endpoint; its misses are forgotten. */
  lemma FoundStays(before: Book, report: Report, after: Book, key: Key)
    requires Pass(before, report, after) && key in before && key in Keys(report.servers)
    requires key in report.connections ==> report.connections[key] == before[key].settings
    requires forall server :: server in report.servers && server.endpoint == before[key].server.endpoint ==> server.key == key
    ensures key in after && after[key] == before[key].(misses := 0)
  {
    var counted :| PassVia(before, report, counted, after);
    AdmitAllMeaning(counted, report.servers, report);
    assert !Replaced(report, before[key]);
  }
}
