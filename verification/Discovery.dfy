/** What the two discovery backends deliver: servers with unique endpoints, merged into one
    report for the supervisor. */
module Discovery {
  import opened Wrappers
  import opened Ordering
  import opened Lifecycle
  import opened Supervisor
  import opened SupervisorLaws

  function Endpoints(servers: seq<Server>): seq<Endpoint> {
    seq(|servers|, i requires 0 <= i < |servers| => servers[i].endpoint)
  }

  predicate Before(left: Server, right: Server) {
    left.endpoint < right.endpoint || (left.endpoint == right.endpoint && left.key.identity <= right.key.identity)
  }

  function InsertServer(servers: seq<Server>, server: Server): seq<Server> {
    if servers == [] || Before(server, servers[0]) then [server] + servers
    else [servers[0]] + InsertServer(servers[1..], server)
  }

  function SortServers(servers: seq<Server>): seq<Server> {
    if servers == [] then [] else InsertServer(SortServers(servers[1..]), servers[0])
  }

  predicate ByEndpoint(servers: seq<Server>) {
    forall i, j :: 0 <= i < j < |servers| ==> servers[i].endpoint <= servers[j].endpoint
  }

  lemma EndpointsConcat(left: seq<Server>, right: seq<Server>)
    ensures Endpoints(left + right) == Endpoints(left) + Endpoints(right)
  {
  }

  lemma HeadCounts(servers: seq<Server>)
    requires servers != []
    ensures multiset(servers) == multiset{servers[0]} + multiset(servers[1..])
    ensures multiset(Endpoints(servers)) == multiset{servers[0].endpoint} + multiset(Endpoints(servers[1..]))
  {
    assert servers == [servers[0]] + servers[1..];
    EndpointsConcat([servers[0]], servers[1..]);
  }

  lemma {:induction false} InsertCounts(servers: seq<Server>, server: Server)
    ensures multiset(InsertServer(servers, server)) == multiset{server} + multiset(servers)
    ensures multiset(Endpoints(InsertServer(servers, server))) == multiset{server.endpoint} + multiset(Endpoints(servers))
  {
    var after := InsertServer(servers, server);
    HeadCounts(after);
    if servers == [] || Before(server, servers[0]) {
      assert after[1..] == servers;
    } else {
      assert after[1..] == InsertServer(servers[1..], server);
      InsertCounts(servers[1..], server);
      HeadCounts(servers);
    }
  }

  lemma {:induction false} SortCounts(servers: seq<Server>)
    ensures multiset(SortServers(servers)) == multiset(servers)
    ensures multiset(Endpoints(SortServers(servers))) == multiset(Endpoints(servers))
  {
    if servers != [] {
      SortCounts(servers[1..]);
      InsertCounts(SortServers(servers[1..]), servers[0]);
      HeadCounts(servers);
    }
  }

  lemma {:induction false} InsertKeepsOrder(servers: seq<Server>, server: Server)
    requires ByEndpoint(servers)
    ensures ByEndpoint(InsertServer(servers, server))
    ensures var after := InsertServer(servers, server);
      after != [] && (after[0] == server || (servers != [] && after[0] == servers[0]))
  {
    if servers != [] && !Before(server, servers[0]) {
      InsertKeepsOrder(servers[1..], server);
      var rest := InsertServer(servers[1..], server);
      assert servers[0].endpoint <= rest[0].endpoint;
    }
  }

  lemma {:induction false} SortOrders(servers: seq<Server>)
    ensures ByEndpoint(SortServers(servers))
  {
    if servers != [] {
      SortOrders(servers[1..]);
      InsertKeepsOrder(SortServers(servers[1..]), servers[0]);
    }
  }

  /** The server at `i` shares its endpoint with no other. */
  predicate Alone(servers: seq<Server>, i: nat)
    requires i < |servers|
  {
    forall j :: 0 <= j < |servers| && servers[j].endpoint == servers[i].endpoint ==> j == i
  }

  /** Where the group of servers that starts at `start` ends. */
  method GroupEnd(servers: seq<Server>, start: nat) returns (end: nat)
    requires start < |servers|
    ensures start < end <= |servers|
    ensures forall i :: start <= i < end ==> servers[i].endpoint == servers[start].endpoint
    ensures end < |servers| ==> servers[end].endpoint != servers[start].endpoint
  {
    end := start + 1;
    while end < |servers| && servers[end].endpoint == servers[start].endpoint
      invariant start < end <= |servers|
      invariant forall i :: start <= i < end ==> servers[i].endpoint == servers[start].endpoint
    {
      end := end + 1;
    }
  }

  ghost predicate IsAlone(servers: seq<Server>, n: nat, server: Server)
    requires n <= |servers|
  {
    exists i: nat :: i < n && Alone(servers, i) && servers[i] == server
  }

  ghost predicate Kept(servers: seq<Server>, n: nat, unique: seq<Server>)
    requires n <= |servers|
  {
    && (forall i :: 0 <= i < n && Alone(servers, i) ==> servers[i] in unique)
    && (forall k :: 0 <= k < |unique| ==> IsAlone(servers, n, unique[k]))
    && (forall k, l :: 0 <= k < l < |unique| ==> unique[k].endpoint < unique[l].endpoint)
  }

  /** The endpoints that some of the first `n` servers shares. */
  function SharedBy(servers: seq<Server>, n: nat): set<Endpoint>
    requires n <= |servers|
  {
    set i | 0 <= i < n && !Alone(servers, i) :: servers[i].endpoint
  }

  /** The endpoints that more than one server has. */
  function Shared(servers: seq<Server>): set<Endpoint> {
    set server | server in servers && multiset(Endpoints(servers))[server.endpoint] > 1 :: server.endpoint
  }

  lemma CountGroup(servers: seq<Server>, start: nat, end: nat)
    requires ByEndpoint(servers) && start < end <= |servers|
    requires start > 0 ==> servers[start - 1].endpoint < servers[start].endpoint
    requires forall i :: start <= i < end ==> servers[i].endpoint == servers[start].endpoint
    requires end == start + 1 ==> Alone(servers, start)
    requires end > start + 1 ==> forall i :: start <= i < end ==> !Alone(servers, i)
    ensures |SharedBy(servers, end)| == |SharedBy(servers, start)| + if end == start + 1 then 0 else 1
  {
    NotBefore(servers, start);
    GroupShared(servers, start, end);
    OneMore(SharedBy(servers, start), SharedBy(servers, end), servers[start].endpoint, end > start + 1);
  }

  lemma NotBefore(servers: seq<Server>, start: nat)
    requires ByEndpoint(servers) && start < |servers|
    requires start > 0 ==> servers[start - 1].endpoint < servers[start].endpoint
    ensures servers[start].endpoint !in SharedBy(servers, start)
  {
    forall i | 0 <= i < start ensures servers[i].endpoint < servers[start].endpoint {
      assert i < start - 1 ==> servers[i].endpoint <= servers[start - 1].endpoint;
    }
  }

  lemma OneMore(before: set<Endpoint>, after: set<Endpoint>, place: Endpoint, more: bool)
    requires place !in before && forall p :: p in after <==> p in before || (more && p == place)
    ensures |after| == |before| + if more then 1 else 0
  {
    assert after == before + if more then {place} else {};
  }

  lemma GroupShared(servers: seq<Server>, start: nat, end: nat)
    requires start < end <= |servers|
    requires forall i :: start <= i < end ==> servers[i].endpoint == servers[start].endpoint
    requires end == start + 1 ==> Alone(servers, start)
    requires end > start + 1 ==> forall i :: start <= i < end ==> !Alone(servers, i)
    ensures forall place :: place in SharedBy(servers, end) <==>
      place in SharedBy(servers, start) || (end > start + 1 && place == servers[start].endpoint)
  {
    forall place
      ensures place in SharedBy(servers, end) <==>
              place in SharedBy(servers, start) || (end > start + 1 && place == servers[start].endpoint)
    {
      if place in SharedBy(servers, end) {
        var i :| 0 <= i < end && !Alone(servers, i) && servers[i].endpoint == place;
      }
      if place in SharedBy(servers, start) {
        var i :| 0 <= i < start && !Alone(servers, i) && servers[i].endpoint == place;
      }
      if end > start + 1 {
        assert !Alone(servers, start);
      }
    }
  }

  lemma SharedMeaning(servers: seq<Server>, sorted: seq<Server>)
    requires multiset(sorted) == multiset(servers) && multiset(Endpoints(sorted)) == multiset(Endpoints(servers))
    ensures SharedBy(sorted, |sorted|) == Shared(servers)
  {
    forall place: Endpoint ensures place in SharedBy(sorted, |sorted|) <==> place in Shared(servers) {
      if place in SharedBy(sorted, |sorted|) {
        var i :| 0 <= i < |sorted| && !Alone(sorted, i) && sorted[i].endpoint == place;
        AloneMeansOnce(sorted, i);
        assert Endpoints(sorted)[i] == place && sorted[i] in multiset(sorted);
      }
      if place in Shared(servers) {
        var server :| server in servers && multiset(Endpoints(servers))[server.endpoint] > 1 && server.endpoint == place;
        assert server in multiset(sorted);
        var i :| 0 <= i < |sorted| && sorted[i] == server;
        AloneMeansOnce(sorted, i);
      }
    }
  }

  lemma GroupIsAlone(servers: seq<Server>, start: nat, end: nat)
    requires ByEndpoint(servers) && start < end <= |servers|
    requires start > 0 ==> servers[start - 1].endpoint < servers[start].endpoint
    requires forall i :: start <= i < end ==> servers[i].endpoint == servers[start].endpoint
    requires end < |servers| ==> servers[end].endpoint != servers[start].endpoint
    ensures end == start + 1 ==> Alone(servers, start)
    ensures end > start + 1 ==> forall i :: start <= i < end ==> !Alone(servers, i)
  {
    forall j | 0 <= j < |servers| && servers[j].endpoint == servers[start].endpoint ensures start <= j < end {
    }
    if end > start + 1 {
      forall i | start <= i < end ensures !Alone(servers, i) {
        var other := if i == start then start + 1 else start;
        assert servers[other].endpoint == servers[i].endpoint;
      }
    }
  }

  lemma KeepGroup(servers: seq<Server>, start: nat, end: nat, unique: seq<Server>)
    requires ByEndpoint(servers) && start < end <= |servers| && Kept(servers, start, unique)
    requires start > 0 ==> servers[start - 1].endpoint < servers[start].endpoint
    requires end == start + 1 ==> Alone(servers, start)
    requires end > start + 1 ==> forall i :: start <= i < end ==> !Alone(servers, i)
    ensures Kept(servers, end, if end == start + 1 then unique + [servers[start]] else unique)
  {
  }

  /** `retain_unique_endpoints`: exactly the servers that share their endpoint with no other
      are kept, in the order of their endpoints. Each shared endpoint is noticed once. */
  method RetainUniqueEndpoints(servers: seq<Server>) returns (unique: seq<Server>, notices: nat)
    ensures forall server :: server in unique <==>
              server in servers && multiset(Endpoints(servers))[server.endpoint] == 1
    ensures forall k, l :: 0 <= k < l < |unique| ==> unique[k].endpoint < unique[l].endpoint
    ensures notices == |Shared(servers)|
  {
    var sorted := SortServers(servers);
    SortCounts(servers);
    SortOrders(servers);
    unique, notices := [], 0;
    var start := 0;
    while start < |sorted|
      invariant start <= |sorted| && Kept(sorted, start, unique) && notices == |SharedBy(sorted, start)|
      invariant 0 < start < |sorted| ==> sorted[start - 1].endpoint < sorted[start].endpoint
    {
      var end := GroupEnd(sorted, start);
      GroupIsAlone(sorted, start, end);
      KeepGroup(sorted, start, end, unique);
      CountGroup(sorted, start, end);
      if end == start + 1 {
        unique := unique + [sorted[start]];
      } else {
        notices := notices + 1;
      }
      start := end;
    }
    KeptMeaning(servers, sorted, unique);
    SharedMeaning(servers, sorted);
  }

  lemma AloneMeansOnce(servers: seq<Server>, i: nat)
    requires i < |servers|
    ensures Alone(servers, i) <==> multiset(Endpoints(servers))[servers[i].endpoint] == 1
  {
    var endpoints := Endpoints(servers);
    CountedOnce(endpoints, i);
    if Alone(servers, i) {
      forall j | 0 <= j < |endpoints| && endpoints[j] == endpoints[i] ensures j == i {
        assert servers[j].endpoint == servers[i].endpoint;
      }
    } else {
      var j :| 0 <= j < |servers| && servers[j].endpoint == servers[i].endpoint && j != i;
      assert endpoints[j] == endpoints[i];
    }
  }

  lemma KeptMeaning(servers: seq<Server>, sorted: seq<Server>, unique: seq<Server>)
    requires multiset(sorted) == multiset(servers) && multiset(Endpoints(sorted)) == multiset(Endpoints(servers))
    requires Kept(sorted, |sorted|, unique)
    ensures forall server :: server in unique <==>
              server in servers && multiset(Endpoints(servers))[server.endpoint] == 1
  {
    forall server | server in unique
      ensures server in servers && multiset(Endpoints(servers))[server.endpoint] == 1
    {
      var k :| 0 <= k < |unique| && unique[k] == server;
      var i: nat :| i < |sorted| && Alone(sorted, i) && sorted[i] == server;
      AloneMeansOnce(sorted, i);
      assert server in multiset(sorted);
    }
    forall server | server in servers && multiset(Endpoints(servers))[server.endpoint] == 1
      ensures server in unique
    {
      assert server in multiset(sorted);
      var i :| 0 <= i < |sorted| && sorted[i] == server;
      AloneMeansOnce(sorted, i);
    }
  }

  // ---------- one backend ----------

  type Probe = (Server, Settings)

  /** The probed servers of a backend. The results of distinct candidates have distinct
      keys. */
  predicate DistinctProbes(probes: seq<Probe>, source: Source) {
    && (forall i, j :: 0 <= i < j < |probes| ==> probes[i].0.key != probes[j].0.key)
    && (forall i :: 0 <= i < |probes| ==> probes[i].0.key.source == source)
  }

  ghost predicate FromBackend(report: Report, source: Source) {
    && WellFormed(report)
    && report.connections.Keys == Keys(report.servers)
    && report.incomplete == {}
    && forall server :: server in report.servers ==> server.key.source == source
  }

  predicate Collected(probes: seq<Probe>, servers: seq<Server>, connections: map<Key, Settings>) {
    && |servers| == |probes|
    && (forall i :: 0 <= i < |probes| ==> servers[i] == probes[i].0)
    && connections.Keys == Keys(servers)
    && (forall i :: 0 <= i < |probes| ==> probes[i].0.key in connections && connections[probes[i].0.key] == probes[i].1)
  }

  /** The servers and their settings, from the probes that succeeded. */
  method Collect(probes: seq<Probe>, source: Source) returns (servers: seq<Server>, connections: map<Key, Settings>)
    requires DistinctProbes(probes, source)
    ensures Collected(probes, servers, connections)
  {
    servers, connections := [], map[];
    for i := 0 to |probes|
      invariant Collected(probes[..i], servers, connections)
    {
      var (server, settings) := probes[i];
      assert Keys(servers + [server]) == Keys(servers) + {server.key};
      assert forall k :: 0 <= k < i ==> probes[k].0.key != server.key;
      connections := connections[server.key := settings];
      servers := servers + [server];
    }
    assert probes[..|probes|] == probes;
  }

  /** The part of both `discover` functions that follows the probes: servers with a shared
      endpoint go, and their settings with them. */
  method ReportBackend(probes: seq<Probe>, source: Source) returns (report: Report)
    requires DistinctProbes(probes, source)
    ensures FromBackend(report, source)
    ensures forall i :: 0 <= i < |probes| ==> (probes[i].0 in report.servers <==> Unshared(probes, i))
    ensures forall i :: 0 <= i < |probes| && probes[i].0 in report.servers ==> report.connections[probes[i].0.key] == probes[i].1
    ensures report.notices == |Contested(probes)|
  {
    var servers, connections := Collect(probes, source);
    var unique, notices := RetainUniqueEndpoints(servers);
    var settings := connections - (connections.Keys - Keys(unique));
    report := Report(unique, settings, {}, notices);
    UniqueReport(probes, source, servers, connections, report);
    forall i | 0 <= i < |probes| ensures probes[i].0 in unique <==> Unshared(probes, i) {
      ProbeKept(probes, servers, connections, unique, i);
    }
    ContestedMeaning(probes, servers, connections);
  }

  /** The endpoints that more than one probed server has. */
  function Contested(probes: seq<Probe>): set<Endpoint> {
    set i | 0 <= i < |probes| && !Unshared(probes, i) :: probes[i].0.endpoint
  }

  lemma ContestedMeaning(probes: seq<Probe>, servers: seq<Server>, connections: map<Key, Settings>)
    requires Collected(probes, servers, connections)
    ensures Contested(probes) == Shared(servers)
  {
    forall place: Endpoint ensures place in Contested(probes) <==> place in Shared(servers) {
      if place in Contested(probes) {
        var i :| 0 <= i < |probes| && !Unshared(probes, i) && probes[i].0.endpoint == place;
        AloneMeansOnce(servers, i);
        assert Endpoints(servers)[i] == place && servers[i] in servers;
      }
      if place in Shared(servers) {
        var server :| server in servers && multiset(Endpoints(servers))[server.endpoint] > 1 && server.endpoint == place;
        var i :| 0 <= i < |servers| && servers[i] == server;
        AloneMeansOnce(servers, i);
      }
    }
  }

  lemma {:induction false} UniqueReport(probes: seq<Probe>, source: Source, servers: seq<Server>, connections: map<Key, Settings>, report: Report)
    requires DistinctProbes(probes, source) && Collected(probes, servers, connections)
    requires forall server :: server in report.servers ==> server in servers
    requires forall k, l :: 0 <= k < l < |report.servers| ==> report.servers[k].endpoint < report.servers[l].endpoint
    requires report.connections == connections - (connections.Keys - Keys(report.servers)) && report.incomplete == {}
    ensures FromBackend(report, source)
  {
    forall k, l | 0 <= k < l < |report.servers| ensures report.servers[k].key != report.servers[l].key {
      var i := IndexOf(probes, servers, connections, report.servers[k]);
      var j := IndexOf(probes, servers, connections, report.servers[l]);
    }
    forall server | server in report.servers ensures server.key in connections && server.key.source == source {
      var i := IndexOf(probes, servers, connections, server);
    }
  }

  lemma {:induction false} IndexOf(probes: seq<Probe>, servers: seq<Server>, connections: map<Key, Settings>, server: Server) returns (i: nat)
    requires Collected(probes, servers, connections) && server in servers
    ensures i < |probes| && probes[i].0 == server && server.key in connections
  {
    i :| 0 <= i < |servers| && servers[i] == server;
  }

  lemma {:induction false} ProbeKept(probes: seq<Probe>, servers: seq<Server>, connections: map<Key, Settings>, unique: seq<Server>, i: nat)
    requires Collected(probes, servers, connections) && i < |probes|
    requires probes[i].0 in unique <==> probes[i].0 in servers && multiset(Endpoints(servers))[probes[i].0.endpoint] == 1
    ensures probes[i].0 in unique <==> Unshared(probes, i)
  {
    AloneMeansOnce(servers, i);
    assert servers[i] in servers;
  }

  /** No other probed server has this one's endpoint. */
  predicate Unshared(probes: seq<Probe>, i: nat)
    requires i < |probes|
  {
    forall j :: 0 <= j < |probes| && j != i ==> probes[j].0.endpoint != probes[i].0.endpoint
  }

  // ---------- both backends ----------

  /** Procfs servers give way to a managed server at their endpoint. */
  ghost predicate InMerged(procfs: Option<Report>, managed: Option<Report>, server: Server) {
    || (managed.Some? && server in managed.value.servers)
    || (procfs.Some? && server in procfs.value.servers && (managed.Some? ==> !At(managed.value, server.endpoint)))
  }

  predicate At(report: Report, endpoint: Endpoint) {
    exists server :: server in report.servers && server.endpoint == endpoint
  }

  function SettingsOf(procfs: Option<Report>, managed: Option<Report>, server: Server): Option<Settings> {
    var report := if server.key.source.Managed? then managed else procfs;
    if report.Some? && server.key in report.value.connections then Some(report.value.connections[server.key]) else None
  }

  ghost predicate Merges(procfs: Option<Report>, managed: Option<Report>, merged: Report) {
    && (forall server :: server in merged.servers <==> InMerged(procfs, managed, server))
    && (forall server :: server in merged.servers ==>
          server.key in merged.connections && SettingsOf(procfs, managed, server) == Some(merged.connections[server.key]))
    && merged.incomplete == (if procfs.None? then {Procfs} else {}) + (if managed.None? then {Managed} else {})
  }

  /** Servers listed once, with keys and endpoints of their own. */
  ghost predicate Apart(servers: seq<Server>) {
    && (forall i, j :: 0 <= i < j < |servers| ==> servers[i] != servers[j])
    && (forall s, t :: s in servers && t in servers && (s.key == t.key || s.endpoint == t.endpoint) ==> s == t)
  }

  lemma SortKeepsApart(servers: seq<Server>)
    requires Apart(servers)
    ensures Apart(SortServers(servers)) && ByEndpoint(SortServers(servers))
    ensures forall server :: server in SortServers(servers) <==> server in servers
  {
    SortCounts(servers);
    SortOrders(servers);
    var sorted := SortServers(servers);
    forall server ensures server in sorted <==> server in servers {
      assert server in sorted <==> server in multiset(sorted);
    }
    forall i, j | 0 <= i < j < |sorted| ensures sorted[i] != sorted[j] {
      assert sorted[i] in sorted && sorted[i] in servers;
      var k :| 0 <= k < |servers| && servers[k] == sorted[i];
      CountedOnce(servers, k);
      CountedOnce(sorted, i);
    }
  }

  lemma BackendApart(report: Report)
    requires WellFormed(report)
    ensures Apart(report.servers)
  {
  }

  lemma ApartWellFormed(report: Report)
    requires Apart(report.servers) && forall server :: server in report.servers ==> server.key in report.connections
    ensures WellFormed(report)
  {
  }

  method RetainUnshadowed(servers: seq<Server>, shadowed: set<Key>) returns (kept: seq<Server>)
    requires Apart(servers)
    ensures Apart(kept) && forall server :: server in kept <==> server in servers && server.key !in shadowed
  {
    kept := [];
    for i := 0 to |servers|
      invariant Apart(kept) && forall server :: server in kept <==> server in servers[..i] && server.key !in shadowed
    {
      assert servers[..i + 1] == servers[..i] + [servers[i]];
      assert servers[i] !in servers[..i];
      if servers[i].key !in shadowed {
        kept := kept + [servers[i]];
      }
    }
    assert servers[..|servers|] == servers;
  }

  /** The case of `merge_backend_reports` in which both scans succeeded. */
  method MergeBoth(procfs: Report, managed: Report) returns (merged: Report)
    requires FromBackend(procfs, Procfs) && FromBackend(managed, Managed)
    ensures Merges(Some(procfs), Some(managed), merged) && Apart(merged.servers)
    ensures merged.notices == procfs.notices + managed.notices
  {
    var shadowed := set server | server in procfs.servers && At(managed, server.endpoint) :: server.key;
    BackendApart(procfs);
    BackendApart(managed);
    var kept := RetainUnshadowed(procfs.servers, shadowed);
    merged := Report(kept + managed.servers, (procfs.connections - shadowed) + managed.connections, procfs.incomplete,
                     procfs.notices + managed.notices);
    MergedBoth(procfs, managed, shadowed, kept, merged);
  }

  lemma ConcatApart(left: seq<Server>, right: seq<Server>)
    requires Apart(left) && Apart(right)
    requires forall s, t :: s in left && t in right ==> s.key != t.key && s.endpoint != t.endpoint
    ensures Apart(left + right)
  {
  }

  lemma ShadowedMeansTaken(procfs: Report, managed: Report, server: Server)
    requires Apart(procfs.servers) && server in procfs.servers
    ensures server.key in (set s | s in procfs.servers && At(managed, s.endpoint) :: s.key) <==> At(managed, server.endpoint)
  {
  }

  lemma MergedBoth(procfs: Report, managed: Report, shadowed: set<Key>, kept: seq<Server>, merged: Report)
    requires FromBackend(procfs, Procfs) && FromBackend(managed, Managed) && Apart(kept) && Apart(managed.servers)
    requires shadowed == set server | server in procfs.servers && At(managed, server.endpoint) :: server.key
    requires forall server :: server in kept <==> server in procfs.servers && server.key !in shadowed
    requires merged.servers == kept + managed.servers && merged.incomplete == {}
    requires merged.connections == (procfs.connections - shadowed) + managed.connections
    ensures Merges(Some(procfs), Some(managed), merged) && Apart(merged.servers)
  {
    BackendApart(procfs);
    forall server | server in procfs.servers ensures server in kept <==> !At(managed, server.endpoint) {
      ShadowedMeansTaken(procfs, managed, server);
    }
    ConcatApart(kept, managed.servers);
    assert forall server :: server in merged.servers <==> server in kept || server in managed.servers;
    forall server | server in merged.servers
      ensures server.key in merged.connections
      ensures SettingsOf(Some(procfs), Some(managed), server) == Some(merged.connections[server.key])
    {
      MergedSettings(procfs, managed, shadowed, kept, merged, server);
    }
  }

  lemma MergedSettings(procfs: Report, managed: Report, shadowed: set<Key>, kept: seq<Server>, merged: Report, server: Server)
    requires FromBackend(procfs, Procfs) && FromBackend(managed, Managed)
    requires server in kept <==> server in procfs.servers && server.key !in shadowed
    requires server in kept || server in managed.servers
    requires merged.connections == (procfs.connections - shadowed) + managed.connections
    ensures server.key in merged.connections
    ensures SettingsOf(Some(procfs), Some(managed), server) == Some(merged.connections[server.key])
  {
  }

  /** `merge_backend_reports`. The result meets what the supervisor's convergence relies on:
      unique keys and endpoints, with settings for every server. */
  method MergeBackendReports(procfs: Option<Report>, managed: Option<Report>) returns (merged: Option<Report>)
    requires procfs.Some? ==> FromBackend(procfs.value, Procfs)
    requires managed.Some? ==> FromBackend(managed.value, Managed)
    ensures merged.Some? <==> procfs.Some? || managed.Some?
    ensures merged.Some? ==> Merges(procfs, managed, merged.value)
    ensures merged.Some? ==> WellFormed(merged.value) && ByEndpoint(merged.value.servers)
    ensures merged.Some? ==>
      merged.value.notices == (if procfs.Some? then procfs.value.notices else 1) + (if managed.Some? then managed.value.notices else 1)
  {
    var report;
    match (procfs, managed) {
      case (None, None) => return None;
      case (Some(left), None) =>
        report := left.(incomplete := left.incomplete + {Managed}, notices := left.notices + 1);
        BackendApart(left);
      case (None, Some(right)) =>
        report := right.(incomplete := right.incomplete + {Procfs}, notices := right.notices + 1);
        BackendApart(right);
      case (Some(left), Some(right)) =>
        report := MergeBoth(left, right);
    }
    assert Merges(procfs, managed, report) && Apart(report.servers);
    SortKeepsApart(report.servers);
    report := report.(servers := SortServers(report.servers));
    ApartWellFormed(report);
    return Some(report);
  }
}
