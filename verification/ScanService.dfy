/** One host's scan: the report a run of its probe tasks ends in. */
module ScanService {
  import opened Wrappers
  import opened Probing

  // ---------------------------------------------------------------------------
  // Sorting
  // ---------------------------------------------------------------------------

  /** Python's sorted with a key: stable. */
  function SortBy<T>(key: T -> int, xs: seq<T>): (r: seq<T>)
    ensures |r| == |xs|
  {
    if xs == [] then [] else InsertBy(key, xs[0], SortBy(key, xs[1..]))
  }

  function InsertBy<T>(key: T -> int, x: T, xs: seq<T>): (r: seq<T>)
    ensures |r| == |xs| + 1
  {
    if xs == [] || key(x) <= key(xs[0]) then [x] + xs else [xs[0]] + InsertBy(key, x, xs[1..])
  }

  predicate SortedBy<T>(key: T -> int, xs: seq<T>) {
    forall i, j :: 0 <= i < j < |xs| ==> key(xs[i]) <= key(xs[j])
  }

  /** The elements with one key, in order. */
  function WithKey<T>(key: T -> int, k: int, xs: seq<T>): seq<T> {
    if xs == [] then [] else (if key(xs[0]) == k then [xs[0]] else []) + WithKey(key, k, xs[1..])
  }

  predicate AllFrom<T>(key: T -> int, low: int, xs: seq<T>) { forall i :: 0 <= i < |xs| ==> low <= key(xs[i]) }

  lemma ConsSorted<T>(key: T -> int, x: T, xs: seq<T>)
    requires SortedBy(key, xs) && AllFrom(key, key(x), xs)
    ensures SortedBy(key, [x] + xs)
  {
  }

  lemma {:induction false} InsertSorted<T>(key: T -> int, x: T, xs: seq<T>, low: int)
    requires SortedBy(key, xs)
    ensures SortedBy(key, InsertBy(key, x, xs))
    ensures AllFrom(key, low, xs) && low <= key(x) ==> AllFrom(key, low, InsertBy(key, x, xs))
  {
    if xs == [] || key(x) <= key(xs[0]) {
      ConsSorted(key, x, xs);
    } else {
      InsertSorted(key, x, xs[1..], key(xs[0]));
      ConsSorted(key, xs[0], InsertBy(key, x, xs[1..]));
      InsertSorted(key, x, xs[1..], low);
    }
  }

  lemma {:induction false} InsertPermutes<T>(key: T -> int, x: T, xs: seq<T>)
    ensures multiset(InsertBy(key, x, xs)) == multiset(xs) + multiset{x}
  {
    if !(xs == [] || key(x) <= key(xs[0])) {
      InsertPermutes(key, x, xs[1..]);
      assert xs == [xs[0]] + xs[1..];
    }
  }

  lemma WithKeyFirst<T>(key: T -> int, k: int, x: T, xs: seq<T>)
    ensures WithKey(key, k, [x] + xs) == (if key(x) == k then [x] else []) + WithKey(key, k, xs)
  {
    assert ([x] + xs)[1..] == xs;
  }

  lemma StableBehind<T>(key: T -> int, k: int, x: T, y: T, tail: seq<T>, rest: seq<T>)
    requires WithKey(key, k, rest) == (if key(x) == k then [x] else []) + WithKey(key, k, tail)
    requires key(y) < key(x)
    ensures WithKey(key, k, [y] + rest) == (if key(x) == k then [x] else []) + WithKey(key, k, [y] + tail)
  {
    WithKeyFirst(key, k, y, rest);
    WithKeyFirst(key, k, y, tail);
  }

  lemma {:induction false} InsertStable<T>(key: T -> int, x: T, xs: seq<T>, k: int)
    ensures WithKey(key, k, InsertBy(key, x, xs)) == (if key(x) == k then [x] else []) + WithKey(key, k, xs)
  {
    if xs == [] || key(x) <= key(xs[0]) {
      WithKeyFirst(key, k, x, xs);
    } else {
      var y, tail := xs[0], xs[1..];
      InsertStable(key, x, tail, k);
      StableBehind(key, k, x, y, tail, InsertBy(key, x, tail));
      assert xs == [y] + tail;
    }
  }

  /** A sorted, stable permutation of the input. */
  lemma {:induction false} SortByCorrect<T>(key: T -> int, xs: seq<T>, k: int)
    ensures SortedBy(key, SortBy(key, xs)) && multiset(SortBy(key, xs)) == multiset(xs)
    ensures WithKey(key, k, SortBy(key, xs)) == WithKey(key, k, xs)
  {
    if xs != [] {
      SortByCorrect(key, xs[1..], k);
      InsertSorted(key, xs[0], SortBy(key, xs[1..]), key(xs[0]));
      InsertPermutes(key, xs[0], SortBy(key, xs[1..]));
      InsertStable(key, xs[0], SortBy(key, xs[1..]), k);
      assert xs == [xs[0]] + xs[1..];
    }
  }

  // ---------------------------------------------------------------------------
  // Reports
  // ---------------------------------------------------------------------------

  datatype PortResult = PortResult(
    port: int,
    state: PortState,
    service: Option<string>,
    product: Option<string>,
    version: Option<string>,
    banner: Option<string>)

  datatype ServiceInfo = ServiceInfo(service: Option<string>, product: Option<string>, version: Option<string>)

  /** The fingerprint table, left uninterpreted. */
  type Fingerprint = (Option<string>, int) -> ServiceInfo

  /** Python's `a or b` on optional text. */
  function OrElse(a: Option<string>, b: Option<string>): Option<string> {
    if a.Some? && a.value != "" then a else b
  }

  function Raw(port: int, reply: Reply): PortResult {
    PortResult(port, reply.state, reply.service, None, None, reply.banner)
  }

  /** Only open ports are fingerprinted; port and state are kept. */
  function Identify(fingerprint: Fingerprint, r: PortResult): PortResult {
    if r.state != Open then r
    else
      var info := fingerprint(r.banner, r.port);
      r.(service := OrElse(info.service, r.service), product := info.product, version := info.version)
  }

  function PortOf(r: PortResult): int { r.port }

  /** The gathered results, in the order of the requested ports. */
  function Gathered(fingerprint: Fingerprint, ports: seq<int>, tasks: seq<Task>): (rs: seq<PortResult>)
    requires |tasks| == |ports| && forall i :: 0 <= i < |tasks| ==> tasks[i].replies != []
    ensures |rs| == |ports|
    ensures forall i :: 0 <= i < |rs| ==> rs[i] == Identify(fingerprint, Raw(ports[i], LastReply(tasks[i])))
  {
    seq(|ports|, i requires 0 <= i < |ports| => Identify(fingerprint, Raw(ports[i], LastReply(tasks[i]))))
  }

  /** What each port settles on, read off the oracle alone. */
  function Expected(fingerprint: Fingerprint, c: Config, ports: seq<int>): (rs: seq<PortResult>)
    ensures |rs| == |ports|
    ensures forall i :: 0 <= i < |rs| ==> rs[i] == Identify(fingerprint, Raw(ports[i], Settled(c, i)))
  {
    seq(|ports|, i requires 0 <= i < |ports| => Identify(fingerprint, Raw(ports[i], Settled(c, i))))
  }

  function Report(fingerprint: Fingerprint, c: Config, ports: seq<int>): seq<PortResult> {
    SortBy(PortOf, Expected(fingerprint, c, ports))
  }

  function Ports(rs: seq<PortResult>): (ps: seq<int>)
    ensures |ps| == |rs| && forall i :: 0 <= i < |ps| ==> ps[i] == rs[i].port
  {
    if rs == [] then [] else [rs[0].port] + Ports(rs[1..])
  }

  function PortsBag(rs: seq<PortResult>): multiset<int> { multiset(Ports(rs)) }

  lemma PortsFirst(all: seq<PortResult>, x: PortResult, rs: seq<PortResult>)
    requires all == [x] + rs
    ensures PortsBag(all) == multiset{x.port} + PortsBag(rs)
  {
    assert Ports(all) == [x.port] + Ports(rs);
  }

  lemma PortsBehind(x: PortResult, y: PortResult, tail: seq<PortResult>, rest: seq<PortResult>)
    requires PortsBag(rest) == PortsBag(tail) + multiset{x.port}
    ensures PortsBag([y] + rest) == PortsBag([y] + tail) + multiset{x.port}
  {
    PortsFirst([y] + rest, y, rest);
    PortsFirst([y] + tail, y, tail);
  }

  lemma {:induction false} InsertPorts(x: PortResult, rs: seq<PortResult>)
    ensures PortsBag(InsertBy(PortOf, x, rs)) == PortsBag(rs) + multiset{x.port}
  {
    if rs == [] || PortOf(x) <= PortOf(rs[0]) {
      PortsFirst([x] + rs, x, rs);
    } else {
      var y, tail := rs[0], rs[1..];
      InsertPorts(x, tail);
      PortsBehind(x, y, tail, InsertBy(PortOf, x, tail));
      assert rs == [y] + tail;
    }
  }

  lemma {:induction false} SortKeepsPorts(rs: seq<PortResult>)
    ensures multiset(Ports(SortBy(PortOf, rs))) == multiset(Ports(rs))
  {
    if rs != [] {
      SortKeepsPorts(rs[1..]);
      InsertPorts(rs[0], SortBy(PortOf, rs[1..]));
      assert Ports(rs) == [rs[0].port] + Ports(rs[1..]);
    }
  }

  /** The report lists exactly the requested ports, sorted; results for one port keep the order the
      port was asked for in; and each is what the port settled on, fingerprinted if open. */
  lemma ReportIsSortedPermutation(fingerprint: Fingerprint, c: Config, ports: seq<int>, port: int)
    ensures var report := Report(fingerprint, c, ports);
            && SortedBy(PortOf, report)
            && multiset(report) == multiset(Expected(fingerprint, c, ports))
            && multiset(Ports(report)) == multiset(ports)
            && WithKey(PortOf, port, report) == WithKey(PortOf, port, Expected(fingerprint, c, ports))
  {
    var expected := Expected(fingerprint, c, ports);
    SortByCorrect(PortOf, expected, port);
    SortKeepsPorts(expected);
    assert Ports(expected) == ports;
  }

  /** Whatever the schedule, a scan that finishes reports what the sequential retry loop would. */
  lemma EveryScheduleSameReport(fingerprint: Fingerprint, c: Config, ports: seq<int>, s: System, es: seq<Event>)
    requires s.group == NewGroup(c, |ports|) && Runs(c, s, es) && AllDone(Final(c, s, es).group)
    ensures var tasks := Final(c, s, es).group.tasks;
            && |tasks| == |ports| && (forall i :: 0 <= i < |tasks| ==> tasks[i].replies != [])
            && SortBy(PortOf, Gathered(fingerprint, ports, tasks)) == Report(fingerprint, c, ports)
  {
    var tasks := Final(c, s, es).group.tasks;
    EveryInterleaving(c, s, |ports|, es);
    forall i | 0 <= i < |ports| ensures tasks[i].replies != [] && LastReply(tasks[i]) == Settled(c, i) {
      ScheduleIrrelevant(c, s, |ports|, es, i);
    }
    assert Gathered(fingerprint, ports, tasks) == Expected(fingerprint, c, ports);
  }

  // ---------------------------------------------------------------------------
  // What a report says
  // ---------------------------------------------------------------------------

  /** The result for a port is the answer it settled on; the fingerprint of an open port comes first for
      its service, and nobody else has a product or version. */
  predicate Describes(fingerprint: Fingerprint, r: PortResult, port: int, reply: Reply) {
    && r.port == port && r.state == reply.state && r.banner == reply.banner
    && if reply.state != Open then r.service == reply.service && r.product == None && r.version == None
       else
         var info := fingerprint(reply.banner, port);
         && r.product == info.product && r.version == info.version
         && r.service == if info.service in {None, Some("")} then reply.service else info.service
  }

  /** These results, by port number, and nothing else, for these ports and the answers of their tasks. */
  ghost predicate Lists(fingerprint: Fingerprint, ports: seq<int>, tasks: seq<Task>, results: seq<PortResult>) {
    && (forall a, b :: 0 <= a < b < |results| ==> results[a].port <= results[b].port)
    && exists unsorted :: multiset(unsorted) == multiset(results) && InRequestOrder(fingerprint, ports, tasks, unsorted)
  }

  ghost predicate InRequestOrder(fingerprint: Fingerprint, ports: seq<int>, tasks: seq<Task>, results: seq<PortResult>) {
    && |results| == |ports| == |tasks|
    && forall i :: 0 <= i < |ports| ==>
         tasks[i].replies != [] && Describes(fingerprint, results[i], ports[i], tasks[i].replies[|tasks[i].replies| - 1])
  }

  lemma GatheredLists(fingerprint: Fingerprint, ports: seq<int>, tasks: seq<Task>)
    requires |tasks| == |ports| && forall i :: 0 <= i < |tasks| ==> tasks[i].replies != []
    ensures Lists(fingerprint, ports, tasks, SortBy(PortOf, Gathered(fingerprint, ports, tasks)))
  {
    var unsorted := Gathered(fingerprint, ports, tasks);
    SortByCorrect(PortOf, unsorted, 0);
    var results := SortBy(PortOf, unsorted);
    forall a, b | 0 <= a < b < |results| ensures results[a].port <= results[b].port {
      assert PortOf(results[a]) <= PortOf(results[b]);
    }
    assert InRequestOrder(fingerprint, ports, tasks, unsorted);
  }

  /** Of a scan that finishes, whatever the schedule: every port was asked until it gave an answer other
      than filtered or open|filtered or its retransmissions were spent, and the report lists its last answer. */
  lemma ScanReports(fingerprint: Fingerprint, c: Config, ports: seq<int>, s: System, es: seq<Event>)
    requires s.group == NewGroup(c, |ports|) && Runs(c, s, es) && AllDone(Final(c, s, es).group)
    ensures var tasks := Final(c, s, es).group.tasks;
            && |tasks| == |ports|
            && (forall i :: 0 <= i < |ports| ==> Retried(c.retries, tasks[i].replies) && AnswersOf(c.oracle, i, tasks[i].replies))
            && Lists(fingerprint, ports, tasks, Report(fingerprint, c, ports))
  {
    var tasks := Final(c, s, es).group.tasks;
    EveryScheduleSameReport(fingerprint, c, ports, s, es);
    EveryInterleaving(c, s, |ports|, es);
    GatheredLists(fingerprint, ports, tasks);
  }

  /** The scan with its tasks taken one at a time. */
  method ScanSequentially(fingerprint: Fingerprint, c: Config, ports: seq<int>) returns (report: seq<PortResult>)
    ensures report == Report(fingerprint, c, ports)
  {
    var results: seq<PortResult> := [];
    for i := 0 to |ports|
      invariant |results| == i
      invariant forall k :: 0 <= k < i ==> results[k] == Identify(fingerprint, Raw(ports[k], Settled(c, k)))
    {
      var reply := Bounded(c, i);
      results := results + [Identify(fingerprint, Raw(ports[i], reply))];
    }
    assert results == Expected(fingerprint, c, ports);
    report := SortBy(PortOf, results);
  }
}
