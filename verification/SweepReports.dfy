/** What a finished sweep has done and reports, in terms of what it was asked and what it found. */
module SweepReports {
  import opened Wrappers
  import opened Probing
  import opened ScanService
  import opened SweepService

  // ---------------------------------------------------------------------------
  // The hosts
  // ---------------------------------------------------------------------------

  /** Who is to be scanned: the candidates that are up, or all of them when nobody was checked. */
  predicate Wanted(p: Plan, host: nat) { host < p.candidates && (p.discover ==> p.up(host)) }

  /** The wanted hosts below n, each once, in order. */
  ghost predicate WantedBelow(p: Plan, hosts: seq<nat>, n: nat) {
    && (forall a, b :: 0 <= a < b < |hosts| ==> hosts[a] < hosts[b])
    && forall h: nat :: h in hosts <==> h < n && Wanted(p, h)
  }

  lemma {:induction false} UpBelowWanted(p: Plan, n: nat)
    requires p.discover && n <= p.candidates
    ensures WantedBelow(p, UpBelow(p, n), n)
  {
    if n > 0 {
      UpBelowWanted(p, n - 1);
      var before := UpBelow(p, n - 1);
      forall a | 0 <= a < |before| ensures before[a] < n - 1 {
        assert before[a] in before;
      }
      forall h: nat ensures h in UpBelow(p, n) <==> h < n && Wanted(p, h) {
        assert h in before <==> h < n - 1 && Wanted(p, h);
      }
    }
  }

  lemma TargetsWanted(p: Plan)
    ensures WantedBelow(p, Targets(p), p.candidates)
  {
    if p.discover {
      UpBelowWanted(p, p.candidates);
    } else {
      var all := AllCandidates(p.candidates);
      forall h: nat ensures h in all <==> h < p.candidates {
        if h < p.candidates {
          assert all[h] == h;
        }
      }
    }
  }

  // ---------------------------------------------------------------------------
  // The ports
  // ---------------------------------------------------------------------------

  /** The answers port i of the host gave, in order. */
  ghost predicate AnsweredBy(p: Plan, host: nat, i: nat, replies: seq<Reply>) {
    forall k: nat :: k < |replies| ==> replies[k] == p.oracle(host, i, k)
  }

  /** Every port of the host was asked until it said something, or as often as allowed. */
  ghost predicate Settled(p: Plan, h: HostScan) {
    && h.stage.Reported? && |h.stage.tasks| == p.ports
    && forall i :: 0 <= i < p.ports ==>
         Retried(p.retries, h.stage.tasks[i].replies) && AnsweredBy(p, h.host, i, h.stage.tasks[i].replies)
  }

  lemma ReportedIsSettled(p: Plan, h: HostScan)
    requires StageOk(p, h) && h.stage.Reported?
    ensures Settled(p, h)
  {
    forall i | 0 <= i < p.ports
      ensures Retried(p.retries, h.stage.tasks[i].replies) && AnsweredBy(p, h.host, i, h.stage.tasks[i].replies)
    {
      TaskTried(HostConfig(p, h.host), i, h.stage.tasks[i]);
    }
  }

  // ---------------------------------------------------------------------------
  // The report
  // ---------------------------------------------------------------------------

  /** One host's entry: the host, and its ports with the last answer of each. */
  ghost predicate Covers(fingerprint: Fingerprint, ports: seq<int>, h: HostScan, r: HostReport) {
    r.host == h.host && h.stage.Reported? && Lists(fingerprint, ports, h.stage.tasks, r.ports)
  }

  ghost predicate CoversAll(fingerprint: Fingerprint, ports: seq<int>, hosts: seq<HostScan>, rs: seq<HostReport>) {
    |rs| == |hosts| && forall j :: 0 <= j < |hosts| ==> Covers(fingerprint, ports, hosts[j], rs[j])
  }

  lemma ReportsCover(fingerprint: Fingerprint, p: Plan, ports: seq<int>, hosts: seq<HostScan>)
    requires p.ports == |ports| && Answerable(p, hosts)
    ensures CoversAll(fingerprint, ports, hosts, HostReports(fingerprint, p, ports, hosts))
  {
    forall j | 0 <= j < |hosts|
      ensures Covers(fingerprint, ports, hosts[j], HostReports(fingerprint, p, ports, hosts)[j])
    {
      GatheredLists(fingerprint, ports, hosts[j].stage.tasks);
    }
  }

  lemma SortedByRank(rank: nat -> int, rs: seq<HostReport>)
    ensures var sorted := SortBy(RankOf(rank), rs);
            && multiset(sorted) == multiset(rs)
            && forall a, b :: 0 <= a < b < |sorted| ==> rank(sorted[a].host) <= rank(sorted[b].host)
  {
    SortByCorrect(RankOf(rank), rs, 0);
    var sorted := SortBy(RankOf(rank), rs);
    forall a, b | 0 <= a < b < |sorted| ensures rank(sorted[a].host) <= rank(sorted[b].host) {
      assert RankOf(rank)(sorted[a]) <= RankOf(rank)(sorted[b]);
    }
  }

  function HostsOf(hosts: seq<HostScan>): seq<nat> { seq(|hosts|, j requires 0 <= j < |hosts| => hosts[j].host) }

  lemma HostsSettled(p: Plan, permits: nat, hosts: seq<HostScan>)
    requires HostsOk(p, permits, hosts) && forall j :: 0 <= j < |hosts| ==> hosts[j].stage.Reported?
    ensures WantedBelow(p, HostsOf(hosts), p.candidates)
    ensures forall j :: 0 <= j < |hosts| ==> Settled(p, hosts[j])
  {
    TargetsWanted(p);
    assert HostsOf(hosts) == Targets(p);
    forall j | 0 <= j < |hosts| ensures Settled(p, hosts[j]) {
      assert StageOk(p, hosts[j]);
      ReportedIsSettled(p, hosts[j]);
    }
  }

  /** The report has these hosts, by rank, and for each the last answer of every port, by port number. */
  ghost predicate Tells(fingerprint: Fingerprint, rank: nat -> int, p: Plan, ports: seq<int>, hosts: seq<HostScan>, report: NetworkReport) {
    && report.totalCandidates == p.candidates && report.upCount == |hosts|
    && (forall a, b :: 0 <= a < b < |report.hosts| ==> rank(report.hosts[a].host) <= rank(report.hosts[b].host))
    && exists rs :: multiset(rs) == multiset(report.hosts) && CoversAll(fingerprint, ports, hosts, rs)
  }

  lemma EmittedTells(fingerprint: Fingerprint, rank: nat -> int, p: Plan, ports: seq<int>, hosts: seq<HostScan>)
    requires p.ports == |ports| && Answerable(p, hosts)
    ensures Tells(fingerprint, rank, p, ports, hosts, Emitted(fingerprint, rank, p, ports, hosts))
  {
    var rs := HostReports(fingerprint, p, ports, hosts);
    ReportsCover(fingerprint, p, ports, hosts);
    SortedByRank(rank, rs);
  }

  /** Of every finished sweep, however its hosts and probes were interleaved: exactly the wanted hosts were
      scanned, once each; every port of each was asked until it gave an answer other than filtered or
      open|filtered or the sweep's retransmissions were spent; and the report tells that. */
  lemma FinishedSweepTells(fingerprint: Fingerprint, rank: nat -> int, p: Plan, ports: seq<int>,
                           interval: Option<real>, start: real, es: seq<SweepEvent>)
    requires p.ports == |ports| && SweepService.Runs(p, NewSweep(p, interval, start), es)
    requires Finished(SweepService.Final(p, NewSweep(p, interval, start), es).phase)
    ensures var hosts := SweepService.Final(p, NewSweep(p, interval, start), es).phase.hosts;
            && WantedBelow(p, HostsOf(hosts), p.candidates)
            && (forall j :: 0 <= j < |hosts| ==> Settled(p, hosts[j]))
            && Answerable(p, hosts)
            && Tells(fingerprint, rank, p, ports, hosts, Emitted(fingerprint, rank, p, ports, hosts))
  {
    var s := NewSweep(p, interval, start);
    NewSweepOk(p, interval, start);
    RunOk(p, s, es);
    var phase := SweepService.Final(p, s, es).phase;
    HostsSettled(p, phase.permits, phase.hosts);
    EmittedTells(fingerprint, rank, p, ports, phase.hosts);
  }

  // ---------------------------------------------------------------------------
  // The ports of one host
  // ---------------------------------------------------------------------------

  lemma {:induction false} QueuedNotFlying(tasks: seq<Task>, i: nat)
    requires i < |tasks| && tasks[i].phase.Queued?
    ensures Total(Flying, tasks) < |tasks|
  {
    if i == 0 {
      TotalBound(Flying, tasks[1..], 1);
    } else {
      QueuedNotFlying(tasks[1..], i - 1);
    }
  }

  /** All the ports of a host are scanned at once: in every state of every sweep a host being scanned has a
      permit for each of its ports, free or in flight, so that no port ever waits for one. */
  lemma PortsNeverWait(p: Plan, interval: Option<real>, start: real, es: seq<SweepEvent>, j: nat)
    requires SweepService.Runs(p, NewSweep(p, interval, start), es)
    requires var phase := SweepService.Final(p, NewSweep(p, interval, start), es).phase;
             phase.Sweeping? && j < |phase.hosts| && phase.hosts[j].stage.Scanning?
    ensures var g := SweepService.Final(p, NewSweep(p, interval, start), es).phase.hosts[j].stage.group;
            && |g.tasks| == p.ports && g.permits + InFlightCount(g) == p.ports
            && forall i :: 0 <= i < p.ports && g.tasks[i].phase.Queued? ==> g.permits > 0
  {
    var s := NewSweep(p, interval, start);
    NewSweepOk(p, interval, start);
    RunOk(p, s, es);
    var h := SweepService.Final(p, s, es).phase.hosts[j];
    assert StageOk(p, h);
    var g := h.stage.group;
    forall i | 0 <= i < p.ports && g.tasks[i].phase.Queued? ensures g.permits > 0 {
      QueuedNotFlying(g.tasks, i);
    }
  }
}
