/** A network sweep: discover the hosts that are up, then scan them, behind one shared limiter. */
module SweepService {
  import opened Wrappers
  import opened Rate
  import opened Probing
  import opened Pacing
  import opened ScanService

  /** What a sweep is asked to do, and the oracle for what it finds. `ports` is the number of ports. */
  datatype Plan = Plan(
    candidates: nat,
    ports: nat,
    hostConcurrency: nat,
    retries: int,
    discover: bool,
    up: nat -> bool,
    oracle: (nat, nat, nat) -> Reply)

  datatype Stage = Idle | Scanning(group: Group) | Reported(tasks: seq<Task>)

  datatype HostScan = HostScan(host: nat, stage: Stage)

  datatype SweepPhase = Discovering(group: Group) | Sweeping(permits: nat, hosts: seq<HostScan>)

  datatype Sweep = Sweep(now: real, gate: Gate, phase: SweepPhase)

  /** Discovery is a group of single-attempt probes, one per candidate, under the host semaphore. */
  function DiscoveryConfig(p: Plan): Config {
    Config(p.hostConcurrency, 0, (i: nat, k: nat) => Reply(if p.up(i) then Open else Closed, None, None))
  }

  /** A host's scan is a group with as many permits as ports. */
  function HostConfig(p: Plan, host: nat): Config {
    Config(p.ports, p.retries, (i: nat, k: nat) => p.oracle(host, i, k))
  }

  // ---------------------------------------------------------------------------
  // Steps
  // ---------------------------------------------------------------------------

  datatype Move =
    | Discover(action: Action)
    | StartScans
    | StartHost(index: nat)
    | Probe(index: nat, action: Action)
    | EndHost(index: nat)

  function HostsUp(tasks: seq<Task>, n: nat): seq<nat>
    requires n <= |tasks| && forall i :: 0 <= i < |tasks| ==> tasks[i].replies != []
  {
    if n == 0 then []
    else HostsUp(tasks, n - 1) + if LastReply(tasks[n - 1]).state == Open then [n - 1] else []
  }

  function IdleHosts(hosts: seq<nat>): (r: seq<HostScan>)
    ensures |r| == |hosts| && forall j :: 0 <= j < |r| ==> r[j] == HostScan(hosts[j], Idle)
  {
    seq(|hosts|, j requires 0 <= j < |hosts| => HostScan(hosts[j], Idle))
  }

  ghost predicate CanMove(p: Plan, s: Sweep, m: Move) {
    match m
    case Discover(a) => s.phase.Discovering? && Enabled(System(s.now, s.gate, s.phase.group), a)
    case StartScans =>
      s.phase.Discovering? && AllDone(s.phase.group)
      && forall i :: 0 <= i < |s.phase.group.tasks| ==> s.phase.group.tasks[i].replies != []
    case StartHost(j) => s.phase.Sweeping? && j < |s.phase.hosts| && s.phase.hosts[j].stage.Idle? && s.phase.permits > 0
    case Probe(j, a) =>
      s.phase.Sweeping? && j < |s.phase.hosts| && s.phase.hosts[j].stage.Scanning?
      && Enabled(System(s.now, s.gate, s.phase.hosts[j].stage.group), a)
    case EndHost(j) =>
      s.phase.Sweeping? && j < |s.phase.hosts| && s.phase.hosts[j].stage.Scanning? && AllDone(s.phase.hosts[j].stage.group)
  }

  /** One host of the list at a new stage. */
  function WithStage(phase: SweepPhase, permits: nat, j: nat, stage: Stage): SweepPhase
    requires phase.Sweeping? && j < |phase.hosts|
  {
    Sweeping(permits, phase.hosts[j := phase.hosts[j].(stage := stage)])
  }

  ghost function Moved(p: Plan, s: Sweep, m: Move): Sweep
    requires CanMove(p, s, m)
  {
    match m
    case Discover(a) =>
      var r := Act(DiscoveryConfig(p), System(s.now, s.gate, s.phase.group), a);
      Sweep(s.now, r.gate, Discovering(r.group))
    case StartScans =>
      s.(phase := Sweeping(p.hostConcurrency, IdleHosts(HostsUp(s.phase.group.tasks, |s.phase.group.tasks|))))
    case StartHost(j) =>
      s.(phase := WithStage(s.phase, s.phase.permits - 1, j, Scanning(NewGroup(HostConfig(p, s.phase.hosts[j].host), p.ports))))
    case Probe(j, a) =>
      var r := Act(HostConfig(p, s.phase.hosts[j].host), System(s.now, s.gate, s.phase.hosts[j].stage.group), a);
      Sweep(s.now, r.gate, WithStage(s.phase, s.phase.permits, j, Scanning(r.group)))
    case EndHost(j) =>
      s.(phase := WithStage(s.phase, s.phase.permits + 1, j, Reported(s.phase.hosts[j].stage.group.tasks)))
  }

  datatype SweepEvent = Step(move: Move) | Wait(time: real)

  ghost predicate Possible(p: Plan, s: Sweep, e: SweepEvent) {
    match e
    case Step(m) => CanMove(p, s, m)
    case Wait(time) => time >= 0.0
  }

  ghost function After(p: Plan, s: Sweep, e: SweepEvent): Sweep
    requires Possible(p, s, e)
  {
    match e
    case Step(m) => Moved(p, s, m)
    case Wait(time) => s.(now := s.now + time)
  }

  ghost predicate Runs(p: Plan, s: Sweep, es: seq<SweepEvent>)
    decreases |es|
  {
    es == [] || (Possible(p, s, es[0]) && Runs(p, After(p, s, es[0]), es[1..]))
  }

  ghost function Final(p: Plan, s: Sweep, es: seq<SweepEvent>): Sweep
    requires Runs(p, s, es)
    decreases |es|
  {
    if es == [] then s else Final(p, After(p, s, es[0]), es[1..])
  }

  function AllCandidates(n: nat): (r: seq<nat>)
    ensures |r| == n
  {
    seq(n, i => i)
  }

  function NewSweep(p: Plan, interval: Option<real>, start: real): Sweep {
    Sweep(start, NewGate(interval, start),
          if p.discover then Discovering(NewGroup(DiscoveryConfig(p), p.candidates))
          else Sweeping(p.hostConcurrency, IdleHosts(AllCandidates(p.candidates))))
  }

  // ---------------------------------------------------------------------------
  // The hosts scanned
  // ---------------------------------------------------------------------------

  /** The candidates below n that are up, in order. */
  function UpBelow(p: Plan, n: nat): seq<nat> {
    if n == 0 then [] else UpBelow(p, n - 1) + if p.up(n - 1) then [n - 1] else []
  }

  function Targets(p: Plan): seq<nat> { if p.discover then UpBelow(p, p.candidates) else AllCandidates(p.candidates) }

  lemma {:induction false} HostsUpAreUp(p: Plan, tasks: seq<Task>, n: nat)
    requires n <= |tasks|
    requires forall i :: 0 <= i < |tasks| ==>
      tasks[i].replies != [] && tasks[i].phase.Done? && TaskOk(DiscoveryConfig(p), i, tasks[i])
    ensures HostsUp(tasks, n) == UpBelow(p, n)
  {
    if n > 0 {
      HostsUpAreUp(p, tasks, n - 1);
      var t := tasks[n - 1];
      assert t.replies[|t.replies| - 1] == DiscoveryConfig(p).oracle(n - 1, |t.replies| - 1);
    }
  }

  lemma {:induction false} UpBelowCount(p: Plan, n: nat)
    ensures |UpBelow(p, n)| <= n
  {
    if n > 0 {
      UpBelowCount(p, n - 1);
    }
  }

  // ---------------------------------------------------------------------------
  // Semaphores and tasks
  // ---------------------------------------------------------------------------

  function Busy(h: HostScan): nat { if h.stage.Scanning? then 1 else 0 }

  ghost predicate StageOk(p: Plan, h: HostScan) {
    match h.stage
    case Idle => true
    case Scanning(g) => GroupOk(HostConfig(p, h.host), g) && |g.tasks| == p.ports
    case Reported(tasks) =>
      |tasks| == p.ports
      && forall i :: 0 <= i < |tasks| ==> tasks[i].phase.Done? && TaskOk(HostConfig(p, h.host), i, tasks[i])
  }

  ghost predicate HostsOk(p: Plan, permits: nat, hosts: seq<HostScan>) {
    && permits + Total(Busy, hosts) == p.hostConcurrency
    && |hosts| == |Targets(p)|
    && forall j :: 0 <= j < |hosts| ==> hosts[j].host == Targets(p)[j] && StageOk(p, hosts[j])
  }

  ghost predicate SweepOk(p: Plan, s: Sweep) {
    match s.phase
    case Discovering(g) => p.discover && GroupOk(DiscoveryConfig(p), g) && |g.tasks| == p.candidates
    case Sweeping(permits, hosts) => HostsOk(p, permits, hosts)
  }

  lemma NewSweepOk(p: Plan, interval: Option<real>, start: real)
    ensures SweepOk(p, NewSweep(p, interval, start))
  {
    if p.discover {
      NewGroupOk(DiscoveryConfig(p), p.candidates);
    } else {
      TotalZero(Busy, IdleHosts(AllCandidates(p.candidates)));
    }
  }

  lemma StartScansOk(p: Plan, s: Sweep)
    requires SweepOk(p, s) && CanMove(p, s, StartScans)
    ensures SweepOk(p, Moved(p, s, StartScans))
    ensures Moved(p, s, StartScans).phase.hosts == IdleHosts(Targets(p))
  {
    var tasks := s.phase.group.tasks;
    HostsUpAreUp(p, tasks, |tasks|);
    TotalZero(Busy, IdleHosts(HostsUp(tasks, |tasks|)));
  }

  /** A host's new stage trades permits for the scan it starts or ends. */
  lemma StageChangeOk(p: Plan, permits: nat, hosts: seq<HostScan>, j: nat, permits': nat, h: HostScan)
    requires HostsOk(p, permits, hosts) && j < |hosts|
    requires h.host == hosts[j].host && StageOk(p, h) && permits' + Busy(h) == permits + Busy(hosts[j])
    ensures HostsOk(p, permits', hosts[j := h])
  {
    TotalUpdate(Busy, hosts, j, h);
  }

  lemma ProbeKeepsStageOk(p: Plan, s: Sweep, j: nat, a: Action)
    requires SweepOk(p, s) && CanMove(p, s, Probe(j, a))
    ensures StageOk(p, Moved(p, s, Probe(j, a)).phase.hosts[j])
  {
    var h := s.phase.hosts[j];
    assert StageOk(p, h);
    ActGroupOk(HostConfig(p, h.host), System(s.now, s.gate, h.stage.group), a);
  }

  lemma HostMoveOk(p: Plan, s: Sweep, m: Move)
    requires SweepOk(p, s) && CanMove(p, s, m) && (m.StartHost? || m.Probe? || m.EndHost?)
    ensures SweepOk(p, Moved(p, s, m))
  {
    var h := s.phase.hosts[m.index];
    var moved := Moved(p, s, m).phase;
    if m.StartHost? {
      NewGroupOk(HostConfig(p, h.host), p.ports);
    } else if m.Probe? {
      ProbeKeepsStageOk(p, s, m.index, m.action);
    } else {
      assert StageOk(p, h);
    }
    StageChangeOk(p, s.phase.permits, s.phase.hosts, m.index, moved.permits, moved.hosts[m.index]);
  }

  lemma MoveOk(p: Plan, s: Sweep, m: Move)
    requires SweepOk(p, s) && CanMove(p, s, m)
    ensures SweepOk(p, Moved(p, s, m))
  {
    match m
    case Discover(a) => ActGroupOk(DiscoveryConfig(p), System(s.now, s.gate, s.phase.group), a);
    case StartScans => StartScansOk(p, s);
    case _ => HostMoveOk(p, s, m);
  }

  lemma {:induction false} RunOk(p: Plan, s: Sweep, es: seq<SweepEvent>)
    requires SweepOk(p, s) && Runs(p, s, es)
    ensures SweepOk(p, Final(p, s, es))
    decreases |es|
  {
    if es != [] {
      if es[0].Step? {
        MoveOk(p, s, es[0].move);
      }
      RunOk(p, After(p, s, es[0]), es[1..]);
    }
  }

  function HostFlying(h: HostScan): nat { if h.stage.Scanning? then InFlightCount(h.stage.group) else 0 }

  /** Port probes in flight, over all hosts. */
  function PortsInFlight(phase: SweepPhase): nat { if phase.Sweeping? then Total(HostFlying, phase.hosts) else 0 }

  function PingsInFlight(phase: SweepPhase): nat { if phase.Discovering? then InFlightCount(phase.group) else 0 }

  lemma {:induction false} TotalScaled<T>(f: T -> nat, g: T -> nat, xs: seq<T>, m: nat)
    requires forall i :: 0 <= i < |xs| ==> f(xs[i]) <= m * g(xs[i])
    ensures Total(f, xs) <= m * Total(g, xs)
  {
    if xs != [] {
      TotalScaled(f, g, xs[1..], m);
      assert m * Total(g, xs) == m * g(xs[0]) + m * Total(g, xs[1..]);
    }
  }

  /** Under every schedule of a whole sweep, host checks and hosts being scanned never exceed the host
      concurrency, and port probes in flight never exceed it times the number of ports. */
  lemma SweepInFlightBound(p: Plan, interval: Option<real>, start: real, es: seq<SweepEvent>)
    requires Runs(p, NewSweep(p, interval, start), es)
    ensures var phase := Final(p, NewSweep(p, interval, start), es).phase;
            && PingsInFlight(phase) <= p.hostConcurrency
            && (phase.Sweeping? ==> Total(Busy, phase.hosts) <= p.hostConcurrency)
            && PortsInFlight(phase) <= p.ports * p.hostConcurrency
  {
    NewSweepOk(p, interval, start);
    RunOk(p, NewSweep(p, interval, start), es);
    var phase := Final(p, NewSweep(p, interval, start), es).phase;
    if phase.Sweeping? {
      forall j | 0 <= j < |phase.hosts| ensures HostFlying(phase.hosts[j]) <= p.ports * Busy(phase.hosts[j]) {
        assert StageOk(p, phase.hosts[j]);
      }
      TotalScaled(HostFlying, Busy, phase.hosts, p.ports);
      Scale(p.ports, Total(Busy, phase.hosts), p.hostConcurrency);
    }
  }

  lemma Scale(m: nat, a: nat, b: nat)
    requires a <= b
    ensures m * a <= m * b
  {
  }

  // ---------------------------------------------------------------------------
  // The shared rate
  // ---------------------------------------------------------------------------

  function HostHeld(t: real): HostScan -> nat { (h: HostScan) => if h.stage.Scanning? then Held(h.stage.group, t) else 0 }

  function AllHeld(phase: SweepPhase, t: real): nat {
    if phase.Discovering? then Held(phase.group, t) else Total(HostHeld(t), phase.hosts)
  }

  ghost predicate AllQueuedOk(s: Sweep) {
    match s.phase
    case Discovering(g) => QueuedOk(s.now, g)
    case Sweeping(_, hosts) =>
      forall j :: 0 <= j < |hosts| ==> hosts[j].stage.Scanning? ==> QueuedOk(s.now, hosts[j].stage.group)
  }

  /** Launches are never ahead of the slots that opened. */
  ghost predicate Balanced(s: Sweep, t: real) {
    Count(s.gate.launches, t) + AllHeld(s.phase, t) <= Count(s.gate.slots, t)
  }

  lemma DoneHoldsNothing(g: Group, t: real)
    requires AllDone(g)
    ensures Held(g, t) == 0
  {
    TotalZero(HoldingBy(t), g.tasks);
  }

  lemma NewHoldsNothing(c: Config, n: nat, t: real)
    ensures Held(NewGroup(c, n), t) == 0
  {
    TotalZero(HoldingBy(t), NewTasks(n));
  }

  lemma HostMoveBalanced(p: Plan, s: Sweep, m: Move, t: real)
    requires CanMove(p, s, m) && (m.StartHost? || m.Probe? || m.EndHost?)
    requires AllQueuedOk(s) && Balanced(s, t)
    ensures AllQueuedOk(Moved(p, s, m)) && Balanced(Moved(p, s, m), t)
  {
    var h := s.phase.hosts[m.index];
    TotalUpdate(HostHeld(t), s.phase.hosts, m.index, Moved(p, s, m).phase.hosts[m.index]);
    if m.StartHost? {
      NewHoldsNothing(HostConfig(p, h.host), p.ports, t);
    } else if m.Probe? {
      ActBalance(HostConfig(p, h.host), System(s.now, s.gate, h.stage.group), m.action, t);
    } else {
      DoneHoldsNothing(h.stage.group, t);
    }
  }

  lemma MoveBalanced(p: Plan, s: Sweep, m: Move, t: real)
    requires CanMove(p, s, m) && AllQueuedOk(s) && Balanced(s, t)
    ensures AllQueuedOk(Moved(p, s, m)) && Balanced(Moved(p, s, m), t)
  {
    match m
    case Discover(a) => ActBalance(DiscoveryConfig(p), System(s.now, s.gate, s.phase.group), a, t);
    case StartScans =>
      DoneHoldsNothing(s.phase.group, t);
      TotalZero(HostHeld(t), Moved(p, s, m).phase.hosts);
    case _ => HostMoveBalanced(p, s, m, t);
  }

  lemma MoveSlotsOk(p: Plan, s: Sweep, m: Move, start: real)
    requires CanMove(p, s, m) && SlotsOk(s.gate, start)
    ensures SlotsOk(Moved(p, s, m).gate, start) && Moved(p, s, m).gate.interval == s.gate.interval
  {
    match m
    case Discover(a) => ActSlotsOk(DiscoveryConfig(p), System(s.now, s.gate, s.phase.group), a, start);
    case Probe(j, a) =>
      ActSlotsOk(HostConfig(p, s.phase.hosts[j].host), System(s.now, s.gate, s.phase.hosts[j].stage.group), a, start);
    case _ =>
  }

  lemma {:induction false} RunBalanced(p: Plan, s: Sweep, es: seq<SweepEvent>, start: real, t: real)
    requires Runs(p, s, es) && AllQueuedOk(s) && Balanced(s, t) && SlotsOk(s.gate, start)
    ensures Balanced(Final(p, s, es), t) && SlotsOk(Final(p, s, es).gate, start)
    ensures Final(p, s, es).gate.interval == s.gate.interval
    decreases |es|
  {
    if es != [] {
      if es[0].Step? {
        MoveBalanced(p, s, es[0].move, t);
        MoveSlotsOk(p, s, es[0].move, start);
      }
      RunBalanced(p, After(p, s, es[0]), es[1..], start, t);
    }
  }

  lemma SweepIntervalBound(p: Plan, interval: real, start: real, es: seq<SweepEvent>, t: real)
    requires interval > 0.0 && t >= start && Runs(p, NewSweep(p, Some(interval), start), es)
    ensures Count(Final(p, NewSweep(p, Some(interval), start), es).gate.launches, t) <= 1 + Intervals(t, start, interval)
  {
    var s := NewSweep(p, Some(interval), start);
    if p.discover {
      NewHoldsNothing(DiscoveryConfig(p), p.candidates, t);
    } else {
      TotalZero(HostHeld(t), s.phase.hosts);
    }
    RunBalanced(p, s, es, start, t);
    LaunchBound(Final(p, s, es).gate, start, t);
  }

  /** Across a whole sweep with one shared limiter, under every schedule, whatever queues for a permit
      and however often ports are retried, at most 1 + floor((t - start) * rate) host checks and port
      probes together are launched by time t. */
  lemma SweepRateBound(p: Plan, rate: real, interval: real, start: real, es: seq<SweepEvent>, t: real)
    requires rate > 0.0 && interval == 1.0 / rate && t >= start
    requires Runs(p, NewSweep(p, Some(interval), start), es)
    ensures Count(Final(p, NewSweep(p, Some(interval), start), es).gate.launches, t) <= 1 + AtRate(t, start, rate)
  {
    SweepIntervalBound(p, interval, start, es, t);
    WholeIntervals(t, start, rate, interval);
  }

  // ---------------------------------------------------------------------------
  // Progress
  // ---------------------------------------------------------------------------

  /** Steps one host can take from idle to reported. */
  function HostBudget(p: Plan): nat { p.ports * (4 * Budget(HostConfig(p, 0))) + 2 }

  function LeftOnHost(p: Plan, h: HostScan): nat {
    match h.stage
    case Idle => HostBudget(p)
    case Scanning(g) => Measure(HostConfig(p, h.host), g) + 1
    case Reported(_) => 0
  }

  function LeftOnHosts(p: Plan): HostScan -> nat { (h: HostScan) => LeftOnHost(p, h) }

  function SweepMeasure(p: Plan, phase: SweepPhase): nat {
    match phase
    case Discovering(g) => Measure(DiscoveryConfig(p), g) + 1 + p.candidates * HostBudget(p)
    case Sweeping(_, hosts) => Total(LeftOnHosts(p), hosts)
  }

  lemma NewGroupMeasure(c: Config, n: nat)
    ensures Measure(c, NewGroup(c, n)) <= n * (4 * Budget(c))
  {
    TotalBound(LeftOf(c), NewTasks(n), 4 * Budget(c));
  }

  lemma IdleMeasure(p: Plan, hosts: seq<nat>)
    ensures Total(LeftOnHosts(p), IdleHosts(hosts)) <= |hosts| * HostBudget(p)
  {
    TotalBound(LeftOnHosts(p), IdleHosts(hosts), HostBudget(p));
  }

  lemma TargetsCount(p: Plan)
    ensures |Targets(p)| <= p.candidates
  {
    UpBelowCount(p, p.candidates);
  }

  lemma HostLeftShrinks(p: Plan, s: Sweep, m: Move)
    requires SweepOk(p, s) && CanMove(p, s, m) && (m.StartHost? || m.Probe? || m.EndHost?)
    ensures LeftOnHost(p, Moved(p, s, m).phase.hosts[m.index]) < LeftOnHost(p, s.phase.hosts[m.index])
  {
    var h := s.phase.hosts[m.index];
    assert StageOk(p, h);
    if m.StartHost? {
      NewGroupMeasure(HostConfig(p, h.host), p.ports);
    } else if m.Probe? {
      ActShrinks(HostConfig(p, h.host), System(s.now, s.gate, h.stage.group), m.action);
    }
  }

  lemma HostMoveShrinks(p: Plan, s: Sweep, m: Move)
    requires SweepOk(p, s) && CanMove(p, s, m) && (m.StartHost? || m.Probe? || m.EndHost?)
    ensures SweepMeasure(p, Moved(p, s, m).phase) < SweepMeasure(p, s.phase)
  {
    HostLeftShrinks(p, s, m);
    TotalUpdate(LeftOnHosts(p), s.phase.hosts, m.index, Moved(p, s, m).phase.hosts[m.index]);
  }

  lemma MoveShrinks(p: Plan, s: Sweep, m: Move)
    requires SweepOk(p, s) && CanMove(p, s, m)
    ensures SweepMeasure(p, Moved(p, s, m).phase) < SweepMeasure(p, s.phase)
  {
    match m
    case Discover(a) => ActShrinks(DiscoveryConfig(p), System(s.now, s.gate, s.phase.group), a);
    case StartScans =>
      StartScansOk(p, s);
      IdleMeasure(p, Targets(p));
      TargetsCount(p);
      Scale(HostBudget(p), |Targets(p)|, p.candidates);
    case _ => HostMoveShrinks(p, s, m);
  }

  function Moves(es: seq<SweepEvent>): nat { if es == [] then 0 else (if es[0].Step? then 1 else 0) + Moves(es[1..]) }

  lemma {:induction false} RunShortens(p: Plan, s: Sweep, es: seq<SweepEvent>)
    requires SweepOk(p, s) && Runs(p, s, es)
    ensures Moves(es) <= SweepMeasure(p, s.phase)
    decreases |es|
  {
    if es != [] {
      if es[0].Step? {
        MoveOk(p, s, es[0].move);
        MoveShrinks(p, s, es[0].move);
      }
      RunShortens(p, After(p, s, es[0]), es[1..]);
    }
  }

  /** No sweep runs forever: four steps to check a candidate, one between the phases, and for each host
      two steps besides four for every attempt allowed on every port. */
  lemma SweepsAreBounded(p: Plan, interval: Option<real>, start: real, es: seq<SweepEvent>)
    requires Runs(p, NewSweep(p, interval, start), es)
    ensures Moves(es) <= p.candidates * 4 + 1 + p.candidates * HostBudget(p)
  {
    NewSweepOk(p, interval, start);
    RunShortens(p, NewSweep(p, interval, start), es);
    if p.discover {
      NewGroupMeasure(DiscoveryConfig(p), p.candidates);
    } else {
      IdleMeasure(p, AllCandidates(p.candidates));
    }
  }

  predicate Finished(phase: SweepPhase) {
    phase.Sweeping? && forall j :: 0 <= j < |phase.hosts| ==> phase.hosts[j].stage.Reported?
  }

  lemma HostCanMove(p: Plan, s: Sweep, j: nat) returns (time: real, m: Move)
    requires SweepOk(p, s) && s.phase.Sweeping? && j < |s.phase.hosts| && s.phase.hosts[j].stage.Scanning?
    ensures time >= 0.0 && CanMove(p, s.(now := s.now + time), m)
  {
    var h := s.phase.hosts[j];
    assert StageOk(p, h);
    time, m := 0.0, EndHost(j);
    if !AllDone(h.stage.group) {
      var a;
      time, a := SomethingCanMove(HostConfig(p, h.host), System(s.now, s.gate, h.stage.group));
      m := Probe(j, a);
    }
  }

  /** With at least one permit a sweep is never stuck: until every host has reported, some step is
      possible, now or once a slot opens. */
  lemma SweepCanMove(p: Plan, s: Sweep) returns (time: real, m: Move)
    requires SweepOk(p, s) && p.hostConcurrency >= 1 && !Finished(s.phase)
    ensures time >= 0.0 && CanMove(p, s.(now := s.now + time), m)
  {
    time := 0.0;
    if s.phase.Discovering? {
      m := StartScans;
      if !AllDone(s.phase.group) {
        var a;
        time, a := SomethingCanMove(DiscoveryConfig(p), System(s.now, s.gate, s.phase.group));
        m := Discover(a);
      }
    } else {
      var j :| 0 <= j < |s.phase.hosts| && !s.phase.hosts[j].stage.Reported?;
      if s.phase.hosts[j].stage.Scanning? {
        time, m := HostCanMove(p, s, j);
      } else if s.phase.permits > 0 {
        m := StartHost(j);
      } else {
        TotalZero(Busy, s.phase.hosts);
        var k :| 0 <= k < |s.phase.hosts| && Busy(s.phase.hosts[k]) != 0;
        time, m := HostCanMove(p, s, k);
      }
    }
  }

  lemma RunsAfterWaiting(p: Plan, s: Sweep, time: real, m: Move, rest: seq<SweepEvent>)
    requires time >= 0.0 && CanMove(p, s.(now := s.now + time), m)
    requires Runs(p, Moved(p, s.(now := s.now + time), m), rest)
    ensures Runs(p, s, [Wait(time), Step(m)] + rest)
    ensures Final(p, s, [Wait(time), Step(m)] + rest) == Final(p, Moved(p, s.(now := s.now + time), m), rest)
  {
    var later := s.(now := s.now + time);
    var es: seq<SweepEvent> := [Wait(time), Step(m)] + rest;
    assert es[1..] == [Step(m)] + rest && es[1..][1..] == rest;
    assert After(p, s, es[0]) == later && After(p, later, es[1..][0]) == Moved(p, later, m);
    assert Runs(p, later, es[1..]);
  }

  /** From every reachable state some run finishes the sweep. */
  lemma {:induction false} SweepCanFinish(p: Plan, s: Sweep) returns (es: seq<SweepEvent>)
    requires SweepOk(p, s) && p.hostConcurrency >= 1
    ensures Runs(p, s, es) && Finished(Final(p, s, es).phase)
    decreases SweepMeasure(p, s.phase)
  {
    if Finished(s.phase) {
      es := [];
    } else {
      var time, m := SweepCanMove(p, s);
      var later := s.(now := s.now + time);
      MoveOk(p, later, m);
      MoveShrinks(p, later, m);
      var rest := SweepCanFinish(p, Moved(p, later, m));
      RunsAfterWaiting(p, s, time, m, rest);
      es := [Wait(time), Step(m)] + rest;
    }
  }

  /** No permit, and somebody to check or to scan. */
  ghost predicate Stuck(p: Plan, s: Sweep) {
    match s.phase
    case Discovering(g) =>
      GroupOk(DiscoveryConfig(p), g) && g.tasks != [] && forall i :: 0 <= i < |g.tasks| ==> !g.tasks[i].phase.Done?
    case Sweeping(permits, hosts) => permits == 0 && hosts != [] && forall j :: 0 <= j < |hosts| ==> hosts[j].stage.Idle?
  }

  lemma SomebodyLeft(g: Group)
    requires g.tasks != [] && forall i :: 0 <= i < |g.tasks| ==> !g.tasks[i].phase.Done?
    ensures !AllDone(g)
  {
    assert !g.tasks[0].phase.Done?;
  }

  lemma MoveStuck(p: Plan, s: Sweep, m: Move)
    requires p.hostConcurrency == 0 && Stuck(p, s) && CanMove(p, s, m)
    ensures Stuck(p, Moved(p, s, m))
  {
    if m.Discover? {
      ActGroupOk(DiscoveryConfig(p), System(s.now, s.gate, s.phase.group), m.action);
      TotalZero(Flying, s.phase.group.tasks);
      assert Flying(s.phase.group.tasks[m.action.task]) == 0;
    } else if m.StartScans? {
      SomebodyLeft(s.phase.group);
    }
  }

  lemma {:induction false} RunStuck(p: Plan, s: Sweep, es: seq<SweepEvent>)
    requires p.hostConcurrency == 0 && Stuck(p, s) && Runs(p, s, es)
    ensures Stuck(p, Final(p, s, es))
    decreases |es|
  {
    if es != [] {
      if es[0].Step? {
        MoveStuck(p, s, es[0].move);
      }
      RunStuck(p, After(p, s, es[0]), es[1..]);
    }
  }

  ghost predicate FinishesBy(p: Plan, s: Sweep, es: seq<SweepEvent>) { Runs(p, s, es) && Finished(Final(p, s, es).phase) }

  /** A sweep can finish exactly when it has a permit for a host, or no host to check or scan. */
  lemma SweepFinishesExactly(p: Plan, interval: Option<real>, start: real)
    ensures (exists es :: FinishesBy(p, NewSweep(p, interval, start), es))
       <==> p.hostConcurrency >= 1 || p.candidates == 0
  {
    var s := NewSweep(p, interval, start);
    NewSweepOk(p, interval, start);
    if p.hostConcurrency >= 1 {
      var es := SweepCanFinish(p, s);
      assert FinishesBy(p, s, es);
    } else if p.candidates == 0 {
      var es := NothingToDo(p, s);
      assert FinishesBy(p, s, es);
    } else {
      forall es | Runs(p, s, es) ensures !FinishesBy(p, s, es) {
        RunStuck(p, s, es);
        var phase := Final(p, s, es).phase;
        if phase.Sweeping? {
          assert phase.hosts[0].stage.Idle?;
        }
      }
    }
  }

  lemma NothingToDo(p: Plan, s: Sweep) returns (es: seq<SweepEvent>)
    requires SweepOk(p, s) && p.candidates == 0
    requires s.phase.Sweeping? ==> s.phase.hosts == []
    ensures Runs(p, s, es) && Finished(Final(p, s, es).phase)
  {
    if s.phase.Sweeping? {
      es := [];
    } else {
      var t := Moved(p, s, StartScans);
      es := [Step(StartScans)];
      assert es[1..] == [] && After(p, s, es[0]) == t && Final(p, t, []) == t;
      assert t.phase.hosts == [];
    }
  }

  // ---------------------------------------------------------------------------
  // The report
  // ---------------------------------------------------------------------------

  datatype HostReport = HostReport(host: nat, ports: seq<PortResult>)

  datatype NetworkReport = NetworkReport(hosts: seq<HostReport>, totalCandidates: nat, upCount: nat)

  /** `rank` orders candidates by the text of their addresses. */
  function RankOf(rank: nat -> int): HostReport -> int { (r: HostReport) => rank(r.host) }

  ghost predicate Answerable(p: Plan, hosts: seq<HostScan>) {
    forall j :: 0 <= j < |hosts| ==>
      && hosts[j].stage.Reported? && |hosts[j].stage.tasks| == p.ports
      && forall i :: 0 <= i < p.ports ==> hosts[j].stage.tasks[i].replies != []
  }

  /** One host's report: its gathered results, sorted by port. */
  function HostReported(fingerprint: Fingerprint, ports: seq<int>, host: nat, tasks: seq<Task>): HostReport
    requires |tasks| == |ports| && forall i :: 0 <= i < |tasks| ==> tasks[i].replies != []
  {
    HostReport(host, SortBy(PortOf, Gathered(fingerprint, ports, tasks)))
  }

  ghost function HostReports(fingerprint: Fingerprint, p: Plan, ports: seq<int>, hosts: seq<HostScan>): (rs: seq<HostReport>)
    requires p.ports == |ports| && Answerable(p, hosts)
    ensures |rs| == |hosts|
    ensures forall j :: 0 <= j < |rs| ==> rs[j] == HostReported(fingerprint, ports, hosts[j].host, hosts[j].stage.tasks)
  {
    seq(|hosts|, j requires 0 <= j < |hosts| =>
      HostReported(fingerprint, ports, hosts[j].host, hosts[j].stage.tasks))
  }

  /** The report a finished sweep emits. */
  ghost function Emitted(fingerprint: Fingerprint, rank: nat -> int, p: Plan, ports: seq<int>, hosts: seq<HostScan>): NetworkReport
    requires p.ports == |ports| && Answerable(p, hosts)
  {
    NetworkReport(SortBy(RankOf(rank), HostReports(fingerprint, p, ports, hosts)), p.candidates, |hosts|)
  }

  /** The same report read off the oracles alone. */
  function ExpectedHosts(fingerprint: Fingerprint, p: Plan, ports: seq<int>, targets: seq<nat>): (rs: seq<HostReport>)
    ensures |rs| == |targets|
    ensures forall j :: 0 <= j < |rs| ==> rs[j] == HostReport(targets[j], Report(fingerprint, HostConfig(p, targets[j]), ports))
  {
    seq(|targets|, j requires 0 <= j < |targets| =>
      HostReport(targets[j], Report(fingerprint, HostConfig(p, targets[j]), ports)))
  }

  function ExpectedReport(fingerprint: Fingerprint, rank: nat -> int, p: Plan, ports: seq<int>): NetworkReport {
    NetworkReport(SortBy(RankOf(rank), ExpectedHosts(fingerprint, p, ports, Targets(p))), p.candidates, |Targets(p)|)
  }

  lemma HostSettles(fingerprint: Fingerprint, c: Config, ports: seq<int>, host: nat, tasks: seq<Task>)
    requires |tasks| == |ports|
    requires forall i :: 0 <= i < |tasks| ==> tasks[i].phase.Done? && TaskOk(c, i, tasks[i])
    ensures forall i :: 0 <= i < |tasks| ==> tasks[i].replies != []
    ensures HostReported(fingerprint, ports, host, tasks) == HostReport(host, Report(fingerprint, c, ports))
  {
    forall i | 0 <= i < |tasks| ensures tasks[i].replies != [] && LastReply(tasks[i]) == Settled(c, i) {
      SettledAtIs(c, i, tasks[i], 0);
    }
    assert Gathered(fingerprint, ports, tasks) == Expected(fingerprint, c, ports);
  }

  /** Every finished sweep, however its hosts and probes were interleaved, emits one and the same
      report: exactly the hosts that are up, each with what the sequential retry loop finds on it. */
  lemma EveryScheduleSameSweep(fingerprint: Fingerprint, rank: nat -> int, p: Plan, ports: seq<int>,
                               interval: Option<real>, start: real, es: seq<SweepEvent>)
    requires p.ports == |ports| && Runs(p, NewSweep(p, interval, start), es)
    requires Finished(Final(p, NewSweep(p, interval, start), es).phase)
    ensures var hosts := Final(p, NewSweep(p, interval, start), es).phase.hosts;
            && Answerable(p, hosts)
            && Emitted(fingerprint, rank, p, ports, hosts) == ExpectedReport(fingerprint, rank, p, ports)
  {
    NewSweepOk(p, interval, start);
    RunOk(p, NewSweep(p, interval, start), es);
    var hosts := Final(p, NewSweep(p, interval, start), es).phase.hosts;
    forall j | 0 <= j < |hosts|
      ensures hosts[j].stage.Reported? && hosts[j].host == Targets(p)[j] && |hosts[j].stage.tasks| == p.ports
      ensures forall i :: 0 <= i < p.ports ==> hosts[j].stage.tasks[i].replies != []
      ensures HostReported(fingerprint, ports, hosts[j].host, hosts[j].stage.tasks)
           == HostReport(Targets(p)[j], Report(fingerprint, HostConfig(p, Targets(p)[j]), ports))
    {
      assert StageOk(p, hosts[j]);
      HostSettles(fingerprint, HostConfig(p, hosts[j].host), ports, hosts[j].host, hosts[j].stage.tasks);
    }
    assert HostReports(fingerprint, p, ports, hosts) == ExpectedHosts(fingerprint, p, ports, Targets(p));
  }
}
