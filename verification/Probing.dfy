/** A group of probe tasks under one semaphore and a shared rate gate, as a step system.

    A task takes a slot from the gate, sleeps until the slot opens, takes a permit, probes, gives
    the permit back, and starts over while the answer says nothing and retries are left. Which task
    moves next, and how long anything takes, is arbitrary; what a probe answers is an oracle's. */
module Probing {
  import opened Wrappers
  import opened Rate

  datatype PortState = Open | Closed | Filtered | OpenFiltered | Unknown

  predicate Inconclusive(s: PortState) { s == Filtered || s == OpenFiltered }

  datatype Reply = Reply(state: PortState, service: Option<string>, banner: Option<string>)

  /** The limiter: its interval if there is one, when the next slot opens, and a log of the slots it
      gave out and of the times probes were launched. */
  datatype Gate = Gate(interval: Option<real>, next: real, slots: seq<real>, launches: seq<real>)

  datatype Phase = Waiting | Sleeping(until: real) | Queued(slot: real) | InFlight | Done

  datatype Task = Task(phase: Phase, replies: seq<Reply>)

  datatype Group = Group(permits: nat, tasks: seq<Task>)

  /** `oracle(i, k)` is the answer to attempt k of task i. */
  datatype Config = Config(concurrency: nat, retries: int, oracle: (nat, nat) -> Reply)

  datatype System = System(now: real, gate: Gate, group: Group)

  datatype Action = Reserve(task: nat) | Wake(task: nat) | Enter(task: nat) | Answer(task: nat)

  datatype Event = Do(action: Action) | Pass(time: real)

  /** Attempts a task may make: one, and a retransmission for each retry. */
  function Budget(c: Config): (n: nat)
    ensures n >= 1
  {
    1 + if c.retries > 0 then c.retries else 0
  }

  // ---------------------------------------------------------------------------
  // Steps
  // ---------------------------------------------------------------------------

  predicate Enabled(s: System, a: Action) {
    a.task < |s.group.tasks| &&
    var phase := s.group.tasks[a.task].phase;
    match a
    case Reserve(_) => phase.Waiting?
    case Wake(_) => phase.Sleeping? && phase.until <= s.now
    case Enter(_) => phase.Queued? && s.group.permits > 0
    case Answer(_) => phase.InFlight?
  }

  /** The slot a reservation made now gets. */
  function SlotNow(g: Gate, now: real): real { if g.interval.None? then now else Later(g.next, now) }

  function Reserved(g: Gate, now: real): Gate {
    var slot := SlotNow(g, now);
    g.(next := if g.interval.None? then g.next else slot + g.interval.value, slots := g.slots + [slot])
  }

  function Answered(c: Config, i: nat, t: Task): Task {
    var replies := t.replies + [c.oracle(i, |t.replies|)];
    var more := Inconclusive(replies[|t.replies|].state) && |replies| < Budget(c);
    Task(if more then Waiting else Done, replies)
  }

  function MovedTask(c: Config, s: System, a: Action): Task
    requires Enabled(s, a)
  {
    var t := s.group.tasks[a.task];
    match a
    case Reserve(_) =>
      var slot := SlotNow(s.gate, s.now);
      t.(phase := if slot > s.now then Sleeping(slot) else Queued(slot))
    case Wake(_) => t.(phase := Queued(t.phase.until))
    case Enter(_) => t.(phase := InFlight)
    case Answer(i) => Answered(c, i, t)
  }

  function Act(c: Config, s: System, a: Action): System
    requires Enabled(s, a)
  {
    var gate :=
      match a
      case Reserve(_) => Reserved(s.gate, s.now)
      case Enter(_) => s.gate.(launches := s.gate.launches + [s.now])
      case _ => s.gate;
    var permits: nat :=
      match a
      case Enter(_) => s.group.permits - 1
      case Answer(_) => s.group.permits + 1
      case _ => s.group.permits;
    System(s.now, gate, Group(permits, s.group.tasks[a.task := MovedTask(c, s, a)]))
  }

  predicate Possible(s: System, e: Event) {
    match e
    case Do(a) => Enabled(s, a)
    case Pass(time) => time >= 0.0
  }

  function After(c: Config, s: System, e: Event): System
    requires Possible(s, e)
  {
    match e
    case Do(a) => Act(c, s, a)
    case Pass(time) => s.(now := s.now + time)
  }

  /** A run: every event possible when it happens. */
  predicate Runs(c: Config, s: System, es: seq<Event>)
    decreases |es|
  {
    es == [] || (Possible(s, es[0]) && Runs(c, After(c, s, es[0]), es[1..]))
  }

  function Final(c: Config, s: System, es: seq<Event>): System
    requires Runs(c, s, es)
    decreases |es|
  {
    if es == [] then s else Final(c, After(c, s, es[0]), es[1..])
  }

  function NewTasks(n: nat): (tasks: seq<Task>)
    ensures |tasks| == n && forall i :: 0 <= i < n ==> tasks[i] == Task(Waiting, [])
  {
    seq(n, _ => Task(Waiting, []))
  }

  function NewGroup(c: Config, n: nat): Group { Group(c.concurrency, NewTasks(n)) }

  predicate AllDone(g: Group) { forall i :: 0 <= i < |g.tasks| ==> g.tasks[i].phase.Done? }

  // ---------------------------------------------------------------------------
  // Sums over tasks
  // ---------------------------------------------------------------------------

  function Total<T>(f: T -> nat, xs: seq<T>): nat { if xs == [] then 0 else f(xs[0]) + Total(f, xs[1..]) }

  lemma {:induction false} TotalUpdate<T>(f: T -> nat, xs: seq<T>, i: nat, x: T)
    requires i < |xs|
    ensures Total(f, xs[i := x]) + f(xs[i]) == Total(f, xs) + f(x)
  {
    if i == 0 {
      assert xs[0 := x][1..] == xs[1..];
    } else {
      TotalUpdate(f, xs[1..], i - 1, x);
      assert xs[i := x][1..] == xs[1..][i - 1 := x];
    }
  }

  lemma {:induction false} TotalBound<T>(f: T -> nat, xs: seq<T>, most: nat)
    requires forall i :: 0 <= i < |xs| ==> f(xs[i]) <= most
    ensures Total(f, xs) <= |xs| * most
  {
    if xs != [] {
      TotalBound(f, xs[1..], most);
      assert |xs| * most == |xs[1..]| * most + most;
    }
  }

  lemma {:induction false} TotalZero<T>(f: T -> nat, xs: seq<T>)
    ensures Total(f, xs) == 0 <==> forall i :: 0 <= i < |xs| ==> f(xs[i]) == 0
  {
    if xs != [] {
      TotalZero(f, xs[1..]);
      assert forall i :: 0 < i < |xs| ==> xs[i] == xs[1..][i - 1];
    }
  }

  // ---------------------------------------------------------------------------
  // The semaphore and the retry loop
  // ---------------------------------------------------------------------------

  function Flying(t: Task): nat { if t.phase.InFlight? then 1 else 0 }

  function InFlightCount(g: Group): nat { Total(Flying, g.tasks) }

  /** The attempts a task has launched. */
  function Attempts(t: Task): nat { |t.replies| + Flying(t) }

  /** What the retry loop has made of task i so far. */
  ghost predicate TaskOk(c: Config, i: nat, t: Task) {
    && (forall k: nat :: k < |t.replies| ==> t.replies[k] == c.oracle(i, k))
    && (forall k: nat :: k + 1 < |t.replies| ==> Inconclusive(t.replies[k].state))
    && (if t.phase.Done?
        then 1 <= |t.replies| <= Budget(c)
          && (!Inconclusive(t.replies[|t.replies| - 1].state) || |t.replies| == Budget(c))
        else |t.replies| < Budget(c) && (t.replies != [] ==> Inconclusive(t.replies[|t.replies| - 1].state)))
  }

  ghost predicate GroupOk(c: Config, g: Group) {
    && g.permits + InFlightCount(g) == c.concurrency
    && forall i :: 0 <= i < |g.tasks| ==> TaskOk(c, i, g.tasks[i])
  }

  lemma NewGroupOk(c: Config, n: nat)
    ensures GroupOk(c, NewGroup(c, n))
  {
    TotalZero(Flying, NewTasks(n));
  }

  lemma ActTaskOk(c: Config, s: System, a: Action)
    requires Enabled(s, a) && TaskOk(c, a.task, s.group.tasks[a.task])
    ensures TaskOk(c, a.task, MovedTask(c, s, a))
  {
  }

  lemma ActGroupOk(c: Config, s: System, a: Action)
    requires Enabled(s, a) && GroupOk(c, s.group)
    ensures GroupOk(c, Act(c, s, a).group)
  {
    ActTaskOk(c, s, a);
    TotalUpdate(Flying, s.group.tasks, a.task, MovedTask(c, s, a));
  }

  lemma {:induction false} RunGroupOk(c: Config, s: System, es: seq<Event>)
    requires Runs(c, s, es) && GroupOk(c, s.group)
    ensures GroupOk(c, Final(c, s, es).group) && |Final(c, s, es).group.tasks| == |s.group.tasks|
    decreases |es|
  {
    if es != [] {
      if es[0].Do? {
        ActGroupOk(c, s, es[0].action);
      }
      RunGroupOk(c, After(c, s, es[0]), es[1..]);
    }
  }

  // ---------------------------------------------------------------------------
  // What a task tried
  // ---------------------------------------------------------------------------

  /** A whole retry loop: silence, filtered or open|filtered, is asked again, up to `retries` times;
      any other answer is not. */
  predicate Retried(retries: int, replies: seq<Reply>) {
    var most := if retries > 0 then 1 + retries else 1;
    && 1 <= |replies| <= most
    && (forall k :: 0 <= k < |replies| - 1 ==> replies[k].state == Filtered || replies[k].state == OpenFiltered)
    && (|replies| < most ==> replies[|replies| - 1].state in {Open, Closed, Unknown})
  }

  /** A retry loop that has to ask again. */
  predicate Retrying(retries: int, replies: seq<Reply>) {
    && (replies != [] ==> |replies| <= retries)
    && forall k :: 0 <= k < |replies| ==> replies[k].state == Filtered || replies[k].state == OpenFiltered
  }

  /** The answers to the first attempts of task i, in order. */
  ghost predicate AnswersOf(oracle: (nat, nat) -> Reply, i: nat, replies: seq<Reply>) {
    forall k: nat :: k < |replies| ==> replies[k] == oracle(i, k)
  }

  /** The same answers make for one whole retry loop only. */
  lemma RetriedOnce(retries: int, a: seq<Reply>, b: seq<Reply>)
    requires Retried(retries, a) && Retried(retries, b) && forall k :: 0 <= k < |a| && k < |b| ==> a[k] == b[k]
    ensures a == b
  {
    assert |a| <= |b| ==> a[|a| - 1] == b[|a| - 1];
    assert |b| <= |a| ==> a[|b| - 1] == b[|b| - 1];
  }

  lemma TaskTried(c: Config, i: nat, t: Task)
    requires TaskOk(c, i, t)
    ensures AnswersOf(c.oracle, i, t.replies)
    ensures if t.phase.Done? then Retried(c.retries, t.replies) else Retrying(c.retries, t.replies)
  {
    if t.phase.Done? {
      forall k | 0 <= k < |t.replies| - 1 ensures Inconclusive(t.replies[k].state) {
        assert k + 1 < |t.replies|;
      }
    }
  }

  /** Under every interleaving: never more probes in flight than permits; and a task asks again after a
      filtered or open|filtered answer while retransmissions are left, and after no other, so that when it
      is done its last answer is the first one that is neither, or the last one allowed. */
  lemma EveryInterleaving(c: Config, s: System, n: nat, es: seq<Event>)
    requires s.group == NewGroup(c, n) && Runs(c, s, es)
    ensures var g := Final(c, s, es).group;
            && InFlightCount(g) <= c.concurrency && |g.tasks| == n
            && forall i :: 0 <= i < n ==>
                 && TaskOk(c, i, g.tasks[i]) && Attempts(g.tasks[i]) <= Budget(c)
                 && AnswersOf(c.oracle, i, g.tasks[i].replies)
                 && if g.tasks[i].phase.Done? then Retried(c.retries, g.tasks[i].replies)
                    else Retrying(c.retries, g.tasks[i].replies)
  {
    NewGroupOk(c, n);
    RunGroupOk(c, s, es);
    var g := Final(c, s, es).group;
    forall i | 0 <= i < n
      ensures AnswersOf(c.oracle, i, g.tasks[i].replies)
      ensures if g.tasks[i].phase.Done? then Retried(c.retries, g.tasks[i].replies) else Retrying(c.retries, g.tasks[i].replies)
    {
      TaskTried(c, i, g.tasks[i]);
    }
  }

  // ---------------------------------------------------------------------------
  // What a task settles on
  // ---------------------------------------------------------------------------

  /** The attempt the retry loop stops at, read off the oracle alone. */
  function SettledAt(c: Config, i: nat, k: nat): nat
    requires k < Budget(c)
    decreases Budget(c) - k
  {
    if !Inconclusive(c.oracle(i, k).state) || k + 1 == Budget(c) then k else SettledAt(c, i, k + 1)
  }

  lemma {:induction false} SettledAtIs(c: Config, i: nat, t: Task, k: nat)
    requires TaskOk(c, i, t) && t.phase.Done? && k < |t.replies|
    ensures SettledAt(c, i, k) == |t.replies| - 1
    decreases |t.replies| - k
  {
    assert t.replies[k] == c.oracle(i, k);
    if k + 1 < |t.replies| {
      SettledAtIs(c, i, t, k + 1);
    }
  }

  /** The answer task i ends with, however the tasks were scheduled. */
  function Settled(c: Config, i: nat): Reply { c.oracle(i, SettledAt(c, i, 0)) }

  function LastReply(t: Task): Reply
    requires t.replies != []
  {
    t.replies[|t.replies| - 1]
  }

  /** The sequential retry loop for one port. */
  method Bounded(c: Config, i: nat) returns (result: Reply)
    ensures result == Settled(c, i)
    ensures exists replies :: Retried(c.retries, replies) && AnswersOf(c.oracle, i, replies) && result == replies[|replies| - 1]
  {
    result := c.oracle(i, 0);
    var k := 0;
    ghost var replies := [result];
    while k < c.retries && Inconclusive(result.state)
      invariant k < Budget(c) && result == c.oracle(i, k) && SettledAt(c, i, 0) == SettledAt(c, i, k)
      invariant |replies| == k + 1 && replies[k] == result && AnswersOf(c.oracle, i, replies)
      invariant Retrying(c.retries, replies[..k])
      decreases c.retries - k
    {
      assert replies == replies[..k] + [result];
      k := k + 1;
      result := c.oracle(i, k);
      replies := replies + [result];
      assert replies[..k] == replies[..k - 1] + [replies[k - 1]];
    }
    assert Retried(c.retries, replies);
  }

  /** Every complete run ends with the same answers as the sequential loop: the schedule never shows. */
  lemma ScheduleIrrelevant(c: Config, s: System, n: nat, es: seq<Event>, i: nat)
    requires s.group == NewGroup(c, n) && Runs(c, s, es) && AllDone(Final(c, s, es).group) && i < n
    ensures var t := Final(c, s, es).group.tasks;
            i < |t| && t[i].replies != [] && LastReply(t[i]) == Settled(c, i)
  {
    EveryInterleaving(c, s, n, es);
    SettledAtIs(c, i, Final(c, s, es).group.tasks[i], 0);
  }

  // ---------------------------------------------------------------------------
  // Progress
  // ---------------------------------------------------------------------------

  /** Steps a task can still take. */
  function Left(c: Config, t: Task): nat {
    var attempts: nat := if |t.replies| < Budget(c) then Budget(c) - |t.replies| else 1;
    match t.phase
    case Waiting => 4 * attempts
    case Sleeping(_) => 4 * attempts - 1
    case Queued(_) => 4 * attempts - 2
    case InFlight => 4 * attempts - 3
    case Done => 0
  }

  function LeftOf(c: Config): Task -> nat { t => Left(c, t) }

  function Measure(c: Config, g: Group): nat { Total(LeftOf(c), g.tasks) }

  lemma TaskShrinks(c: Config, s: System, a: Action)
    requires Enabled(s, a) && TaskOk(c, a.task, s.group.tasks[a.task])
    ensures Left(c, MovedTask(c, s, a)) < Left(c, s.group.tasks[a.task])
  {
  }

  /** Every step takes something off the measure; the passing of time does not add to it. */
  lemma ActShrinks(c: Config, s: System, a: Action)
    requires Enabled(s, a) && GroupOk(c, s.group)
    ensures Measure(c, Act(c, s, a).group) < Measure(c, s.group)
  {
    TaskShrinks(c, s, a);
    TotalUpdate(LeftOf(c), s.group.tasks, a.task, MovedTask(c, s, a));
  }

  function Steps(es: seq<Event>): nat { if es == [] then 0 else (if es[0].Do? then 1 else 0) + Steps(es[1..]) }

  lemma {:induction false} RunShrinks(c: Config, s: System, es: seq<Event>)
    requires Runs(c, s, es) && GroupOk(c, s.group)
    ensures Steps(es) + Measure(c, Final(c, s, es).group) <= Measure(c, s.group)
    decreases |es|
  {
    if es != [] {
      if es[0].Do? {
        ActShrinks(c, s, es[0].action);
        ActGroupOk(c, s, es[0].action);
      }
      RunShrinks(c, After(c, s, es[0]), es[1..]);
    }
  }

  /** No run of n tasks takes more than four steps per allowed attempt. */
  lemma RunsAreBounded(c: Config, s: System, n: nat, es: seq<Event>)
    requires s.group == NewGroup(c, n) && Runs(c, s, es)
    ensures Steps(es) <= n * (4 * Budget(c))
  {
    NewGroupOk(c, n);
    RunShrinks(c, s, es);
    TotalBound(LeftOf(c), NewTasks(n), 4 * Budget(c));
  }

  /** While anything is unfinished, some task can move, now or once a slot opens. */
  lemma SomethingCanMove(c: Config, s: System) returns (time: real, a: Action)
    requires GroupOk(c, s.group) && c.concurrency >= 1 && !AllDone(s.group)
    ensures time >= 0.0 && Enabled(s.(now := s.now + time), a)
  {
    var i :| 0 <= i < |s.group.tasks| && !s.group.tasks[i].phase.Done?;
    time := 0.0;
    match s.group.tasks[i].phase
    case Waiting => a := Reserve(i);
    case Sleeping(until) =>
      a := Wake(i);
      if until > s.now {
        time := until - s.now;
      }
    case InFlight => a := Answer(i);
    case Queued(_) =>
      if s.group.permits > 0 {
        a := Enter(i);
      } else {
        TotalZero(Flying, s.group.tasks);
        var j :| 0 <= j < |s.group.tasks| && Flying(s.group.tasks[j]) != 0;
        a := Answer(j);
      }
  }

  /** From every reachable state some run finishes every task. */
  lemma {:induction false} CanFinish(c: Config, s: System) returns (es: seq<Event>)
    requires GroupOk(c, s.group) && c.concurrency >= 1
    ensures Runs(c, s, es) && AllDone(Final(c, s, es).group)
    decreases Measure(c, s.group)
  {
    if AllDone(s.group) {
      es := [];
    } else {
      var time, a := SomethingCanMove(c, s);
      var later := s.(now := s.now + time);
      ActShrinks(c, later, a);
      ActGroupOk(c, later, a);
      var rest := CanFinish(c, Act(c, later, a));
      es := [Pass(time), Do(a)] + rest;
      assert es[1..] == [Do(a)] + rest && es[1..][1..] == rest;
      assert After(c, s, es[0]) == later && After(c, later, es[1..][0]) == Act(c, later, a);
      assert Runs(c, later, es[1..]) && Final(c, later, es[1..]) == Final(c, Act(c, later, a), rest);
    }
  }

  /** With no permits at all nothing is ever launched, so a group of tasks never finishes: one
      permit is exactly what it takes. */
  lemma NoPermitsNoProgress(c: Config, s: System, n: nat, es: seq<Event>)
    requires s.group == NewGroup(c, n) && Runs(c, s, es) && c.concurrency == 0
    ensures AllDone(Final(c, s, es).group) <==> n == 0
  {
    NewGroupOk(c, n);
    RunGroupOk(c, s, es);
    NeverLaunched(c, s, es);
  }

  lemma {:induction false} NeverLaunched(c: Config, s: System, es: seq<Event>)
    requires Runs(c, s, es) && GroupOk(c, s.group) && c.concurrency == 0
    requires forall i :: 0 <= i < |s.group.tasks| ==> !s.group.tasks[i].phase.Done?
    ensures forall i :: 0 <= i < |Final(c, s, es).group.tasks| ==> !Final(c, s, es).group.tasks[i].phase.Done?
    decreases |es|
  {
    if es != [] {
      TotalZero(Flying, s.group.tasks);
      if es[0].Do? {
        ActGroupOk(c, s, es[0].action);
        assert InFlightCount(s.group) == 0;
        assert Flying(s.group.tasks[es[0].action.task]) == 0;
      }
      var next := After(c, s, es[0]);
      NeverLaunched(c, next, es[1..]);
      assert Final(c, s, es) == Final(c, next, es[1..]);
    }
  }
}
