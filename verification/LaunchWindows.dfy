/** Launches in a window of time: when the pacer's window bound carries over from slots to launches. */
module LaunchWindows {
  import opened Wrappers
  import opened Rate
  import opened Probing
  import opened Pacing
  import opened Schedules

  // ---------------------------------------------------------------------------
  // The first launch stands alone
  // ---------------------------------------------------------------------------

  /** The slot a task is waiting for or on. */
  predicate NotBefore(t: Task, from: real) {
    match t.phase
    case Sleeping(until) => until >= from
    case Queued(slot) => slot >= from
    case _ => true
  }

  /** Nothing reserved yet; or the first slot taken and its task queuing before a free permit; or the
      first probe launched on its slot, and everything else an interval later. */
  ghost predicate Opening(s: System, interval: real) {
    && s.gate.interval == Some(interval) && interval > 0.0 && QueuedOk(s.now, s.group)
    && if s.gate.slots == [] then
         s.gate.launches == [] && s.gate.next <= s.now && s.group.permits > 0 && AllWaiting(s.group)
       else if s.gate.launches == [] then
         && s.group.permits > 0 && s.gate.slots[0] == s.now && s.gate.next >= s.now + interval
         && exists i :: 0 <= i < |s.group.tasks| && FirstInLine(s, interval, i)
       else
         && s.gate.next >= s.gate.launches[0] + interval
         && (forall k :: 1 <= k < |s.gate.launches| ==> s.gate.launches[k] >= s.gate.launches[0] + interval)
         && forall i :: 0 <= i < |s.group.tasks| ==> NotBefore(s.group.tasks[i], s.gate.launches[0] + interval)
  }

  predicate AllWaiting(g: Group) { forall i :: 0 <= i < |g.tasks| ==> g.tasks[i].phase.Waiting? }

  /** Task i queues on this instant's slot; the others wait for a slot, or sleep till one later on. */
  predicate FirstInLine(s: System, interval: real, i: nat)
    requires i < |s.group.tasks|
  {
    && s.group.tasks[i].phase == Queued(s.now)
    && forall k :: 0 <= k < |s.group.tasks| && k != i ==>
         var phase := s.group.tasks[k].phase;
         phase.Waiting? || (phase.Sleeping? && phase.until >= s.now + interval)
  }

  lemma ActOpeningFirst(c: Config, s: System, a: Action, interval: real)
    requires Enabled(s, a) && Opening(s, interval) && s.gate.slots == []
    ensures Opening(Act(c, s, a), interval)
  {
    assert a.Reserve?;
    assert FirstInLine(Act(c, s, a), interval, a.task);
  }

  lemma ActOpeningSecond(c: Config, s: System, a: Action, interval: real, i: nat)
    requires Enabled(s, a) && Opening(s, interval) && s.gate.slots != [] && s.gate.launches == []
    requires i < |s.group.tasks| && FirstInLine(s, interval, i)
    ensures Opening(Act(c, s, a), interval)
  {
    var t := Act(c, s, a);
    if a.task == i {
      assert a.Enter?;
      assert t.gate.launches == [s.now];
    } else {
      assert a.Reserve?;
      assert FirstInLine(t, interval, i);
    }
  }

  lemma ActOpeningThird(c: Config, s: System, a: Action, interval: real)
    requires Enabled(s, a) && Opening(s, interval) && s.gate.slots != [] && s.gate.launches != []
    ensures Opening(Act(c, s, a), interval)
  {
    var t, from := Act(c, s, a), s.gate.launches[0] + interval;
    assert t.gate.launches[0] == s.gate.launches[0];
    assert NotBefore(t.group.tasks[a.task], from);
  }

  lemma StepOpening(c: Config, s: System, e: Event, interval: real)
    requires Possible(s, e) && Keeps(Taken, s, e) && Opening(s, interval)
    ensures Opening(After(c, s, e), interval)
  {
    if e.Do? {
      if s.gate.slots == [] {
        ActOpeningFirst(c, s, e.action, interval);
      } else if s.gate.launches == [] {
        var i :| 0 <= i < |s.group.tasks| && FirstInLine(s, interval, i);
        ActOpeningSecond(c, s, e.action, interval, i);
      } else {
        ActOpeningThird(c, s, e.action, interval);
      }
    } else if s.gate.slots != [] && s.gate.launches == [] {
      assert e.time == 0.0;
    }
  }

  lemma {:induction false} RunOpening(c: Config, s: System, es: seq<Event>, interval: real)
    requires Runs(c, s, es) && AllKeep(Taken, c, s, es) && Opening(s, interval)
    ensures Opening(Final(c, s, es), interval)
    decreases |es|
  {
    if es != [] {
      StepOpening(c, s, es[0], interval);
      RunOpening(c, After(c, s, es[0]), es[1..], interval);
    }
  }

  /** Where free permits are taken at once, every launch but the first comes at least an interval after
      it: however late the others are, the first is not. */
  lemma FirstLaunchAlone(c: Config, interval: real, start: real, n: nat, es: seq<Event>, k: nat)
    requires interval > 0.0 && Runs(c, NewScan(c, Some(interval), start, n), es)
    requires AllKeep(Taken, c, NewScan(c, Some(interval), start, n), es)
    requires 0 < k < |Final(c, NewScan(c, Some(interval), start, n), es).gate.launches|
    ensures var launches := Final(c, NewScan(c, Some(interval), start, n), es).gate.launches;
            launches[k] >= launches[0] + interval
  {
    var s := NewScan(c, Some(interval), start, n);
    if c.concurrency == 0 {
      NewGroupOk(c, n);
      NothingLaunched(c, s, es);
    } else {
      RunOpening(c, s, es, interval);
    }
  }

  // ---------------------------------------------------------------------------
  // The others can bunch
  // ---------------------------------------------------------------------------

  /** Everybody waits for a slot, sleeps till one before the next, or is done. */
  predicate Paused(s: System) {
    && s.gate.interval.Some? && s.gate.interval.value > 0.0
    && forall k :: 0 <= k < |s.group.tasks| ==>
         var phase := s.group.tasks[k].phase;
         phase.Waiting? || phase.Done? || (phase.Sleeping? && phase.until <= s.gate.next)
  }

  /** The same tasks, except that those from i on that waited for a slot sleep till one. */
  predicate NowAsleep(before: seq<Task>, after: seq<Task>, i: nat) {
    && |after| == |before|
    && forall k :: 0 <= k < |before| ==>
         after[k].replies == before[k].replies
         && if k >= i && before[k].phase.Waiting? then after[k].phase.Sleeping? else after[k].phase == before[k].phase
  }

  lemma {:induction false} ReserveAll(c: Config, s: System, i: nat) returns (es: seq<Event>, t: System)
    requires Paused(s) && s.gate.next > s.now && i <= |s.group.tasks|
    ensures Leads(Eager, c, s, es, t) && Paused(t) && t.gate.next > t.now && NowAsleep(s.group.tasks, t.group.tasks, i)
    ensures t.now == s.now && t.gate.launches == s.gate.launches && t.group.permits == s.group.permits
    decreases |s.group.tasks| - i
  {
    if i == |s.group.tasks| {
      es, t := [], s;
    } else if s.group.tasks[i].phase.Waiting? {
      var s1 := Act(c, s, Reserve(i));
      var rest;
      rest, t := ReserveAll(c, s1, i + 1);
      LeadsBy(Eager, c, s, Do(Reserve(i)), s1, rest, t);
      es := [Do(Reserve(i))] + rest;
    } else {
      es, t := ReserveAll(c, s, i + 1);
    }
  }

  /** Everybody has overslept, waits for a slot that is open, or is done, and a permit is free. */
  predicate Overslept(s: System) {
    && s.gate.interval.Some? && s.gate.interval.value > 0.0 && s.gate.next <= s.now && s.group.permits > 0
    && forall k :: 0 <= k < |s.group.tasks| ==>
         var phase := s.group.tasks[k].phase;
         phase.Waiting? || phase.Done? || (phase.Sleeping? && phase.until <= s.now)
  }

  lemma SleepAll(c: Config, s: System) returns (es: seq<Event>, t: System)
    requires Paused(s) && s.gate.next > s.now && s.group.permits > 0
    ensures Leads(Eager, c, s, es, t) && Overslept(t) && NowAsleep(s.group.tasks, t.group.tasks, 0)
    ensures t.gate.launches == s.gate.launches && t.group.permits == s.group.permits
  {
    var s1;
    es, s1 := ReserveAll(c, s, 0);
    var time := s1.gate.next - s1.now;
    t := s1.(now := s1.now + time);
    LeadsBy(Eager, c, s1, Pass(time), t, [], t);
    LeadsOn(Eager, c, s, es, s1, [Pass(time)] + [], t);
    es := es + ([Pass(time)] + []);
  }

  /** The first probe goes out at the start, and while its task and the others wait for their slots, all of
      those open. */
  lemma Open(c: Config, interval: real, start: real, n: nat) returns (es: seq<Event>, t: System)
    requires c.concurrency >= 1 && interval > 0.0 && n >= 1
    ensures Leads(Eager, c, NewScan(c, Some(interval), start, n), es, t) && Overslept(t)
    ensures t.gate.launches == [start] && t.group.permits == c.concurrency && |t.group.tasks| == n
    ensures forall k :: 0 <= k < n ==> !t.group.tasks[k].phase.Waiting? && (k > 0 ==> t.group.tasks[k].phase.Sleeping?)
  {
    var s0 := NewScan(c, Some(interval), start, n);
    var s1 := Act(c, s0, Reserve(0));
    var s2 := Act(c, s1, Enter(0));
    var s3 := Act(c, s2, Answer(0));
    es, t := SleepAll(c, s3);
    LeadsBy(Eager, c, s2, Do(Answer(0)), s3, es, t);
    LeadsBy(Eager, c, s1, Do(Enter(0)), s2, [Do(Answer(0))] + es, t);
    LeadsBy(Eager, c, s0, Do(Reserve(0)), s1, [Do(Enter(0))] + ([Do(Answer(0))] + es), t);
    es := [Do(Reserve(0))] + ([Do(Enter(0))] + ([Do(Answer(0))] + es));
  }

  /** A task that has overslept wakes, launches and is answered, all at this instant. */
  lemma FireOne(c: Config, s: System, j: nat) returns (es: seq<Event>, t: System)
    requires Overslept(s) && j < |s.group.tasks| && s.group.tasks[j].phase.Sleeping?
    ensures Leads(Eager, c, s, es, t) && Overslept(t) && t.now == s.now && t.gate.launches == s.gate.launches + [s.now]
    ensures |t.group.tasks| == |s.group.tasks|
    ensures forall k :: 0 <= k < |s.group.tasks| && k != j ==> t.group.tasks[k] == s.group.tasks[k]
  {
    var s1 := Act(c, s, Wake(j));
    var s2 := Act(c, s1, Enter(j));
    t := Act(c, s2, Answer(j));
    LeadsBy(Eager, c, s2, Do(Answer(j)), t, [], t);
    LeadsBy(Eager, c, s1, Do(Enter(j)), s2, [Do(Answer(j))] + [], t);
    LeadsBy(Eager, c, s, Do(Wake(j)), s1, [Do(Enter(j))] + ([Do(Answer(j))] + []), t);
    es := [Do(Wake(j))] + ([Do(Enter(j))] + ([Do(Answer(j))] + []));
  }

  lemma {:induction false} FireMany(c: Config, s: System, j: nat, m: nat) returns (es: seq<Event>, t: System)
    requires Overslept(s) && 1 <= j <= m + 1 <= |s.group.tasks| && |s.gate.launches| == j
    requires forall k :: j <= k <= m ==> s.group.tasks[k].phase.Sleeping?
    requires forall k :: 1 <= k < j ==> s.gate.launches[k] == s.now
    ensures Leads(Eager, c, s, es, t) && t.now == s.now && |t.gate.launches| == m + 1 && t.gate.launches[0] == s.gate.launches[0]
    ensures forall k :: 1 <= k <= m ==> t.gate.launches[k] == t.now
    decreases m + 1 - j
  {
    if j == m + 1 {
      es, t := [], s;
    } else {
      var one, s1 := FireOne(c, s, j);
      var rest;
      rest, t := FireMany(c, s1, j + 1, m);
      LeadsOn(Eager, c, s, one, s1, rest, t);
      es := one + rest;
    }
  }

  /** Slots are spaced, launches are not: even if no task ever dawdles, with at least one permit and at any
      rate, all the ports but one can be launched at one instant, by oversleeping. */
  lemma LaunchesCanBunch(c: Config, interval: real, start: real, n: nat, m: nat) returns (es: seq<Event>, at: real)
    requires c.concurrency >= 1 && interval > 0.0 && m + 1 <= n
    ensures Runs(c, NewScan(c, Some(interval), start, n), es)
    ensures AllKeep(Eager, c, NewScan(c, Some(interval), start, n), es)
    ensures var launches := Final(c, NewScan(c, Some(interval), start, n), es).gate.launches;
            |launches| == m + 1 && launches[0] == start && forall k :: 1 <= k <= m ==> launches[k] == at
  {
    var s := NewScan(c, Some(interval), start, n);
    var first, t := Open(c, interval, start, n);
    var rest, u := FireMany(c, t, 1, m);
    LeadsOn(Eager, c, s, first, t, rest, u);
    es, at := first + rest, u.now;
  }

  /** Any task that is not done launches now. */
  lemma LaunchNow(c: Config, s: System, j: nat) returns (es: seq<Event>, t: System)
    requires Overslept(s) && j < |s.group.tasks| && !s.group.tasks[j].phase.Done?
    ensures Leads(Eager, c, s, es, t) && t.gate.launches == s.gate.launches + [s.now]
  {
    var a := if s.group.tasks[j].phase.Sleeping? then Wake(j) else Reserve(j);
    var s1 := Act(c, s, a);
    t := Act(c, s1, Enter(j));
    LeadsBy(Eager, c, s1, Do(Enter(j)), t, [], t);
    LeadsBy(Eager, c, s, Do(a), s1, [Do(Enter(j))] + [], t);
    es := [Do(a)] + ([Do(Enter(j))] + []);
  }

  /** Of three attempts to make, the third can be made to coincide with the second. */
  lemma ThirdMeetsSecond(c: Config, interval: real, start: real, n: nat) returns (es: seq<Event>, t: System, at: real)
    requires c.concurrency >= 1 && interval > 0.0 && AttemptsToMake(c, n) >= 3
    ensures Leads(Eager, c, NewScan(c, Some(interval), start, n), es, t) && t.gate.launches == [start, at, at]
  {
    var s0 := NewScan(c, Some(interval), start, n);
    var first, s := Open(c, interval, start, n);
    LaunchesInAll(c, Some(interval), start, n, first);
    var i :| 0 <= i < n && !s.group.tasks[i].phase.Done?;
    var second, u := FireOne(c, s, i);
    LeadsOn(Eager, c, s0, first, s, second, u);
    LaunchesInAll(c, Some(interval), start, n, first + second);
    var j :| 0 <= j < n && !u.group.tasks[j].phase.Done?;
    var third;
    third, t := LaunchNow(c, u, j);
    LeadsOn(Eager, c, s0, first + second, u, third, t);
    es, at := (first + second) + third, s.now;
  }

  // ---------------------------------------------------------------------------
  // Exactly when the window bound holds
  // ---------------------------------------------------------------------------

  predicate FewAttempts(c: Config, n: nat) { c.concurrency == 0 || AttemptsToMake(c, n) <= 2 }

  lemma FewAreBounded(c: Config, interval: real, start: real, n: nat, es: seq<Event>, from: real, to: real)
    requires interval > 0.0 && FewAttempts(c, n) && Runs(c, NewScan(c, Some(interval), start, n), es)
    requires AllKeep(Taken, c, NewScan(c, Some(interval), start, n), es) && from <= to
    ensures Within(Final(c, NewScan(c, Some(interval), start, n), es).gate.launches, from, to) <= Whole(to - from, interval) + 1
  {
    var s := NewScan(c, Some(interval), start, n);
    var launches := Final(c, s, es).gate.launches;
    NewGroupOk(c, n);
    if c.concurrency == 0 {
      NothingLaunched(c, s, es);
    } else {
      LaunchesInAll(c, Some(interval), start, n, es);
    }
    if |launches| > 1 {
      FirstLaunchAlone(c, interval, start, n, es, 1);
    }
    SpacedBound(launches, interval, from, to);
  }

  /** The window bound of the slots holds of launches, under every schedule that takes free permits at once,
      exactly when there are at most two attempts to make; asking no task ever to dawdle does not help. */
  lemma WindowBoundExactly(c: Config, interval: real, start: real, n: nat)
    requires interval > 0.0
    ensures WindowBounded(Taken, c, NewScan(c, Some(interval), start, n), interval) <==> FewAttempts(c, n)
    ensures WindowBounded(Eager, c, NewScan(c, Some(interval), start, n), interval) <==> FewAttempts(c, n)
  {
    var s := NewScan(c, Some(interval), start, n);
    if FewAttempts(c, n) {
      forall es, from: real, to: real | Runs(c, s, es) && AllKeep(Taken, c, s, es) && from <= to
        ensures Within(Final(c, s, es).gate.launches, from, to) <= Whole(to - from, interval) + 1
      {
        FewAreBounded(c, interval, start, n, es, from, to);
      }
      forall es, from: real, to: real | Runs(c, s, es) && AllKeep(Eager, c, s, es) && from <= to
        ensures Within(Final(c, s, es).gate.launches, from, to) <= Whole(to - from, interval) + 1
      {
        EagerIsTaken(c, s, es);
      }
    } else {
      var es, t, at := ThirdMeetsSecond(c, interval, start, n);
      EagerIsTaken(c, s, es);
      assert [start, at, at] == [start] + [at] + [at];
      TwiceAtOnce(Eager, c, s, interval, es, [start], at);
      TwiceAtOnce(Taken, c, s, interval, es, [start], at);
    }
  }

  // ---------------------------------------------------------------------------
  // Prompt launches
  // ---------------------------------------------------------------------------

  /** A slot within the window that a task holds but has not used yet. */
  function HoldingIn(lo: real, hi: real, task: Task): nat {
    match task.phase
    case Sleeping(until) => if Inside(until, lo, hi) then 1 else 0
    case Queued(slot) => if Inside(slot, lo, hi) then 1 else 0
    case _ => 0
  }

  function HoldsIn(lo: real, hi: real): Task -> nat { task => HoldingIn(lo, hi, task) }

  /** Launches from `from` to hi, and slots held, are no more than the slots from `delay` earlier. */
  ghost predicate InBalance(s: System, from: real, hi: real, delay: real) {
    && QueuedOk(s.now, s.group)
    && Within(s.gate.launches, from, hi) + Total(HoldsIn(from - delay, hi), s.group.tasks)
       <= Within(s.gate.slots, from - delay, hi)
  }

  /** A launch in the window uses up a slot that one task held in the wider window. */
  lemma MovedHolding(c: Config, s: System, a: Action, from: real, lo: real, hi: real, delay: real)
    requires Enabled(s, a) && Keeps(Prompt(delay), s, Do(a)) && delay >= 0.0 && QueuedOk(s.now, s.group) && lo == from - delay
    ensures (if a.Enter? && Inside(s.now, from, hi) then 1 else 0) + HoldingIn(lo, hi, MovedTask(c, s, a))
         <= HoldingIn(lo, hi, s.group.tasks[a.task]) + if a.Reserve? && Inside(SlotNow(s.gate, s.now), lo, hi) then 1 else 0
  {
  }

  lemma ActQueuedOk(c: Config, s: System, a: Action)
    requires Enabled(s, a) && QueuedOk(s.now, s.group)
    ensures QueuedOk(s.now, Act(c, s, a).group)
  {
  }

  lemma ActCounts(c: Config, s: System, a: Action, from: real, lo: real, hi: real)
    requires Enabled(s, a)
    ensures Within(Act(c, s, a).gate.slots, lo, hi)
         == Within(s.gate.slots, lo, hi) + if a.Reserve? && Inside(SlotNow(s.gate, s.now), lo, hi) then 1 else 0
    ensures Within(Act(c, s, a).gate.launches, from, hi)
         == Within(s.gate.launches, from, hi) + if a.Enter? && Inside(s.now, from, hi) then 1 else 0
  {
    WithinSnoc(s.gate.slots, SlotNow(s.gate, s.now), lo, hi);
    WithinSnoc(s.gate.launches, s.now, from, hi);
  }

  lemma ActInBalance(c: Config, s: System, a: Action, from: real, hi: real, delay: real)
    requires Enabled(s, a) && Keeps(Prompt(delay), s, Do(a)) && delay >= 0.0 && InBalance(s, from, hi, delay)
    ensures InBalance(Act(c, s, a), from, hi, delay)
  {
    var lo := from - delay;
    ActQueuedOk(c, s, a);
    ActCounts(c, s, a, from, lo, hi);
    MovedHolding(c, s, a, from, lo, hi, delay);
    TotalUpdate(HoldsIn(lo, hi), s.group.tasks, a.task, MovedTask(c, s, a));
  }

  /** Any two slots handed out are at least an interval apart. */
  ghost predicate SpacedSlots(gate: Gate) {
    && gate.interval.Some? && gate.interval.value > 0.0
    && Spaced(gate.slots, gate.interval.value)
    && forall k :: 0 <= k < |gate.slots| ==> gate.next >= gate.slots[k] + gate.interval.value
  }

  lemma ActSpaced(c: Config, s: System, a: Action)
    requires Enabled(s, a) && SpacedSlots(s.gate)
    ensures SpacedSlots(Act(c, s, a).gate) && Act(c, s, a).gate.interval == s.gate.interval
  {
  }

  lemma {:induction false} RunInBalance(c: Config, s: System, es: seq<Event>, from: real, hi: real, delay: real)
    requires Runs(c, s, es) && AllKeep(Prompt(delay), c, s, es) && delay >= 0.0
    requires InBalance(s, from, hi, delay) && SpacedSlots(s.gate)
    ensures InBalance(Final(c, s, es), from, hi, delay) && SpacedSlots(Final(c, s, es).gate)
    ensures Final(c, s, es).gate.interval == s.gate.interval
    decreases |es|
  {
    if es != [] {
      if es[0].Do? {
        ActInBalance(c, s, es[0].action, from, hi, delay);
        ActSpaced(c, s, es[0].action);
      }
      RunInBalance(c, After(c, s, es[0]), es[1..], from, hi, delay);
    }
  }

  /** If every launch comes at most `delay` after its slot, any window of a given length holds at most one
      launch more than the whole intervals in that length and the delay together. */
  lemma PromptWindowBound(c: Config, interval: real, start: real, n: nat, es: seq<Event>, delay: real, from: real, length: real)
    requires interval > 0.0 && delay >= 0.0 && length >= 0.0
    requires Runs(c, NewScan(c, Some(interval), start, n), es)
    requires AllKeep(Prompt(delay), c, NewScan(c, Some(interval), start, n), es)
    ensures Within(Final(c, NewScan(c, Some(interval), start, n), es).gate.launches, from, from + length)
         <= Whole(length + delay, interval) + 1
  {
    var s, hi := NewScan(c, Some(interval), start, n), from + length;
    TotalZero(HoldsIn(from - delay, hi), NewTasks(n));
    RunInBalance(c, s, es, from, hi, delay);
    SpacedBound(Final(c, s, es).gate.slots, interval, from - delay, hi);
    assert hi - (from - delay) == length + delay;
  }
}
