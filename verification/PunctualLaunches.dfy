/** Launches of tasks that do not oversleep: when the pacer's window bound carries over to them. */
module PunctualLaunches {
  import opened Wrappers
  import opened Rate
  import opened Probing
  import opened Pacing
  import opened Schedules
  import opened LaunchWindows

  // ---------------------------------------------------------------------------
  // Punctual sleeps, and a permit for every port
  // ---------------------------------------------------------------------------

  /** Nobody is further behind the slot than `late`, and there is a permit for everybody. */
  ghost predicate OnTime(c: Config, s: System, late: real) {
    && GroupOk(c, s.group) && |s.group.tasks| <= c.concurrency
    && forall i :: 0 <= i < |s.group.tasks| ==>
         match s.group.tasks[i].phase
         case Sleeping(until) => s.now <= until + late
         case Queued(slot) => s.now <= slot + late
         case _ => true
  }

  lemma PermitForQueuer(c: Config, g: Group, i: nat)
    requires GroupOk(c, g) && |g.tasks| <= c.concurrency && i < |g.tasks| && !g.tasks[i].phase.InFlight?
    ensures g.permits > 0
  {
    TotalUpdate(Flying, g.tasks, i, Task(InFlight, []));
    TotalBound(Flying, g.tasks[i := Task(InFlight, [])], 1);
  }

  lemma StepOnTime(c: Config, s: System, e: Event, late: real)
    requires Possible(s, e) && OnTime(c, s, late) && late >= 0.0
    requires Keeps(Taken, s, e) && Keeps(Punctual(late), s, e)
    ensures Keeps(Prompt(late), s, e) && OnTime(c, After(c, s, e), late)
  {
    if e.Do? {
      ActGroupOk(c, s, e.action);
    } else if e.time > 0.0 {
      forall i | 0 <= i < |s.group.tasks| ensures !s.group.tasks[i].phase.Queued? {
        if s.group.tasks[i].phase.Queued? {
          PermitForQueuer(c, s.group, i);
        }
      }
    }
  }

  lemma {:induction false} PunctualIsPrompt(c: Config, s: System, es: seq<Event>, late: real)
    requires Runs(c, s, es) && OnTime(c, s, late) && late >= 0.0
    requires AllKeep(Taken, c, s, es) && AllKeep(Punctual(late), c, s, es)
    ensures AllKeep(Prompt(late), c, s, es)
    decreases |es|
  {
    if es != [] {
      StepOnTime(c, s, es[0], late);
      PunctualIsPrompt(c, After(c, s, es[0]), es[1..], late);
    }
  }

  /** With a permit for every port, which is what a sweep gives each host scan, only oversleeping delays a
      launch: if nobody oversleeps by more than `late`, retries or not, any window holds at most one launch
      more than the whole intervals in its length and that much together; if nobody oversleeps at all, the
      bound of the slots holds. */
  lemma PunctualWindowBound(c: Config, interval: real, start: real, n: nat, es: seq<Event>, late: real, from: real, length: real)
    requires interval > 0.0 && late >= 0.0 && length >= 0.0 && n <= c.concurrency
    requires Runs(c, NewScan(c, Some(interval), start, n), es)
    requires AllKeep(Taken, c, NewScan(c, Some(interval), start, n), es)
    requires AllKeep(Punctual(late), c, NewScan(c, Some(interval), start, n), es)
    ensures Within(Final(c, NewScan(c, Some(interval), start, n), es).gate.launches, from, from + length)
         <= Whole(length + late, interval) + 1
  {
    NewGroupOk(c, n);
    PunctualIsPrompt(c, NewScan(c, Some(interval), start, n), es, late);
    PromptWindowBound(c, interval, start, n, es, late, from, length);
  }

  // ---------------------------------------------------------------------------
  // Exactly when the window bound holds of punctual sleepers
  // ---------------------------------------------------------------------------

  predicate Holds(t: Task) { t.phase.Sleeping? || t.phase.Queued? }

  /** The slot a task sleeps till, or queues on. */
  function SlotOf(t: Task): real
    requires Holds(t)
  {
    if t.phase.Sleeping? then t.phase.until else t.phase.slot
  }

  predicate Apart(a: real, b: real, interval: real) { a >= b + interval || b >= a + interval }

  /** Slots held are at least an interval apart, and before the next. */
  predicate SlotsApart(s: System, interval: real) {
    && (forall i, j :: 0 <= i < j < |s.group.tasks| && Holds(s.group.tasks[i]) && Holds(s.group.tasks[j]) ==>
          Apart(SlotOf(s.group.tasks[i]), SlotOf(s.group.tasks[j]), interval))
    && forall i :: 0 <= i < |s.group.tasks| && Holds(s.group.tasks[i]) ==> s.gate.next >= SlotOf(s.group.tasks[i]) + interval
  }

  predicate HeldFrom(s: System, from: real) {
    forall i :: 0 <= i < |s.group.tasks| && Holds(s.group.tasks[i]) ==> SlotOf(s.group.tasks[i]) >= from
  }

  /** While fewer probes are out than there are permits, nobody is behind the slot; and up to one launch
      more than there are permits, everything still to come is an interval after every launch so far. */
  ghost predicate InStep(c: Config, s: System, interval: real) {
    && s.gate.interval == Some(interval) && interval > 0.0 && QueuedOk(s.now, s.group) && GroupOk(c, s.group)
    && |s.gate.launches| == Total(Attempts, s.group.tasks)
    && SlotsApart(s, interval)
    && (|s.gate.launches| < c.concurrency ==> HeldFrom(s, s.now))
    && (|s.gate.launches| <= c.concurrency ==>
          forall k :: 0 <= k < |s.gate.launches| ==>
            HeldFrom(s, s.gate.launches[k] + interval) && s.gate.next >= s.gate.launches[k] + interval)
    && Spaced(s.gate.launches[..Few(|s.gate.launches|, c.concurrency + 1)], interval)
  }

  function Few(a: nat, b: nat): nat { if a < b then a else b }

  lemma {:induction false} TotalAtMost<T>(f: T -> nat, g: T -> nat, xs: seq<T>)
    requires forall i :: 0 <= i < |xs| ==> f(xs[i]) <= g(xs[i])
    ensures Total(f, xs) <= Total(g, xs)
  {
    if xs != [] {
      TotalAtMost(f, g, xs[1..]);
    }
  }

  lemma ActSlotsApart(c: Config, s: System, a: Action, interval: real)
    requires Enabled(s, a) && SlotsApart(s, interval) && s.gate.interval == Some(interval) && interval > 0.0
    ensures SlotsApart(Act(c, s, a), interval)
  {
  }

  lemma ActHeldFrom(c: Config, s: System, a: Action, from: real)
    requires Enabled(s, a) && HeldFrom(s, from) && (s.gate.next >= from || s.now >= from) && s.gate.interval.Some?
    ensures HeldFrom(Act(c, s, a), from)
  {
  }

  lemma EnterOnTime(c: Config, s: System, a: Action, interval: real)
    requires Enabled(s, a) && a.Enter? && InStep(c, s, interval) && |s.gate.launches| < c.concurrency
    ensures HeldFrom(Act(c, s, a), s.now + interval) && s.gate.next >= s.now + interval
    ensures SlotOf(s.group.tasks[a.task]) == s.now
  {
    assert Holds(s.group.tasks[a.task]) && SlotOf(s.group.tasks[a.task]) == s.now;
    var t := Act(c, s, a);
    forall i | 0 <= i < |t.group.tasks| && Holds(t.group.tasks[i]) ensures SlotOf(t.group.tasks[i]) >= s.now + interval {
      assert i != a.task && t.group.tasks[i] == s.group.tasks[i];
      assert SlotOf(s.group.tasks[i]) >= s.now;
    }
  }

  lemma SpacedSnoc(times: seq<real>, x: real, interval: real)
    requires Spaced(times, interval) && forall k :: 0 <= k < |times| ==> x >= times[k] + interval
    ensures Spaced(times + [x], interval)
  {
  }

  lemma EnterSpaced(c: Config, s: System, a: Action, interval: real)
    requires Enabled(s, a) && a.Enter? && InStep(c, s, interval)
    ensures var launches := s.gate.launches + [s.now]; Spaced(launches[..Few(|launches|, c.concurrency + 1)], interval)
  {
    var before, n := s.gate.launches, |s.gate.launches|;
    var after := before + [s.now];
    assert Holds(s.group.tasks[a.task]) && SlotOf(s.group.tasks[a.task]) <= s.now;
    if n <= c.concurrency {
      forall k | 0 <= k < n ensures s.now >= before[k] + interval {
        assert HeldFrom(s, before[k] + interval);
      }
      assert before[..n] == before && after[..n + 1] == after;
      SpacedSnoc(before, s.now, interval);
    } else {
      assert after[..c.concurrency + 1] == before[..c.concurrency + 1];
    }
  }

  lemma EnterInStep(c: Config, s: System, a: Action, interval: real)
    requires Enabled(s, a) && a.Enter? && InStep(c, s, interval)
    ensures InStep(c, Act(c, s, a), interval)
  {
    var t, n := Act(c, s, a), |s.gate.launches|;
    ActGroupOk(c, s, a);
    ActLaunches(c, s, a);
    ActSlotsApart(c, s, a, interval);
    EnterSpaced(c, s, a, interval);
    if n < c.concurrency {
      EnterOnTime(c, s, a, interval);
      ActHeldFrom(c, s, a, s.now);
      forall k | 0 <= k < n ensures HeldFrom(t, s.gate.launches[k] + interval) {
        ActHeldFrom(c, s, a, s.gate.launches[k] + interval);
      }
    }
  }

  lemma ActInStep(c: Config, s: System, a: Action, interval: real)
    requires Enabled(s, a) && !a.Enter? && InStep(c, s, interval)
    ensures InStep(c, Act(c, s, a), interval)
  {
    var t := Act(c, s, a);
    ActGroupOk(c, s, a);
    ActLaunches(c, s, a);
    ActSlotsApart(c, s, a, interval);
    if |s.gate.launches| < c.concurrency {
      ActHeldFrom(c, s, a, s.now);
    }
    if |s.gate.launches| <= c.concurrency {
      forall k | 0 <= k < |s.gate.launches|
        ensures HeldFrom(t, t.gate.launches[k] + interval) && t.gate.next >= t.gate.launches[k] + interval
      {
        ActHeldFrom(c, s, a, s.gate.launches[k] + interval);
      }
    }
  }

  lemma PassInStep(c: Config, s: System, time: real, interval: real)
    requires time >= 0.0 && InStep(c, s, interval)
    requires Keeps(Taken, s, Pass(time)) && Keeps(Punctual(0.0), s, Pass(time))
    ensures InStep(c, s.(now := s.now + time), interval)
  {
    var t := s.(now := s.now + time);
    TotalAtMost(Flying, Attempts, s.group.tasks);
    if |s.gate.launches| < c.concurrency {
      assert s.group.permits > 0;
      assert HeldFrom(t, t.now);
    }
    forall k | 0 <= k < |s.gate.launches| && HeldFrom(s, s.gate.launches[k] + interval)
      ensures HeldFrom(t, t.gate.launches[k] + interval)
    {
    }
  }

  lemma {:induction false} RunInStep(c: Config, s: System, es: seq<Event>, interval: real)
    requires Runs(c, s, es) && AllKeep(Taken, c, s, es) && AllKeep(Punctual(0.0), c, s, es) && InStep(c, s, interval)
    ensures InStep(c, Final(c, s, es), interval)
    decreases |es|
  {
    if es != [] {
      if es[0].Pass? {
        PassInStep(c, s, es[0].time, interval);
      } else if es[0].action.Enter? {
        EnterInStep(c, s, es[0].action, interval);
      } else {
        ActInStep(c, s, es[0].action, interval);
      }
      RunInStep(c, After(c, s, es[0]), es[1..], interval);
    }
  }

  /** Where nobody oversleeps and free permits are taken at once, the first launches, one more than there are
      permits, are spaced like their slots, in every run. */
  lemma FirstLaunchesSpaced(c: Config, interval: real, start: real, n: nat, es: seq<Event>)
    requires interval > 0.0 && Runs(c, NewScan(c, Some(interval), start, n), es)
    requires AllKeep(Taken, c, NewScan(c, Some(interval), start, n), es)
    requires AllKeep(Punctual(0.0), c, NewScan(c, Some(interval), start, n), es)
    ensures var launches := Final(c, NewScan(c, Some(interval), start, n), es).gate.launches;
            Spaced(launches[..Few(|launches|, c.concurrency + 1)], interval)
  {
    NewGroupOk(c, n);
    TotalZero(Attempts, NewTasks(n));
    RunInStep(c, NewScan(c, Some(interval), start, n), es, interval);
  }

  /** Permits for all, or at most one more attempt to make than there are permits. */
  predicate PermitsSuffice(c: Config, n: nat) {
    c.concurrency == 0 || n <= c.concurrency || AttemptsToMake(c, n) <= c.concurrency + 1
  }

  lemma SufficientAreBounded(c: Config, interval: real, start: real, n: nat, es: seq<Event>, from: real, to: real)
    requires interval > 0.0 && PermitsSuffice(c, n) && Runs(c, NewScan(c, Some(interval), start, n), es) && from <= to
    requires AllKeep(Taken, c, NewScan(c, Some(interval), start, n), es)
    requires AllKeep(Punctual(0.0), c, NewScan(c, Some(interval), start, n), es)
    ensures Within(Final(c, NewScan(c, Some(interval), start, n), es).gate.launches, from, to) <= Whole(to - from, interval) + 1
  {
    var s := NewScan(c, Some(interval), start, n);
    var launches := Final(c, s, es).gate.launches;
    if 0 < n <= c.concurrency {
      PunctualWindowBound(c, interval, start, n, es, 0.0, from, to - from);
      assert from + (to - from) == to && to - from + 0.0 == to - from;
    } else {
      NewGroupOk(c, n);
      if c.concurrency == 0 {
        NothingLaunched(c, s, es);
      }
      LaunchesInAll(c, Some(interval), start, n, es);
      FirstLaunchesSpaced(c, interval, start, n, es);
      assert launches[..|launches|] == launches;
      SpacedBound(launches, interval, from, to);
    }
  }

  const ALERT: Rule := Both(Eager, Punctual(0.0))

  /** The first k tasks have had their slots, and all but the first of them in time: they hold the permits, or
      queue for one. The others sleep, an interval apart. */
  predicate Climbed(c: Config, s: System, k: nat, interval: real) {
    && s.gate.interval == Some(interval) && interval > 0.0 && k <= |s.group.tasks|
    && s.gate.next == s.now + Span(|s.group.tasks| - k + 1, interval)
    && s.group.permits == (if k < c.concurrency then c.concurrency - k else 0)
    && |s.gate.launches| == Few(k, c.concurrency)
    && forall j :: 0 <= j < |s.group.tasks| ==>
         && s.group.tasks[j].replies == []
         && if j < k && j < c.concurrency then s.group.tasks[j].phase.InFlight?
            else if j < k then s.group.tasks[j].phase.Queued?
            else s.group.tasks[j].phase == Sleeping(s.now + Span(j - k + 1, interval))
  }

  lemma {:induction false} SpanGrows(j: nat, interval: real)
    requires interval > 0.0
    ensures Span(j + 1, interval) >= interval
  {
    if j > 0 {
      SpanGrows(j - 1, interval);
    }
  }

  lemma ClimbWait(c: Config, s: System, k: nat, interval: real)
    requires Climbed(c, s, k, interval)
    ensures Keeps(ALERT, s, Pass(interval))
    ensures k < |s.group.tasks| ==> s.group.tasks[k].phase == Sleeping(s.now + interval)
  {
    forall j | k <= j < |s.group.tasks| ensures s.group.tasks[j].phase.until >= s.now + interval {
      SpanGrows(j - k, interval);
    }
    assert Span(0, interval) == 0.0 && Span(1, interval) == interval;
    if k < |s.group.tasks| {
      assert s.group.tasks[k].phase == Sleeping(s.now + Span(k - k + 1, interval));
    }
  }

  lemma ClimbOne(c: Config, s: System, k: nat, interval: real) returns (es: seq<Event>, t: System)
    requires Climbed(c, s, k, interval) && k < |s.group.tasks| && c.concurrency >= 1
    ensures Leads(ALERT, c, s, es, t) && Climbed(c, t, k + 1, interval) && |t.group.tasks| == |s.group.tasks|
  {
    ClimbWait(c, s, k, interval);
    var s1 := s.(now := s.now + interval);
    var s2 := Act(c, s1, Wake(k));
    if k < c.concurrency {
      t := Act(c, s2, Enter(k));
      LeadsBy(ALERT, c, s2, Do(Enter(k)), t, [], t);
      es := [Do(Enter(k))] + [];
    } else {
      t := s2;
      es := [];
    }
    LeadsBy(ALERT, c, s1, Do(Wake(k)), s2, es, t);
    LeadsBy(ALERT, c, s, Pass(interval), s1, [Do(Wake(k))] + es, t);
    es := [Pass(interval)] + ([Do(Wake(k))] + es);
  }

  lemma {:induction false} ClimbAll(c: Config, s: System, k: nat, interval: real) returns (es: seq<Event>, t: System)
    requires Climbed(c, s, k, interval) && c.concurrency >= 1
    ensures Leads(ALERT, c, s, es, t) && Climbed(c, t, |t.group.tasks|, interval) && |t.group.tasks| == |s.group.tasks|
    decreases |s.group.tasks| - k
  {
    if k == |s.group.tasks| {
      es, t := [], s;
    } else {
      var one, s1 := ClimbOne(c, s, k, interval);
      var rest;
      rest, t := ClimbAll(c, s1, k + 1, interval);
      LeadsOn(ALERT, c, s, one, s1, rest, t);
      es := one + rest;
    }
  }

  /** The first task is in flight, the next ones sleep till the slots they have reserved. */
  predicate Reserving(c: Config, s: System, i: nat, interval: real) {
    && s.gate.interval == Some(interval) && interval > 0.0 && 1 <= i <= |s.group.tasks|
    && s.gate.next == s.now + Span(i, interval) && s.group.permits + 1 == c.concurrency && |s.gate.launches| == 1
    && s.group.tasks[0] == Task(InFlight, [])
    && (forall j :: 1 <= j < i ==> s.group.tasks[j] == Task(Sleeping(s.now + Span(j, interval)), []))
    && forall j :: i <= j < |s.group.tasks| ==> s.group.tasks[j] == Task(Waiting, [])
  }

  lemma {:induction false} ReserveRest(c: Config, s: System, i: nat, interval: real) returns (es: seq<Event>, t: System)
    requires Reserving(c, s, i, interval)
    ensures Leads(ALERT, c, s, es, t) && Climbed(c, t, 1, interval) && |t.group.tasks| == |s.group.tasks|
    decreases |s.group.tasks| - i
  {
    if i == |s.group.tasks| {
      es, t := [], s;
    } else {
      SpanGrows(i - 1, interval);
      var s1 := Act(c, s, Reserve(i));
      var rest;
      rest, t := ReserveRest(c, s1, i + 1, interval);
      LeadsBy(ALERT, c, s, Do(Reserve(i)), s1, rest, t);
      es := [Do(Reserve(i))] + rest;
    }
  }

  /** With more tasks than permits: every slot opens in its turn, and all the permits are out. */
  lemma ClimbFromStart(c: Config, interval: real, start: real, n: nat) returns (es: seq<Event>, t: System)
    requires 1 <= c.concurrency < n && interval > 0.0
    ensures Leads(ALERT, c, NewScan(c, Some(interval), start, n), es, t) && Climbed(c, t, n, interval) && |t.group.tasks| == n
  {
    var s0 := NewScan(c, Some(interval), start, n);
    var s1 := Act(c, s0, Reserve(0));
    var s2 := Act(c, s1, Enter(0));
    assert Span(0, interval) == 0.0 && Span(1, interval) == interval;
    var rest, s3 := ReserveRest(c, s2, 1, interval);
    var climb;
    climb, t := ClimbAll(c, s3, 1, interval);
    LeadsOn(ALERT, c, s2, rest, s3, climb, t);
    es := rest + climb;
    LeadsBy(ALERT, c, s1, Do(Enter(0)), s2, es, t);
    LeadsBy(ALERT, c, s0, Do(Reserve(0)), s1, [Do(Enter(0))] + es, t);
    es := [Do(Reserve(0))] + ([Do(Enter(0))] + es);
  }

  /** The first i tasks have had their answers, the other holders of permits not yet; the rest queue. */
  predicate Answering(c: Config, s: System, i: nat) {
    && i <= c.concurrency < |s.group.tasks| && s.gate.interval.Some? && s.gate.interval.value > 0.0
    && s.gate.next <= s.now && s.group.permits == i && |s.gate.launches| == c.concurrency
    && forall j :: 0 <= j < |s.group.tasks| ==>
         var phase := s.group.tasks[j].phase;
         if j < i then phase.Waiting? || phase.Done? else if j < c.concurrency then phase.InFlight? else phase.Queued?
  }

  lemma {:induction false} AnswerAll(c: Config, s: System, i: nat) returns (es: seq<Event>, t: System)
    requires Answering(c, s, i)
    ensures Leads(ALERT, c, s, es, t) && Answering(c, t, c.concurrency) && |t.group.tasks| == |s.group.tasks| && t.now == s.now
    decreases c.concurrency - i
  {
    if i == c.concurrency {
      es, t := [], s;
    } else {
      var s1 := Act(c, s, Answer(i));
      var rest;
      rest, t := AnswerAll(c, s1, i + 1);
      LeadsBy(ALERT, c, s, Do(Answer(i)), s1, rest, t);
      es := [Do(Answer(i))] + rest;
    }
  }

  /** All the slots have opened, and all the permits come back at one instant. */
  lemma Jam(c: Config, interval: real, start: real, n: nat) returns (es: seq<Event>, t: System)
    requires 1 <= c.concurrency < n && interval > 0.0
    ensures Leads(ALERT, c, NewScan(c, Some(interval), start, n), es, t) && Answering(c, t, c.concurrency) && |t.group.tasks| == n
  {
    var s0 := NewScan(c, Some(interval), start, n);
    var climb, s1 := ClimbFromStart(c, interval, start, n);
    ClimbWait(c, s1, n, interval);
    assert Span(0, interval) == 0.0 && Span(1, interval) == interval;
    var s2 := s1.(now := s1.now + interval);
    var answers;
    answers, t := AnswerAll(c, s2, 0);
    LeadsBy(ALERT, c, s1, Pass(interval), s2, answers, t);
    LeadsOn(ALERT, c, s0, climb, s1, [Pass(interval)] + answers, t);
    es := climb + ([Pass(interval)] + answers);
  }

  lemma BlockedLaunch(c: Config, s: System) returns (es: seq<Event>, t: System)
    requires Answering(c, s, c.concurrency) && c.concurrency >= 1
    ensures Leads(ALERT, c, s, es, t) && t.now == s.now && t.gate == s.gate.(launches := s.gate.launches + [s.now])
    ensures t.group.permits >= 1 && |t.group.tasks| == |s.group.tasks|
    ensures forall j :: 0 <= j < |t.group.tasks| ==>
      var phase := t.group.tasks[j].phase; phase.Waiting? || phase.Done? || phase.Queued?
    ensures forall j :: c.concurrency < j < |t.group.tasks| ==> t.group.tasks[j].phase.Queued?
  {
    var j := c.concurrency;
    var s1 := Act(c, s, Enter(j));
    t := Act(c, s1, Answer(j));
    LeadsBy(ALERT, c, s1, Do(Answer(j)), t, [], t);
    LeadsBy(ALERT, c, s, Do(Enter(j)), s1, [Do(Answer(j))] + [], t);
    es := [Do(Enter(j))] + ([Do(Answer(j))] + []);
  }

  lemma OneMoreNow(c: Config, s: System, j: nat) returns (es: seq<Event>, t: System)
    requires s.gate.interval.Some? && s.gate.interval.value > 0.0 && s.gate.next <= s.now && s.group.permits >= 1
    requires j < |s.group.tasks| && (s.group.tasks[j].phase.Waiting? || s.group.tasks[j].phase.Queued?)
    ensures Leads(ALERT, c, s, es, t) && t.gate.launches == s.gate.launches + [s.now]
  {
    var s1, first := s, [];
    if s.group.tasks[j].phase.Waiting? {
      s1 := Act(c, s, Reserve(j));
      LeadsBy(ALERT, c, s, Do(Reserve(j)), s1, [], s1);
      first := [Do(Reserve(j))] + [];
    }
    t := Act(c, s1, Enter(j));
    LeadsBy(ALERT, c, s1, Do(Enter(j)), t, [], t);
    LeadsOn(ALERT, c, s, first, s1, [Do(Enter(j))] + [], t);
    es := first + ([Do(Enter(j))] + []);
  }

  /** With fewer permits than tasks, and two attempts more to make than permits, two launches can coincide
      though nobody dawdles or oversleeps: their slots open while all the permits are out. Permits go to those
      who asked first. */
  lemma BlockedCanBunch(c: Config, interval: real, start: real, n: nat) returns (es: seq<Event>, t: System, at: real)
    requires interval > 0.0 && !PermitsSuffice(c, n)
    ensures Leads(ALERT, c, NewScan(c, Some(interval), start, n), es, t)
    ensures exists before :: t.gate.launches == before + [at] + [at]
  {
    var s0 := NewScan(c, Some(interval), start, n);
    var jam, s := Jam(c, interval, start, n);
    var first, u := BlockedLaunch(c, s);
    LeadsOn(ALERT, c, s0, jam, s, first, u);
    LaunchesInAll(c, Some(interval), start, n, jam + first);
    var next := c.concurrency + 1;
    var undone :| 0 <= undone < n && !u.group.tasks[undone].phase.Done?;
    var j := if next < n then next else undone;
    var second;
    second, t := OneMoreNow(c, u, j);
    LeadsOn(ALERT, c, s0, jam + first, u, second, t);
    es, at := (jam + first) + second, s.now;
    assert t.gate.launches == s.gate.launches + [at] + [at];
  }

  /** Where nobody oversleeps, the window bound holds of launches under every schedule that takes free permits
      at once exactly when there is a permit for every port, or at most one more attempt to make than there
      are permits; asking no task ever to dawdle does not help. */
  lemma PunctualBoundExactly(c: Config, interval: real, start: real, n: nat)
    requires interval > 0.0
    ensures WindowBounded(Both(Taken, Punctual(0.0)), c, NewScan(c, Some(interval), start, n), interval) <==> PermitsSuffice(c, n)
    ensures WindowBounded(ALERT, c, NewScan(c, Some(interval), start, n), interval) <==> PermitsSuffice(c, n)
  {
    var s, rule := NewScan(c, Some(interval), start, n), Both(Taken, Punctual(0.0));
    if PermitsSuffice(c, n) {
      forall es, from: real, to: real | Runs(c, s, es) && AllKeep(rule, c, s, es) && from <= to
        ensures Within(Final(c, s, es).gate.launches, from, to) <= Whole(to - from, interval) + 1
      {
        AllKeepBoth(Taken, Punctual(0.0), c, s, es);
        SufficientAreBounded(c, interval, start, n, es, from, to);
      }
      forall es, from: real, to: real | Runs(c, s, es) && AllKeep(ALERT, c, s, es) && from <= to
        ensures Within(Final(c, s, es).gate.launches, from, to) <= Whole(to - from, interval) + 1
      {
        AlertIsTaken(c, s, es);
      }
    } else {
      var es, t, at := BlockedCanBunch(c, interval, start, n);
      var before :| t.gate.launches == before + [at] + [at];
      AlertIsTaken(c, s, es);
      TwiceAtOnce(ALERT, c, s, interval, es, before, at);
      TwiceAtOnce(rule, c, s, interval, es, before, at);
    }
  }

  lemma AlertIsTaken(c: Config, s: System, es: seq<Event>)
    requires Runs(c, s, es) && AllKeep(ALERT, c, s, es)
    ensures AllKeep(Both(Taken, Punctual(0.0)), c, s, es)
  {
    AllKeepBoth(Eager, Punctual(0.0), c, s, es);
    EagerIsTaken(c, s, es);
    AllKeepBoth(Taken, Punctual(0.0), c, s, es);
  }
}
