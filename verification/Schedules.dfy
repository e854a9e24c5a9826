/** Schedules of a group of probe tasks, what can be asked of them, and the launches they make.

    A task never stops of its own accord between getting a permit that is free and probing, nor between
    an answer and its next reservation, so the runs looked at here are those of such tasks. What can
    hold a launch up is a sleep that ends late, or a permit somebody else has. */
module Schedules {
  import opened Wrappers
  import opened Rate
  import opened Probing
  import opened Pacing

  predicate Inside(t: real, lo: real, hi: real) { lo <= t <= hi }

  /** How many of these times lie from lo to hi. */
  function Within(times: seq<real>, lo: real, hi: real): (n: nat)
    ensures n <= |times|
  {
    if times == [] then 0
    else Within(times[..|times| - 1], lo, hi) + if Inside(times[|times| - 1], lo, hi) then 1 else 0
  }

  lemma WithinSnoc(times: seq<real>, x: real, lo: real, hi: real)
    ensures Within(times + [x], lo, hi) == Within(times, lo, hi) + if Inside(x, lo, hi) then 1 else 0
  {
    assert (times + [x])[..|times|] == times;
  }

  /** The whole intervals in a length of time. */
  function Whole(length: real, interval: real): int
    requires interval > 0.0
  {
    (length / interval).Floor
  }

  lemma WholeNone(interval: real)
    requires interval > 0.0
    ensures Whole(0.0, interval) == 0
  {
  }

  lemma WholeNat(length: real, interval: real)
    requires interval > 0.0 && length >= 0.0
    ensures Whole(length, interval) >= 0
  {
    SpanWithin(0, interval, length);
  }

  // ---------------------------------------------------------------------------
  // Schedules
  // ---------------------------------------------------------------------------

  /** What can be asked of a schedule. */
  datatype Rule =
    | Taken                  // time passes only while nobody queues for a permit that is free
    | Eager                  // time passes only while everybody sleeps, is in flight, is done, or queues with no permit free
    | Punctual(late: real)   // nobody is left asleep for longer than this after the slot has opened
    | Prompt(delay: real)    // no launch comes later than this after its slot
    | Both(one: Rule, other: Rule)

  predicate Keeps(rule: Rule, s: System, e: Event)
    requires Possible(s, e)
  {
    match rule
    case Taken =>
      e.Pass? && e.time > 0.0 ==>
        s.group.permits == 0 || forall i :: 0 <= i < |s.group.tasks| ==> !s.group.tasks[i].phase.Queued?
    case Eager =>
      e.Pass? && e.time > 0.0 ==>
        forall i :: 0 <= i < |s.group.tasks| ==>
          var phase := s.group.tasks[i].phase;
          phase.Sleeping? || phase.InFlight? || phase.Done? || (phase.Queued? && s.group.permits == 0)
    case Punctual(late) =>
      e.Pass? ==>
        forall i :: 0 <= i < |s.group.tasks| && s.group.tasks[i].phase.Sleeping? ==>
          s.now + e.time <= s.group.tasks[i].phase.until + late
    case Prompt(delay) =>
      e.Do? && e.action.Enter? ==> s.now <= s.group.tasks[e.action.task].phase.slot + delay
    case Both(one, other) => Keeps(one, s, e) && Keeps(other, s, e)
  }

  predicate AllKeep(rule: Rule, c: Config, s: System, es: seq<Event>)
    requires Runs(c, s, es)
    decreases |es|
  {
    es == [] || (Keeps(rule, s, es[0]) && AllKeep(rule, c, After(c, s, es[0]), es[1..]))
  }

  lemma {:induction false} AllKeepBoth(one: Rule, other: Rule, c: Config, s: System, es: seq<Event>)
    requires Runs(c, s, es)
    ensures AllKeep(Both(one, other), c, s, es) <==> AllKeep(one, c, s, es) && AllKeep(other, c, s, es)
    decreases |es|
  {
    if es != [] {
      AllKeepBoth(one, other, c, After(c, s, es[0]), es[1..]);
    }
  }

  lemma {:induction false} EagerIsTaken(c: Config, s: System, es: seq<Event>)
    requires Runs(c, s, es) && AllKeep(Eager, c, s, es)
    ensures AllKeep(Taken, c, s, es)
    decreases |es|
  {
    if es != [] {
      EagerIsTaken(c, After(c, s, es[0]), es[1..]);
    }
  }

  /** The bound that holds of slots: in every run that keeps the rule, and every window, the whole
      intervals and one more. */
  ghost predicate WindowBounded(rule: Rule, c: Config, s: System, interval: real)
    requires interval > 0.0
  {
    forall es, from: real, to: real :: Runs(c, s, es) && AllKeep(rule, c, s, es) && from <= to ==>
      Within(Final(c, s, es).gate.launches, from, to) <= Whole(to - from, interval) + 1
  }

  // ---------------------------------------------------------------------------
  // The attempts there are to make
  // ---------------------------------------------------------------------------

  /** What the sequential retry loops of n tasks come to. */
  function AttemptsToMake(c: Config, n: nat): nat { if n == 0 then 0 else AttemptsToMake(c, n - 1) + SettledAt(c, n - 1, 0) + 1 }

  lemma {:induction false} NotSettledBefore(c: Config, i: nat, t: Task, k: nat)
    requires TaskOk(c, i, t) && !t.phase.Done? && k <= |t.replies|
    ensures SettledAt(c, i, k) >= |t.replies|
    decreases |t.replies| - k
  {
    if k < |t.replies| {
      assert t.replies[k] == c.oracle(i, k);
      NotSettledBefore(c, i, t, k + 1);
    } else {
      SettledAtLeast(c, i, k);
    }
  }

  lemma {:induction false} SettledAtLeast(c: Config, i: nat, k: nat)
    requires k < Budget(c)
    ensures SettledAt(c, i, k) >= k
    decreases Budget(c) - k
  {
    if k + 1 < Budget(c) {
      SettledAtLeast(c, i, k + 1);
    }
  }

  lemma AttemptsAre(c: Config, i: nat, t: Task)
    requires TaskOk(c, i, t)
    ensures Attempts(t) <= SettledAt(c, i, 0) + 1
    ensures t.phase.Done? ==> Attempts(t) == SettledAt(c, i, 0) + 1
  {
    if t.phase.Done? {
      SettledAtIs(c, i, t, 0);
    } else {
      NotSettledBefore(c, i, t, 0);
    }
  }

  lemma {:induction false} TotalSnoc<T>(f: T -> nat, xs: seq<T>, x: T)
    ensures Total(f, xs + [x]) == Total(f, xs) + f(x)
  {
    if xs == [] {
      assert xs + [x] == [x] && [x][1..] == [];
    } else {
      assert (xs + [x])[0] == xs[0] && (xs + [x])[1..] == xs[1..] + [x];
      TotalSnoc(f, xs[1..], x);
    }
  }

  /** The first n tasks make no more attempts than that, and exactly that many once they are done. */
  lemma {:induction false} AttemptsInAll(c: Config, g: Group, n: nat)
    requires n <= |g.tasks| && forall i :: 0 <= i < |g.tasks| ==> TaskOk(c, i, g.tasks[i])
    ensures Total(Attempts, g.tasks[..n]) <= AttemptsToMake(c, n)
    ensures AllDone(g) ==> Total(Attempts, g.tasks[..n]) == AttemptsToMake(c, n)
  {
    if n > 0 {
      AttemptsInAll(c, g, n - 1);
      AttemptsAre(c, n - 1, g.tasks[n - 1]);
      assert g.tasks[..n] == g.tasks[..n - 1] + [g.tasks[n - 1]];
      TotalSnoc(Attempts, g.tasks[..n - 1], g.tasks[n - 1]);
    }
  }

  lemma ActLaunches(c: Config, s: System, a: Action)
    requires Enabled(s, a)
    ensures |Act(c, s, a).gate.launches| + Total(Attempts, s.group.tasks)
         == |s.gate.launches| + Total(Attempts, Act(c, s, a).group.tasks)
  {
    TotalUpdate(Attempts, s.group.tasks, a.task, MovedTask(c, s, a));
  }

  /** Every launch is an attempt of some task. */
  lemma {:induction false} RunLaunches(c: Config, s: System, es: seq<Event>)
    requires Runs(c, s, es) && |s.gate.launches| == Total(Attempts, s.group.tasks)
    ensures |Final(c, s, es).gate.launches| == Total(Attempts, Final(c, s, es).group.tasks)
    decreases |es|
  {
    if es != [] {
      if es[0].Do? {
        ActLaunches(c, s, es[0].action);
      }
      RunLaunches(c, After(c, s, es[0]), es[1..]);
    }
  }

  /** No more launches than attempts to make; and while there are fewer, some task is not done. */
  lemma LaunchesInAll(c: Config, interval: Option<real>, start: real, n: nat, es: seq<Event>)
    requires Runs(c, NewScan(c, interval, start, n), es)
    ensures var f := Final(c, NewScan(c, interval, start, n), es);
            && |f.gate.launches| <= AttemptsToMake(c, n) && |f.group.tasks| == n && GroupOk(c, f.group)
            && (|f.gate.launches| < AttemptsToMake(c, n) ==> !AllDone(f.group))
  {
    var s := NewScan(c, interval, start, n);
    var g := Final(c, s, es).group;
    NewGroupOk(c, n);
    RunGroupOk(c, s, es);
    TotalZero(Attempts, NewTasks(n));
    RunLaunches(c, s, es);
    AttemptsInAll(c, g, n);
    assert g.tasks[..n] == g.tasks;
  }

  lemma {:induction false} NothingLaunched(c: Config, s: System, es: seq<Event>)
    requires Runs(c, s, es) && GroupOk(c, s.group) && c.concurrency == 0 && s.gate.launches == []
    ensures Final(c, s, es).gate.launches == []
    decreases |es|
  {
    if es != [] {
      if es[0].Do? {
        ActGroupOk(c, s, es[0].action);
      }
      NothingLaunched(c, After(c, s, es[0]), es[1..]);
    }
  }

  // ---------------------------------------------------------------------------
  // Spaced times
  // ---------------------------------------------------------------------------

  predicate Spaced(times: seq<real>, interval: real) {
    forall j, k :: 0 <= j < k < |times| ==> times[k] >= times[j] + interval
  }

  /** The last of the spaced times in a window is as many intervals in as there are times before it. */
  lemma {:induction false} LastInside(times: seq<real>, interval: real, lo: real, hi: real) returns (k: nat)
    requires interval > 0.0 && Spaced(times, interval) && Within(times, lo, hi) > 0
    ensures k < |times| && times[k] <= hi && times[k] >= lo + Span(Within(times, lo, hi) - 1, interval)
  {
    var front, last := times[..|times| - 1], |times| - 1;
    if Within(front, lo, hi) == 0 {
      k := last;
    } else {
      k := LastInside(front, interval, lo, hi);
      if Inside(times[last], lo, hi) {
        assert times[last] >= times[k] + interval;
        k := last;
      }
    }
  }

  lemma SpacedBound(times: seq<real>, interval: real, lo: real, hi: real)
    requires interval > 0.0 && Spaced(times, interval) && lo <= hi
    ensures Within(times, lo, hi) <= Whole(hi - lo, interval) + 1
  {
    if Within(times, lo, hi) > 0 {
      var k := LastInside(times, interval, lo, hi);
      SpanWithin(Within(times, lo, hi) - 1, interval, hi - lo);
    } else {
      WholeNat(hi - lo, interval);
    }
  }

  lemma TwiceAtOnce(rule: Rule, c: Config, s: System, interval: real, es: seq<Event>, before: seq<real>, at: real)
    requires interval > 0.0 && Runs(c, s, es) && AllKeep(rule, c, s, es)
    requires Final(c, s, es).gate.launches == before + [at] + [at]
    ensures !WindowBounded(rule, c, s, interval)
  {
    WithinSnoc(before + [at], at, at, at);
    WithinSnoc(before, at, at, at);
    WholeNone(interval);
    assert Whole(at - at, interval) == 0;
  }

  // ---------------------------------------------------------------------------
  // Building runs
  // ---------------------------------------------------------------------------

  ghost predicate Leads(rule: Rule, c: Config, s: System, es: seq<Event>, t: System) {
    Runs(c, s, es) && AllKeep(rule, c, s, es) && Final(c, s, es) == t
  }

  lemma LeadsBy(rule: Rule, c: Config, s: System, e: Event, s': System, es: seq<Event>, t: System)
    requires Possible(s, e) && Keeps(rule, s, e) && After(c, s, e) == s' && Leads(rule, c, s', es, t)
    ensures Leads(rule, c, s, [e] + es, t)
  {
    assert ([e] + es)[1..] == es;
  }

  lemma {:induction false} LeadsOn(rule: Rule, c: Config, s: System, es: seq<Event>, t: System, fs: seq<Event>, u: System)
    requires Leads(rule, c, s, es, t) && Leads(rule, c, t, fs, u)
    ensures Leads(rule, c, s, es + fs, u)
    decreases |es|
  {
    if es == [] {
      assert es + fs == fs;
    } else {
      LeadsOn(rule, c, After(c, s, es[0]), es[1..], t, fs, u);
      LeadsBy(rule, c, s, es[0], After(c, s, es[0]), es[1..] + fs, u);
      assert es + fs == [es[0]] + (es[1..] + fs);
    }
  }
}
