/** What a rate gate guarantees about the probes launched through it. */
module Pacing {
  import opened Wrappers
  import opened Rate
  import opened Probing

  /** How many of these times are at or before t. */
  function Count(times: seq<real>, t: real): (n: nat)
    ensures n <= |times|
  {
    if times == [] then 0
    else Count(times[..|times| - 1], t) + if times[|times| - 1] <= t then 1 else 0
  }

  lemma CountSnoc(times: seq<real>, x: real, t: real)
    ensures Count(times + [x], t) == Count(times, t) + if x <= t then 1 else 0
  {
    assert (times + [x])[..|times|] == times;
  }

  lemma {:induction false} CountBound(times: seq<real>, t: real, most: nat)
    requires forall k :: 0 <= k < |times| && times[k] <= t ==> k < most
    ensures Count(times, t) <= most
  {
    if |times| > most {
      CountBound(times[..|times| - 1], t, most);
    }
  }

  /** A slot up to t that a task holds but has not used yet. */
  function Holding(t: real, task: Task): nat {
    match task.phase
    case Sleeping(until) => if until <= t then 1 else 0
    case Queued(slot) => if slot <= t then 1 else 0
    case _ => 0
  }

  function HoldingBy(t: real): Task -> nat { task => Holding(t, task) }

  function Held(g: Group, t: real): nat { Total(HoldingBy(t), g.tasks) }

  /** Nobody queues for a permit before the slot has opened. */
  ghost predicate QueuedOk(now: real, g: Group) {
    forall i :: 0 <= i < |g.tasks| ==> g.tasks[i].phase.Queued? ==> g.tasks[i].phase.slot <= now
  }

  /** The slots handed out follow the pacer: the k-th not before k intervals after the start. */
  ghost predicate SlotsOk(gate: Gate, start: real) {
    gate.interval.Some? ==>
      && gate.interval.value > 0.0
      && gate.next >= start + Span(|gate.slots|, gate.interval.value)
      && forall k: nat :: k < |gate.slots| ==> gate.slots[k] >= start + Span(k, gate.interval.value)
  }

  lemma ReservedSlotsOk(gate: Gate, start: real, now: real)
    requires SlotsOk(gate, start)
    ensures SlotsOk(Reserved(gate, now), start)
  {
  }

  /** A step by one task uses up a slot for every launch: with `slots` the slots given out up to t,
      launches plus slots held never grows faster. */
  lemma ActBalance(c: Config, s: System, a: Action, t: real)
    requires Enabled(s, a) && QueuedOk(s.now, s.group)
    ensures var s' := Act(c, s, a);
            && QueuedOk(s'.now, s'.group)
            && Count(s'.gate.launches, t) + Held(s'.group, t) + Count(s.gate.slots, t)
               <= Count(s.gate.launches, t) + Held(s.group, t) + Count(s'.gate.slots, t)
  {
    var moved := MovedTask(c, s, a);
    TotalUpdate(HoldingBy(t), s.group.tasks, a.task, moved);
    CountSnoc(s.gate.slots, SlotNow(s.gate, s.now), t);
    CountSnoc(s.gate.launches, s.now, t);
  }

  lemma ActSlotsOk(c: Config, s: System, a: Action, start: real)
    requires Enabled(s, a) && SlotsOk(s.gate, start)
    ensures SlotsOk(Act(c, s, a).gate, start)
  {
    if a.Reserve? {
      ReservedSlotsOk(s.gate, start, s.now);
    }
  }

  /** A gate just made at `start`, with nothing handed out. */
  function NewGate(interval: Option<real>, start: real): Gate { Gate(interval, start, [], []) }

  /** With launches never ahead of slots, at most one launch, and one more for every whole interval
      since the start, has happened by time t. */
  lemma LaunchBound(gate: Gate, start: real, t: real)
    requires SlotsOk(gate, start) && gate.interval.Some? && Count(gate.launches, t) <= Count(gate.slots, t)
    ensures t >= start ==> Count(gate.launches, t) <= 1 + ((t - start) / gate.interval.value).Floor
    ensures t < start ==> Count(gate.launches, t) == 0
  {
    var interval := gate.interval.value;
    if t >= start {
      SpanWithin(0, interval, t - start);
      forall k | 0 <= k < |gate.slots| && gate.slots[k] <= t ensures k < 1 + ((t - start) / interval).Floor {
        SpanWithin(k, interval, t - start);
      }
      CountBound(gate.slots, t, 1 + ((t - start) / interval).Floor);
    } else {
      forall k | 0 <= k < |gate.slots| ensures gate.slots[k] > t {
        SpanIsProduct(k, interval);
        assert k as real * interval >= 0.0;
      }
      CountBound(gate.slots, t, 0);
    }
  }

  /** Dividing by an interval is multiplying by its rate. */
  lemma IntervalOfRate(x: real, rate: real, interval: real)
    requires rate > 0.0 && interval == 1.0 / rate
    ensures x / interval == x * rate
  {
    var q := x / interval;
    assert interval * rate == 1.0;
    assert q * interval == x;
    assert q * (interval * rate) == x * rate;
  }

  /** The whole intervals between two times, by the interval or by the rate. */
  function Intervals(t: real, start: real, interval: real): int
    requires interval > 0.0
  {
    ((t - start) / interval).Floor
  }

  function AtRate(t: real, start: real, rate: real): int { ((t - start) * rate).Floor }

  lemma WholeIntervals(t: real, start: real, rate: real, interval: real)
    requires rate > 0.0 && interval == 1.0 / rate && interval > 0.0
    ensures Intervals(t, start, interval) == AtRate(t, start, rate)
  {
    var length := t - start;
    IntervalOfRate(length, rate, interval);
    assert Intervals(t, start, interval) == (length / interval).Floor;
    assert AtRate(t, start, rate) == (length * rate).Floor;
  }

  lemma {:induction false} RunBalance(c: Config, s: System, es: seq<Event>, start: real, t: real)
    requires Runs(c, s, es) && QueuedOk(s.now, s.group) && SlotsOk(s.gate, start)
    requires Count(s.gate.launches, t) + Held(s.group, t) <= Count(s.gate.slots, t)
    ensures var f := Final(c, s, es);
            SlotsOk(f.gate, start) && Count(f.gate.launches, t) <= Count(f.gate.slots, t)
    ensures Final(c, s, es).gate.interval == s.gate.interval
    decreases |es|
  {
    if es != [] {
      if es[0].Do? {
        ActBalance(c, s, es[0].action, t);
        ActSlotsOk(c, s, es[0].action, start);
      }
      RunBalance(c, After(c, s, es[0]), es[1..], start, t);
    }
  }

  /** A scan of n ports about to start. */
  function NewScan(c: Config, interval: Option<real>, start: real, n: nat): System {
    System(start, NewGate(interval, start), NewGroup(c, n))
  }

  lemma ScanIntervalBound(c: Config, interval: real, start: real, n: nat, es: seq<Event>, t: real)
    requires interval > 0.0 && t >= start && Runs(c, NewScan(c, Some(interval), start, n), es)
    ensures Count(Final(c, NewScan(c, Some(interval), start, n), es).gate.launches, t)
         <= 1 + Intervals(t, start, interval)
  {
    var s := NewScan(c, Some(interval), start, n);
    TotalZero(HoldingBy(t), NewTasks(n));
    RunBalance(c, s, es, start, t);
    LaunchBound(Final(c, s, es).gate, start, t);
  }

  /** Scanning one host at a rate: under every schedule, however long tasks queue for a permit and
      however often they retry, at most 1 + floor((t - start) * rate) probes are launched by t. */
  lemma ScanRateBound(c: Config, rate: real, interval: real, start: real, n: nat, es: seq<Event>, t: real)
    requires rate > 0.0 && interval == 1.0 / rate && t >= start
    requires Runs(c, NewScan(c, Some(interval), start, n), es)
    ensures Count(Final(c, NewScan(c, Some(interval), start, n), es).gate.launches, t)
         <= 1 + AtRate(t, start, rate)
  {
    ScanIntervalBound(c, interval, start, n, es, t);
    WholeIntervals(t, start, rate, interval);
  }

  /** The gate's reservation step is what one acquire of the real limiter does. */
  method AcquireIsReservation(limiter: AsyncRateLimiter, ghost gate: Gate, now: real) returns (until: real)
    requires gate.interval == Some(limiter.pacer.interval) && gate.next == limiter.pacer.next
    modifies limiter.pacer
    ensures until == SlotNow(gate, now) >= now
    ensures limiter.pacer.next == Reserved(gate, now).next
  {
    until := limiter.Acquire(now);
  }
}
