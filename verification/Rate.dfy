/** The pacer that spaces probe slots, and the limiter around it. Times are real seconds. */
module Rate {
  import opened Wrappers

  function Later(a: real, b: real): real { if a > b then a else b }

  /** k intervals, one after another. */
  function Span(k: nat, interval: real): real { if k == 0 then 0.0 else Span(k - 1, interval) + interval }

  lemma {:induction false} SpanIsProduct(k: nat, interval: real)
    ensures Span(k, interval) == k as real * interval
  {
    if k > 0 {
      SpanIsProduct(k - 1, interval);
      OneMore((k - 1) as real, interval);
    }
  }

  lemma OneMore(a: real, x: real)
    ensures (a + 1.0) * x == a * x + x
  {
  }

  // ---------------------------------------------------------------------------
  // The pacer
  // ---------------------------------------------------------------------------

  datatype RateError = RateNotPositive

  class Pacer {
    const interval: real
    var next: real

    constructor (rate: real, start: real)
      requires rate > 0.0
      ensures interval == 1.0 / rate && next == start
    {
      interval := 1.0 / rate;
      next := start;
    }

    /** Seconds to wait from `now` until the slot reserved opens. */
    method Reserve(now: real) returns (wait: real)
      modifies this
      ensures wait >= 0.0 && now + wait == Later(old(next), now)
      ensures next == now + wait + interval
    {
      var slot := if next > now then next else now;
      next := slot + interval;
      wait := slot - now;
    }
  }

  /** The constructor's ValueError is the error result. */
  method NewPacer(rate: real, start: real) returns (r: Result<Pacer, RateError>)
    ensures r.Err? <==> rate <= 0.0
    ensures r.Ok? ==> fresh(r.value) && r.value.interval == 1.0 / rate && r.value.next == start
  {
    if rate <= 0.0 {
      return Err(RateNotPositive);
    }
    var pacer := new Pacer(rate, start);
    return Ok(pacer);
  }

  /** The lock is held across no suspension, so one acquire is one reservation and then a wait. */
  class AsyncRateLimiter {
    const pacer: Pacer

    constructor (pacer: Pacer)
      ensures this.pacer == pacer
    {
      this.pacer := pacer;
    }

    /** The time before which the caller does not go on. */
    method Acquire(now: real) returns (until: real)
      modifies pacer
      ensures until == Later(old(pacer.next), now)
      ensures pacer.next == until + pacer.interval
    {
      var wait := pacer.Reserve(now);
      until := if wait > 0.0 then now + wait else now;
    }
  }

  // ---------------------------------------------------------------------------
  // Slots over a run
  // ---------------------------------------------------------------------------

  /** Slot n of a pacer started at `start` and asked at these times. */
  function SlotAt(start: real, interval: real, nows: seq<real>, n: nat): real
    requires n < |nows|
  {
    if n == 0 then Later(start, nows[0]) else Later(SlotAt(start, interval, nows, n - 1) + interval, nows[n])
  }

  /** A pacer asked at these times, one call after another. */
  method ReserveAll(rate: real, start: real, nows: seq<real>) returns (waits: seq<real>)
    requires rate > 0.0
    ensures |waits| == |nows|
    ensures forall n :: 0 <= n < |nows| ==> waits[n] >= 0.0 && nows[n] + waits[n] == SlotAt(start, 1.0 / rate, nows, n)
  {
    var pacer := new Pacer(rate, start);
    ghost var interval := pacer.interval;
    waits := [];
    for n := 0 to |nows|
      invariant |waits| == n
      invariant pacer.next == if n == 0 then start else SlotAt(start, interval, nows, n - 1) + interval
      invariant forall k :: 0 <= k < n ==> waits[k] >= 0.0 && nows[k] + waits[k] == SlotAt(start, interval, nows, k)
    {
      var wait := pacer.Reserve(nows[n]);
      waits := waits + [wait];
    }
  }

  /** What request k, or the start, allows for slot n. */
  function FromRequest(interval: real, nows: seq<real>, n: nat, k: nat): real
    requires k <= n && k < |nows|
  {
    nows[k] + Span(n - k, interval)
  }

  function FromStart(start: real, interval: real, n: nat): real { start + Span(n, interval) }

  /** Closed form: slot n is the greatest of start + n intervals and, for every k up to n, request
      time k plus n - k intervals, whatever the request times are. */
  lemma {:induction false} SlotClosedForm(start: real, interval: real, nows: seq<real>, n: nat)
    requires n < |nows|
    ensures SlotAt(start, interval, nows, n) >= FromStart(start, interval, n)
    ensures forall k :: 0 <= k <= n ==> SlotAt(start, interval, nows, n) >= FromRequest(interval, nows, n, k)
    ensures SlotAt(start, interval, nows, n) == FromStart(start, interval, n)
         || exists k :: 0 <= k <= n && SlotAt(start, interval, nows, n) == FromRequest(interval, nows, n, k)
  {
    var slot := SlotAt(start, interval, nows, n);
    assert FromRequest(interval, nows, n, n) == nows[n];
    if n > 0 {
      SlotClosedForm(start, interval, nows, n - 1);
      var before := SlotAt(start, interval, nows, n - 1);
      assert FromStart(start, interval, n) == FromStart(start, interval, n - 1) + interval;
      forall k | 0 <= k <= n ensures slot >= FromRequest(interval, nows, n, k) {
        if k < n {
          assert FromRequest(interval, nows, n, k) == FromRequest(interval, nows, n - 1, k) + interval;
        }
      }
      if slot != nows[n] && before != FromStart(start, interval, n - 1) {
        var k :| 0 <= k <= n - 1 && before == FromRequest(interval, nows, n - 1, k);
        assert FromRequest(interval, nows, n, k) == FromRequest(interval, nows, n - 1, k) + interval;
      }
    }
  }

  /** Slots are at least one interval apart, so slots m and n at least n - m intervals. */
  lemma {:induction false} SlotsSpaced(start: real, interval: real, nows: seq<real>, m: nat, n: nat)
    requires m <= n < |nows|
    ensures SlotAt(start, interval, nows, n) >= SlotAt(start, interval, nows, m) + Span(n - m, interval)
    decreases n
  {
    if m < n {
      SlotsSpaced(start, interval, nows, m, n - 1);
    }
  }

  // ---------------------------------------------------------------------------
  // Counting
  // ---------------------------------------------------------------------------

  /** lo and the n - 1 numbers after it. */
  function Indices(lo: nat, n: nat): (r: set<nat>)
    ensures |r| == n && forall k :: k in r <==> lo <= k < lo + n
  {
    if n == 0 then {} else Indices(lo, n - 1) + {lo + n - 1}
  }

  lemma SubsetCount(xs: set<nat>, ys: set<nat>)
    requires xs <= ys
    ensures |xs| <= |ys|
  {
    assert |ys| == |xs| + |ys - xs| by {
      assert xs + (ys - xs) == ys && xs !! (ys - xs);
    }
  }

  lemma {:induction false} LeastIndex(xs: set<nat>) returns (least: nat)
    requires xs != {}
    ensures least in xs && forall k: nat :: k in xs ==> least <= k
    decreases |xs|
  {
    var some: nat :| some in xs;
    least := some;
    if exists k: nat :: k in xs && k < some {
      var below := set k | k in xs && k < some;
      assert below != {} && some !in below;
      SubsetCount(below, xs - {some});
      assert |below| < |xs|;
      least := LeastIndex(below);
      forall k: nat | k in xs ensures least <= k {
        assert k < some ==> k in below;
      }
    }
  }

  lemma QuotientBound(x: real, interval: real, length: real)
    requires interval > 0.0 && x * interval <= length
    ensures x <= length / interval
  {
    var q := length / interval;
    assert q * interval == length;
    if x > q {
      assert (x - q) * interval > 0.0;
      assert (x - q) * interval == x * interval - q * interval;
    }
  }

  /** k intervals within a length of time: k is at most the whole intervals it covers. */
  lemma SpanWithin(k: nat, interval: real, length: real)
    requires interval > 0.0 && Span(k, interval) <= length
    ensures k <= (length / interval).Floor
  {
    SpanIsProduct(k, interval);
    QuotientBound(k as real, interval, length);
  }

  /** The requests whose slots open within the window. */
  function WindowSlots(start: real, interval: real, nows: seq<real>, from: real, length: real): (r: set<nat>)
    ensures forall k: nat :: k in r <==> k < |nows| && from <= SlotAt(start, interval, nows, k) <= from + length
  {
    set k: nat | k < |nows| && from <= SlotAt(start, interval, nows, k) <= from + length
  }

  /** However the requests come, any window of the given length holds at most one slot more than
      the whole intervals it covers; idle time is never banked into a burst. */
  lemma WindowBound(start: real, interval: real, nows: seq<real>, from: real, length: real)
    requires interval > 0.0 && length >= 0.0
    ensures |WindowSlots(start, interval, nows, from, length)| <= (length / interval).Floor + 1
  {
    var inside := WindowSlots(start, interval, nows, from, length);
    SpanWithin(0, interval, length);
    var most: nat := (length / interval).Floor;
    if inside != {} {
      var first := LeastIndex(inside);
      forall k | k in inside ensures k in Indices(first, most + 1) {
        SlotsSpaced(start, interval, nows, first, k);
        SpanWithin(k - first, interval, length);
      }
      SubsetCount(inside, Indices(first, most + 1));
    }
  }
}
