/** What every run of the detector guarantees, whatever packets it is fed. */
module DetectorTheorems {
  import opened Wrappers
  import opened Bytes
  import opened Packet
  import opened OtDetect
  import Iec104

  // ---------------------------------------------------------------------------
  // One step, with what was seen before separated out
  // ---------------------------------------------------------------------------

  /** The alerts a packet causes whatever was seen before. */
  function FixedAlerts(b: Baseline, p: Packet): seq<Alert> {
    if !Relevant(b, p) then []
    else
      var protocol := OtPort(p.dport.value).value;
      SynAlerts(b, p, protocol) + if p.payload == [] then [] else MessageAlerts(b, p, protocol)
  }

  /** The pairs a packet makes known. */
  function NewPairs(b: Baseline, p: Packet): set<Pair> { if Relevant(b, p) then Talk(b, p) else {} }

  /** A relevant packet with a payload or a bare SYN from a station that is not in charge. */
  predicate Offends(b: Baseline, p: Packet) {
    Relevant(b, p) && Unauthorised(b, p.src) && (p.payload != [] || BareSyn(p))
  }

  lemma {:induction false} Iec104Senders(b: Baseline, p: Packet, apdus: seq<Iec104.Apdu>, k: nat)
    requires k < |Iec104Alerts(b, p, apdus)|
    ensures var a := Iec104Alerts(b, p, apdus)[k];
            a.src == p.src && a.dst == p.dst && a.finding != NewTalker && (Unauthorised(b, p.src) ==> a.severity != Info)
  {
    var front := apdus[..|apdus| - 1];
    if k < |Iec104Alerts(b, p, front)| {
      Iec104Senders(b, p, front, k);
    }
  }

  /** Every alert of a packet names its endpoints; only the talker rule reports new talkers; and
      nothing from an unauthorised source is mere information. */
  lemma MessageSenders(b: Baseline, p: Packet, protocol: OtProtocol, k: nat)
    requires k < |MessageAlerts(b, p, protocol)|
    ensures var a := MessageAlerts(b, p, protocol)[k];
            a.src == p.src && a.dst == p.dst && a.finding != NewTalker && (Unauthorised(b, p.src) ==> a.severity != Info)
  {
    if protocol.Iec104Tcp? {
      Iec104Senders(b, p, Iec104.Apdus(p.payload, APDU_LIMIT), k);
    }
  }

  lemma FixedSenders(b: Baseline, p: Packet, k: nat)
    requires k < |FixedAlerts(b, p)|
    ensures var a := FixedAlerts(b, p)[k];
            a.src == p.src && a.dst == p.dst && a.finding != NewTalker && (Unauthorised(b, p.src) ==> a.severity != Info)
  {
    var protocol := OtPort(p.dport.value).value;
    var n := |SynAlerts(b, p, protocol)|;
    if k >= n {
      MessageSenders(b, p, protocol, k - n);
    }
  }

  /** The sources convicted by a list of alerts all from p. */
  lemma ConvictedBy(b: Baseline, p: Packet, alerts: seq<Alert>)
    requires forall k :: 0 <= k < |alerts| ==> alerts[k].src == p.src && (Unauthorised(b, p.src) ==> alerts[k].severity != Info)
    ensures Convicted(b, alerts) == if Unauthorised(b, p.src) && alerts != [] then {p.src.value} else {}
  {
    if Unauthorised(b, p.src) && alerts != [] {
      assert alerts[0].src == p.src;
      assert p.src.value in Convicted(b, alerts);
    }
  }

  lemma FixedConvicts(b: Baseline, p: Packet)
    ensures Convicted(b, FixedAlerts(b, p)) == if Unauthorised(b, p.src) && FixedAlerts(b, p) != [] then {p.src.value} else {}
  {
    forall k | 0 <= k < |FixedAlerts(b, p)|
      ensures FixedAlerts(b, p)[k].src == p.src && (Unauthorised(b, p.src) ==> FixedAlerts(b, p)[k].severity != Info)
    {
      FixedSenders(b, p, k);
    }
    ConvictedBy(b, p, FixedAlerts(b, p));
  }

  /** The source a packet convicts, given the pairs already seen. */
  function Convicts(b: Baseline, p: Packet, seen: set<Pair>): set<Address> {
    if Unauthorised(b, p.src) && (FixedAlerts(b, p) != [] || !(NewPairs(b, p) <= seen)) then {p.src.value} else {}
  }

  function FreshCount(pairs: set<Pair>, seen: set<Pair>): nat { if pairs <= seen then 0 else 1 }

  function Ops(b: Baseline, p: Packet): set<Operation> { if Relevant(b, p) then PacketOps(p) else {} }

  lemma AlertsShape(b: Baseline, p: Packet, seen: set<Pair>)
    ensures |PacketAlerts(b, p, seen)| == |FixedAlerts(b, p)| + FreshCount(NewPairs(b, p), seen)
    ensures Convicted(b, PacketAlerts(b, p, seen)) == Convicts(b, p, seen)
  {
    FixedConvicts(b, p);
    if Relevant(b, p) && p.payload != [] {
      var protocol := OtPort(p.dport.value).value;
      var syn, talker, message := SynAlerts(b, p, protocol), TalkerAlerts(b, p, protocol, seen), MessageAlerts(b, p, protocol);
      ConvictedConcat(b, syn, talker + message);
      ConvictedConcat(b, talker, message);
      ConvictedConcat(b, syn, message);
      ConvictedBy(b, p, talker);
    }
  }

  /** The state after one packet, field by field. */
  lemma StepShape(b: Baseline, s: State, p: Packet)
    ensures Step(b, s, p)
         == State(s.packets + (if Relevant(b, p) then 1 else 0),
                  s.alerts + |FixedAlerts(b, p)| + FreshCount(NewPairs(b, p), s.seen),
                  s.hostile + Convicts(b, p, s.seen),
                  s.observed + Ops(b, p),
                  s.seen + NewPairs(b, p))
  {
    AlertsShape(b, p, s.seen);
  }

  // ---------------------------------------------------------------------------
  // Order does not matter
  // ---------------------------------------------------------------------------

  /** Two packets leave the same state in either order, from any state. */
  lemma StepsCommute(b: Baseline, s: State, p: Packet, q: Packet)
    ensures Step(b, Step(b, s, p), q) == Step(b, Step(b, s, q), p)
  {
    StepShape(b, s, p);
    StepShape(b, s, q);
    var sp, sq := Step(b, s, p), Step(b, s, q);
    StepShape(b, sp, q);
    StepShape(b, sq, p);
    CommuteSets(s.seen, NewPairs(b, p), NewPairs(b, q));
    CommuteSets(s.observed, Ops(b, p), Ops(b, q));
    CommuteCounts(b, s.seen, p, q);
    CommuteHostile(b, s, p, q);
  }

  lemma CommuteSets<T>(s: set<T>, x: set<T>, y: set<T>)
    ensures s + x + y == s + y + x
  {
  }

  lemma CommuteCounts(b: Baseline, seen: set<Pair>, p: Packet, q: Packet)
    ensures FreshCount(NewPairs(b, p), seen) + FreshCount(NewPairs(b, q), seen + NewPairs(b, p))
         == FreshCount(NewPairs(b, q), seen) + FreshCount(NewPairs(b, p), seen + NewPairs(b, q))
  {
  }

  lemma CommuteHostile(b: Baseline, s: State, p: Packet, q: Packet)
    ensures s.hostile + Convicts(b, p, s.seen) + Convicts(b, q, s.seen + NewPairs(b, p))
         == s.hostile + Convicts(b, q, s.seen) + Convicts(b, p, s.seen + NewPairs(b, q))
  {
  }

  function Without(ps: seq<Packet>, k: nat): seq<Packet>
    requires k < |ps|
  {
    ps[..k] + ps[k + 1..]
  }

  /** Any packet of a run can be fed first. */
  lemma {:induction false} FeedFirst(b: Baseline, s: State, ps: seq<Packet>, k: nat)
    requires k < |ps|
    ensures Run(b, s, ps) == Run(b, Step(b, s, ps[k]), Without(ps, k))
    decreases k
  {
    if k == 0 {
      assert Without(ps, 0) == ps[1..];
    } else {
      var rest := ps[1..];
      FeedFirst(b, Step(b, s, ps[0]), rest, k - 1);
      StepsCommute(b, s, ps[0], ps[k]);
      assert Without(ps, k)[0] == ps[0] && Without(ps, k)[1..] == Without(rest, k - 1);
    }
  }

  lemma MultisetWithout(ps: seq<Packet>, k: nat)
    requires k < |ps|
    ensures multiset(Without(ps, k)) == multiset(ps) - multiset{ps[k]}
  {
    assert ps == ps[..k] + ([ps[k]] + ps[k + 1..]);
  }

  /** The final state depends only on the multiset of packets fed: any permutation of any run, from
      any state, ends in the same state. */
  lemma {:induction false} OrderIrrelevant(b: Baseline, s: State, ps: seq<Packet>, qs: seq<Packet>)
    requires multiset(ps) == multiset(qs)
    ensures Run(b, s, ps) == Run(b, s, qs)
    decreases |ps|
  {
    if ps == [] {
      assert |multiset(qs)| == 0;
    } else {
      assert ps[0] in multiset(qs);
      var k :| 0 <= k < |qs| && qs[k] == ps[0];
      FeedFirst(b, s, qs, k);
      MultisetWithout(qs, k);
      MultisetWithout(ps, 0);
      assert Without(ps, 0) == ps[1..];
      OrderIrrelevant(b, Step(b, s, ps[0]), ps[1..], Without(qs, k));
    }
  }

  // ---------------------------------------------------------------------------
  // Order free alerts
  // ---------------------------------------------------------------------------

  /** The alerts that do not report a new talker, in order. */
  function NotTalkers(xs: seq<Alert>): seq<Alert> {
    if xs == [] then [] else (if xs[0].finding == NewTalker then [] else [xs[0]]) + NotTalkers(xs[1..])
  }

  lemma {:induction false} NotTalkersConcat(xs: seq<Alert>, ys: seq<Alert>)
    ensures NotTalkers(xs + ys) == NotTalkers(xs) + NotTalkers(ys)
  {
    if xs == [] {
      assert xs + ys == ys;
    } else {
      assert (xs + ys)[0] == xs[0] && (xs + ys)[1..] == xs[1..] + ys;
      NotTalkersConcat(xs[1..], ys);
    }
  }

  lemma {:induction false} AllNotTalkers(xs: seq<Alert>)
    requires forall k :: 0 <= k < |xs| ==> xs[k].finding != NewTalker
    ensures NotTalkers(xs) == xs
  {
    if xs != [] {
      AllNotTalkers(xs[1..]);
    }
  }

  lemma PacketNotTalkers(b: Baseline, p: Packet, seen: set<Pair>)
    ensures NotTalkers(PacketAlerts(b, p, seen)) == FixedAlerts(b, p)
  {
    if Relevant(b, p) {
      var protocol := OtPort(p.dport.value).value;
      var syn, talker, message := SynAlerts(b, p, protocol), TalkerAlerts(b, p, protocol, seen), MessageAlerts(b, p, protocol);
      forall k | 0 <= k < |message| ensures message[k].finding != NewTalker {
        MessageSenders(b, p, protocol, k);
      }
      AllNotTalkers(syn);
      AllNotTalkers(message);
      assert NotTalkers(talker) == [];
      NotTalkersConcat(talker, message);
      NotTalkersConcat(syn, talker + message);
      assert [] + message == message;
    }
  }

  /** What a run's packets cause whatever was seen before. */
  function AllFixed(b: Baseline, ps: seq<Packet>): seq<Alert> {
    if ps == [] then [] else FixedAlerts(b, ps[0]) + AllFixed(b, ps[1..])
  }

  lemma {:induction false} RunNotTalkers(b: Baseline, s: State, ps: seq<Packet>)
    ensures NotTalkers(RunAlerts(b, s, ps)) == AllFixed(b, ps)
    decreases |ps|
  {
    if ps != [] {
      PacketNotTalkers(b, ps[0], s.seen);
      RunNotTalkers(b, Step(b, s, ps[0]), ps[1..]);
      NotTalkersConcat(PacketAlerts(b, ps[0], s.seen), RunAlerts(b, Step(b, s, ps[0]), ps[1..]));
    }
  }

  lemma AllFixedFirst(b: Baseline, ps: seq<Packet>, p: Packet, rest: seq<Packet>)
    requires ps == [p] + rest
    ensures multiset(AllFixed(b, ps)) == multiset(FixedAlerts(b, p)) + multiset(AllFixed(b, rest))
  {
    assert ps[1..] == rest;
  }

  lemma WithoutLater(ps: seq<Packet>, k: nat, others: seq<Packet>)
    requires 0 < k < |ps| && others == Without(ps[1..], k - 1)
    ensures Without(ps, k) == [ps[0]] + others && ps[1..][k - 1] == ps[k]
  {
  }

  lemma {:induction false} AllFixedWithout(b: Baseline, ps: seq<Packet>, k: nat)
    requires k < |ps|
    ensures multiset(AllFixed(b, ps)) == multiset(FixedAlerts(b, ps[k])) + multiset(AllFixed(b, Without(ps, k)))
    decreases k
  {
    var rest := ps[1..];
    AllFixedFirst(b, ps, ps[0], rest);
    if k == 0 {
      assert Without(ps, 0) == rest;
    } else {
      var others := Without(rest, k - 1);
      AllFixedWithout(b, rest, k - 1);
      WithoutLater(ps, k, others);
      AllFixedFirst(b, [ps[0]] + others, ps[0], others);
    }
  }

  lemma {:induction false} AllFixedOrder(b: Baseline, ps: seq<Packet>, qs: seq<Packet>)
    requires multiset(ps) == multiset(qs)
    ensures multiset(AllFixed(b, ps)) == multiset(AllFixed(b, qs))
    decreases |ps|
  {
    if ps == [] {
      assert |multiset(qs)| == 0;
    } else {
      assert ps[0] in multiset(qs);
      var k :| 0 <= k < |qs| && qs[k] == ps[0];
      MultisetWithout(qs, k);
      assert ps == [ps[0]] + ps[1..];
      AllFixedFirst(b, ps, ps[0], ps[1..]);
      AllFixedWithout(b, qs, k);
      AllFixedOrder(b, ps[1..], Without(qs, k));
    }
  }

  /** Apart from new-talker alerts, any permutation of any run returns the same alerts, each as often,
      even from another state; new-talker alerts are as many for each pair by `OneAlertPerTalker`. */
  lemma AlertsOrderFree(b: Baseline, s: State, t: State, ps: seq<Packet>, qs: seq<Packet>)
    requires multiset(ps) == multiset(qs)
    ensures multiset(NotTalkers(RunAlerts(b, s, ps))) == multiset(NotTalkers(RunAlerts(b, t, qs)))
  {
    RunNotTalkers(b, s, ps);
    RunNotTalkers(b, t, qs);
    AllFixedOrder(b, ps, qs);
  }

  // ---------------------------------------------------------------------------
  // Exact bookkeeping
  // ---------------------------------------------------------------------------

  /** Every reported pair's source is on record. */
  ghost predicate Consistent(s: State) {
    forall pair: Pair :: pair in s.seen ==> pair.0.Some? && pair.0.value in s.hostile
  }

  lemma OffenderConvicted(b: Baseline, s: State, p: Packet)
    requires Consistent(s)
    ensures Consistent(Step(b, s, p))
    ensures Step(b, s, p).hostile == s.hostile + if Offends(b, p) then {p.src.value} else {}
  {
    StepShape(b, s, p);
    FixedConvicts(b, p);
    if Offends(b, p) && p.payload != [] && PairOf(p) in s.seen {
      assert p.src.value in s.hostile;
    }
  }

  predicate SentByOffender(b: Baseline, ps: seq<Packet>, a: Address) {
    exists k :: 0 <= k < |ps| && Offends(b, ps[k]) && ps[k].src == Some(a)
  }

  predicate Talked(b: Baseline, ps: seq<Packet>, pair: Pair) {
    exists k :: 0 <= k < |ps| && pair in NewPairs(b, ps[k])
  }

  function RelevantCount(b: Baseline, ps: seq<Packet>): nat {
    if ps == [] then 0 else (if Relevant(b, ps[0]) then 1 else 0) + RelevantCount(b, ps[1..])
  }

  /** New-talker alerts on a pair. */
  function TalkerCount(alerts: seq<Alert>, pair: Pair): nat {
    if alerts == [] then 0
    else (if alerts[0].finding == NewTalker && (alerts[0].src, alerts[0].dst) == pair then 1 else 0) + TalkerCount(alerts[1..], pair)
  }

  lemma {:induction false} TalkerCountConcat(xs: seq<Alert>, ys: seq<Alert>, pair: Pair)
    ensures TalkerCount(xs + ys, pair) == TalkerCount(xs, pair) + TalkerCount(ys, pair)
  {
    if xs == [] {
      assert xs + ys == ys;
    } else {
      assert (xs + ys)[0] == xs[0] && (xs + ys)[1..] == xs[1..] + ys;
      TalkerCountConcat(xs[1..], ys, pair);
    }
  }

  lemma {:induction false} NoTalkers(xs: seq<Alert>, pair: Pair)
    requires forall k :: 0 <= k < |xs| ==> xs[k].finding != NewTalker
    ensures TalkerCount(xs, pair) == 0
  {
    if xs != [] {
      NoTalkers(xs[1..], pair);
    }
  }

  lemma PacketTalkers(b: Baseline, p: Packet, seen: set<Pair>, pair: Pair)
    ensures TalkerCount(PacketAlerts(b, p, seen), pair) == if pair in NewPairs(b, p) && pair !in seen then 1 else 0
  {
    if Relevant(b, p) {
      var protocol := OtPort(p.dport.value).value;
      var syn := SynAlerts(b, p, protocol);
      NoTalkers(syn, pair);
      if p.payload != [] {
        var talker, message := TalkerAlerts(b, p, protocol, seen), MessageAlerts(b, p, protocol);
        forall k | 0 <= k < |message| ensures message[k].finding != NewTalker {
          MessageSenders(b, p, protocol, k);
        }
        NoTalkers(message, pair);
        TalkerCountConcat(syn, talker + message, pair);
        TalkerCountConcat(talker, message, pair);
        if talker != [] {
          assert talker[1..] == [];
        }
      } else {
        assert syn + [] == syn;
      }
    }
  }

  /** Exact counters, from any state: packets counts the relevant packets, alerts the alerts returned. */
  lemma {:induction false} CountersExact(b: Baseline, s: State, ps: seq<Packet>)
    ensures Run(b, s, ps).packets == s.packets + RelevantCount(b, ps)
    ensures Run(b, s, ps).alerts == s.alerts + |RunAlerts(b, s, ps)|
    decreases |ps|
  {
    if ps != [] {
      CountersExact(b, Step(b, s, ps[0]), ps[1..]);
    }
  }

  /** A pair gets its new-talker alert exactly once, if and only if it was not reported before and
      an unauthorised payload-bearing packet on it reached a protected OT port. */
  lemma {:induction false} OneAlertPerTalker(b: Baseline, s: State, ps: seq<Packet>, pair: Pair)
    ensures TalkerCount(RunAlerts(b, s, ps), pair) == if pair !in s.seen && Talked(b, ps, pair) then 1 else 0
    ensures pair in Run(b, s, ps).seen <==> pair in s.seen || Talked(b, ps, pair)
    decreases |ps|
  {
    if ps != [] {
      var next := Step(b, s, ps[0]);
      StepShape(b, s, ps[0]);
      PacketTalkers(b, ps[0], s.seen, pair);
      TalkerCountConcat(PacketAlerts(b, ps[0], s.seen), RunAlerts(b, next, ps[1..]), pair);
      OneAlertPerTalker(b, next, ps[1..], pair);
      TalkedStep(b, ps, pair);
    }
  }

  lemma TalkedStep(b: Baseline, ps: seq<Packet>, pair: Pair)
    requires ps != []
    ensures Talked(b, ps, pair) <==> pair in NewPairs(b, ps[0]) || Talked(b, ps[1..], pair)
  {
    if Talked(b, ps, pair) {
      var k :| 0 <= k < |ps| && pair in NewPairs(b, ps[k]);
      assert k > 0 ==> ps[1..][k - 1] == ps[k];
    }
    if Talked(b, ps[1..], pair) {
      var k :| 0 <= k < |ps[1..]| && pair in NewPairs(b, ps[1..][k]);
      assert ps[k + 1] == ps[1..][k];
    }
  }

  lemma OffenderStep(b: Baseline, ps: seq<Packet>, a: Address)
    requires ps != []
    ensures SentByOffender(b, ps, a) <==> (Offends(b, ps[0]) && ps[0].src == Some(a)) || SentByOffender(b, ps[1..], a)
  {
    if SentByOffender(b, ps, a) {
      var k :| 0 <= k < |ps| && Offends(b, ps[k]) && ps[k].src == Some(a);
      assert k > 0 ==> ps[1..][k - 1] == ps[k];
    }
    if SentByOffender(b, ps[1..], a) {
      var k :| 0 <= k < |ps[1..]| && Offends(b, ps[1..][k]) && ps[1..][k].src == Some(a);
      assert ps[k + 1] == ps[1..][k];
    }
  }

  lemma {:induction false} HostileFrom(b: Baseline, s: State, ps: seq<Packet>, a: Address)
    requires Consistent(s)
    ensures a in Run(b, s, ps).hostile <==> a in s.hostile || SentByOffender(b, ps, a)
    decreases |ps|
  {
    if ps != [] {
      OffenderConvicted(b, s, ps[0]);
      HostileFrom(b, Step(b, s, ps[0]), ps[1..], a);
      OffenderStep(b, ps, a);
    }
  }

  /** After any run of a new detector the hostile sources are exactly the unauthorised sources that
      sent a payload or a bare SYN to a protected OT port, so never a station in charge. */
  lemma HostileExact(b: Baseline, ps: seq<Packet>)
    ensures forall a :: a in Run(b, FRESH, ps).hostile <==> SentByOffender(b, ps, a)
    ensures Run(b, FRESH, ps).hostile !! b.hmi
  {
    forall a ensures a in Run(b, FRESH, ps).hostile <==> SentByOffender(b, ps, a) {
      HostileFrom(b, FRESH, ps, a);
    }
  }
}
