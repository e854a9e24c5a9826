/** How the detector's findings depend on the baseline it is given. */
module BaselineTheorems {
  import opened Wrappers
  import opened Bytes
  import opened Packet
  import opened OtDetect
  import opened DetectorTheorems
  import Iec104
  import Modbus

  /** The same alert at the same severity or a lower one. */
  predicate NoWorse(a: Alert, than: Alert) {
    a.(severity := than.severity) == than && Order(a.severity) <= Order(than.severity)
  }

  /** xs is a subsequence of ys up to lower severities. */
  predicate Softened(xs: seq<Alert>, ys: seq<Alert>)
    decreases |ys|
  {
    xs == [] || (ys != [] && ((NoWorse(xs[0], ys[0]) && Softened(xs[1..], ys[1..])) || Softened(xs, ys[1..])))
  }

  lemma {:induction false} SoftenedConcat(a: seq<Alert>, b: seq<Alert>, c: seq<Alert>, d: seq<Alert>)
    requires Softened(a, b) && Softened(c, d)
    ensures Softened(a + c, b + d)
    decreases |b|
  {
    if b == [] {
      assert a + c == c && b + d == d;
    } else {
      assert (b + d)[0] == b[0] && (b + d)[1..] == b[1..] + d;
      if a != [] && NoWorse(a[0], b[0]) && Softened(a[1..], b[1..]) {
        SoftenedConcat(a[1..], b[1..], c, d);
        assert (a + c)[0] == a[0] && (a + c)[1..] == a[1..] + c;
      } else {
        SoftenedConcat(a, b[1..], c, d);
      }
    }
  }

  lemma {:induction false} SoftenedShorter(xs: seq<Alert>, ys: seq<Alert>)
    requires Softened(xs, ys)
    ensures |xs| <= |ys|
    decreases |ys|
  {
    if xs != [] {
      if NoWorse(xs[0], ys[0]) && Softened(xs[1..], ys[1..]) {
        SoftenedShorter(xs[1..], ys[1..]);
      } else {
        SoftenedShorter(xs, ys[1..]);
      }
    }
  }

  // ---------------------------------------------------------------------------
  // More stations in charge
  // ---------------------------------------------------------------------------

  /** Some station is in charge, and `wide` trusts all of those and maybe more. */
  predicate Widens(wide: Baseline, narrow: Baseline) {
    narrow.hmi != {} && narrow.hmi <= wide.hmi && narrow.plcs == wide.plcs
  }

  lemma ApduSoftened(wide: Baseline, narrow: Baseline, p: Packet, apdu: Iec104.Apdu)
    requires Widens(wide, narrow)
    ensures Softened(ApduAlerts(wide, p, apdu), ApduAlerts(narrow, p, apdu))
  {
  }

  lemma {:induction false} Iec104Softened(wide: Baseline, narrow: Baseline, p: Packet, apdus: seq<Iec104.Apdu>)
    requires Widens(wide, narrow)
    ensures Softened(Iec104Alerts(wide, p, apdus), Iec104Alerts(narrow, p, apdus))
  {
    if apdus != [] {
      var front, last := apdus[..|apdus| - 1], apdus[|apdus| - 1];
      Iec104Softened(wide, narrow, p, front);
      ApduSoftened(wide, narrow, p, last);
      SoftenedConcat(Iec104Alerts(wide, p, front), Iec104Alerts(narrow, p, front),
                     ApduAlerts(wide, p, last), ApduAlerts(narrow, p, last));
    }
  }

  lemma ModbusSoftened(wide: Baseline, narrow: Baseline, p: Packet)
    requires Widens(wide, narrow)
    ensures Softened(ModbusAlerts(wide, p), ModbusAlerts(narrow, p))
  {
  }

  lemma S7Softened(wide: Baseline, narrow: Baseline, p: Packet)
    requires Widens(wide, narrow)
    ensures Softened(S7Alerts(wide, p), S7Alerts(narrow, p))
  {
  }

  lemma MessageSoftened(wide: Baseline, narrow: Baseline, p: Packet, protocol: OtProtocol)
    requires Widens(wide, narrow)
    ensures Softened(MessageAlerts(wide, p, protocol), MessageAlerts(narrow, p, protocol))
  {
    match protocol
    case ModbusTcp => ModbusSoftened(wide, narrow, p);
    case Iec104Tcp => Iec104Softened(wide, narrow, p, Iec104.Apdus(p.payload, APDU_LIMIT));
    case S7Tcp => S7Softened(wide, narrow, p);
  }

  /** The wide run has seen exactly the narrow run's pairs that are still unauthorised. */
  ghost predicate SeenAgree(wide: Baseline, w: set<Pair>, n: set<Pair>) {
    forall pair: Pair :: pair in w <==> pair in n && Unauthorised(wide, pair.0)
  }

  lemma PacketSoftened(wide: Baseline, narrow: Baseline, p: Packet, w: set<Pair>, n: set<Pair>)
    requires Widens(wide, narrow) && SeenAgree(wide, w, n)
    ensures Softened(PacketAlerts(wide, p, w), PacketAlerts(narrow, p, n))
  {
    if Relevant(narrow, p) {
      var protocol := OtPort(p.dport.value).value;
      var syn, syn' := SynAlerts(wide, p, protocol), SynAlerts(narrow, p, protocol);
      var talker, talker' := TalkerAlerts(wide, p, protocol, w), TalkerAlerts(narrow, p, protocol, n);
      var message, message' := MessageAlerts(wide, p, protocol), MessageAlerts(narrow, p, protocol);
      assert Softened(syn, syn');
      assert PairOf(p) in w <==> PairOf(p) in n && Unauthorised(wide, p.src);
      assert Softened(talker, talker');
      MessageSoftened(wide, narrow, p, protocol);
      SoftenedConcat(talker, talker', message, message');
      SoftenedConcat(syn, syn', talker + message, talker' + message');
      SoftenedConcat(syn, syn', [], []);
      assert syn + [] == syn && syn' + [] == syn';
    }
  }

  /** How the two runs' states compare at every point. */
  ghost predicate Milder(wide: Baseline, w: State, n: State) {
    && w.packets == n.packets && w.alerts <= n.alerts && w.observed == n.observed
    && w.hostile <= n.hostile && SeenAgree(wide, w.seen, n.seen)
  }

  lemma ConvictsFewer(wide: Baseline, narrow: Baseline, p: Packet, w: set<Pair>, n: set<Pair>)
    requires Widens(wide, narrow) && SeenAgree(wide, w, n)
    ensures Convicts(wide, p, w) <= Convicts(narrow, p, n)
  {
    if Unauthorised(wide, p.src) {
      if Relevant(narrow, p) {
        MessageSoftened(wide, narrow, p, OtPort(p.dport.value).value);
        SoftenedShorter(MessageAlerts(wide, p, OtPort(p.dport.value).value), MessageAlerts(narrow, p, OtPort(p.dport.value).value));
      }
      assert PairOf(p) in w <==> PairOf(p) in n && Unauthorised(wide, p.src);
    }
  }

  lemma StepMilder(wide: Baseline, narrow: Baseline, w: State, n: State, p: Packet)
    requires Widens(wide, narrow) && Milder(wide, w, n)
    ensures Milder(wide, Step(wide, w, p), Step(narrow, n, p))
  {
    StepShape(wide, w, p);
    StepShape(narrow, n, p);
    ConvictsFewer(wide, narrow, p, w.seen, n.seen);
    PacketSoftened(wide, narrow, p, w.seen, n.seen);
    SoftenedShorter(PacketAlerts(wide, p, w.seen), PacketAlerts(narrow, p, n.seen));
    AlertsShape(wide, p, w.seen);
    AlertsShape(narrow, p, n.seen);
  }

  lemma {:induction false} RunMilder(wide: Baseline, narrow: Baseline, w: State, n: State, ps: seq<Packet>)
    requires Widens(wide, narrow) && Milder(wide, w, n)
    ensures Milder(wide, Run(wide, w, ps), Run(narrow, n, ps))
    ensures Softened(RunAlerts(wide, w, ps), RunAlerts(narrow, n, ps))
    decreases |ps|
  {
    if ps != [] {
      var w', n' := Step(wide, w, ps[0]), Step(narrow, n, ps[0]);
      StepMilder(wide, narrow, w, n, ps[0]);
      RunMilder(wide, narrow, w', n', ps[1..]);
      PacketSoftened(wide, narrow, ps[0], w.seen, n.seen);
      SoftenedConcat(PacketAlerts(wide, ps[0], w.seen), PacketAlerts(narrow, ps[0], n.seen),
                     RunAlerts(wide, w', ps[1..]), RunAlerts(narrow, n', ps[1..]));
    }
  }

  /** Trusting more stations: on any run the alerts are a subsequence of what they were, none more
      severe, no new hostile source, and the same packets and operations counted. */
  lemma TrustingMoreAlertsLess(wide: Baseline, narrow: Baseline, ps: seq<Packet>)
    requires Widens(wide, narrow)
    ensures Softened(RunAlerts(wide, FRESH, ps), RunAlerts(narrow, FRESH, ps))
    ensures Milder(wide, Run(wide, FRESH, ps), Run(narrow, FRESH, ps))
  {
    RunMilder(wide, narrow, FRESH, FRESH, ps);
  }

  /** A Modbus write of a single coil. */
  const WRITE_COIL: seq<byte> := [0, 1, 0, 0, 0, 6, 1, 5, 0, 0, 0xFF, 0]

  lemma RunOne(b: Baseline, s: State, p: Packet)
    ensures RunAlerts(b, s, [p]) == PacketAlerts(b, p, s.seen)
  {
    assert [p][0] == p && [p][1..] == [];
    assert RunAlerts(b, Step(b, s, p), []) == [];
  }

  lemma WriteCoilCode()
    ensures Modbus.ReadFunctionCode(WRITE_COIL) == Some(5)
  {
    assert WRITE_COIL[2] == 0 && WRITE_COIL[3] == 0 && WRITE_COIL[4] == 0 && WRITE_COIL[5] == 6 && WRITE_COIL[7] == 5;
  }

  /** A write of one coil sent to a Modbus device. */
  function WriteBy(src: Address, plc: Address): Packet {
    Packet(0.0, 66, Tcp, Some(src), Some(plc), Some(50000), Some(502), "AP", WRITE_COIL, Some(4))
  }

  lemma WriteAlerts(b: Baseline, src: Address, plc: Address)
    requires src !in b.hmi && (b.plcs != {} ==> plc in b.plcs)
    ensures var p, write := WriteBy(src, plc), ModbusWrite(5);
            RunAlerts(b, FRESH, [p])
            == if Known(b)
               then [MakeAlert(p, High, ModbusTcp, NewTalker), MakeAlert(p, Critical, ModbusTcp, write)]
               else [MakeAlert(p, High, ModbusTcp, write)]
  {
    var p := WriteBy(src, plc);
    WriteCoilCode();
    RunOne(b, FRESH, p);
    assert !BareSyn(p) by {
      assert p.flags[0] == 'A';
    }
    assert Modbus.ClassifyFunction(5) == Modbus.Write;
  }

  /** With no station known to be in charge, naming some raises the very same write by any other
      station from HIGH to CRITICAL, and adds a new-talker alert. */
  lemma FirstStationRaisesSeverity(known: Baseline, intruder: Address, plc: Address)
    requires known.hmi != {} && intruder !in known.hmi && (known.plcs != {} ==> plc in known.plcs)
    ensures var before := RunAlerts(known.(hmi := {}), FRESH, [WriteBy(intruder, plc)]);
            var after := RunAlerts(known, FRESH, [WriteBy(intruder, plc)]);
            && |before| == 1 && |after| == 2
            && before[0].finding == ModbusWrite(5) && before[0].severity == High
            && after[0].finding == NewTalker && after[1] == before[0].(severity := Critical)
            && !Softened(after, before)
  {
    WriteAlerts(known, intruder, plc);
    WriteAlerts(known.(hmi := {}), intruder, plc);
    var p := WriteBy(intruder, plc);
    var before, after := RunAlerts(known.(hmi := {}), FRESH, [p]), RunAlerts(known, FRESH, [p]);
    if Softened(after, before) {
      SoftenedShorter(after, before);
    }
  }

  lemma {:induction false} SoftenedSelf(xs: seq<Alert>)
    ensures Softened(xs, xs)
  {
    if xs != [] {
      SoftenedSelf(xs[1..]);
    }
  }

  lemma {:induction false} LongerThanAll(hosts: set<Address>) returns (n: nat)
    ensures forall a :: a in hosts ==> |a| < n
  {
    n := 0;
    if hosts != {} {
      var some :| some in hosts;
      n := LongerThanAll(hosts - {some});
      n := if |some| < n then n else |some| + 1;
    }
  }

  /** Exactly when trusting more stations only ever softens what is reported: when some station was
      trusted before, or none is now. */
  lemma SoftenedExactly(wide: Baseline, narrow: Baseline)
    requires narrow.hmi <= wide.hmi && narrow.plcs == wide.plcs
    ensures (forall ps :: Softened(RunAlerts(wide, FRESH, ps), RunAlerts(narrow, FRESH, ps)))
       <==> narrow.hmi != {} || wide.hmi == {}
  {
    if narrow.hmi != {} {
      forall ps ensures Softened(RunAlerts(wide, FRESH, ps), RunAlerts(narrow, FRESH, ps)) {
        TrustingMoreAlertsLess(wide, narrow, ps);
      }
    } else if wide.hmi == {} {
      forall ps ensures Softened(RunAlerts(wide, FRESH, ps), RunAlerts(narrow, FRESH, ps)) {
        SoftenedSelf(RunAlerts(wide, FRESH, ps));
      }
    } else {
      var n := LongerThanAll(wide.hmi);
      var plc: Address := if wide.plcs == {} then [] else var host :| host in wide.plcs; host;
      FirstStationRaisesSeverity(wide, Zeros(n), plc);
      assert narrow == wide.(hmi := {});
    }
  }

  // ---------------------------------------------------------------------------
  // Slicing by protected device
  // ---------------------------------------------------------------------------

  predicate Addressed(plcs: set<Address>, p: Packet) { p.dst.Some? && p.dst.value in plcs }

  /** The packets of a run sent to one of these devices. */
  function SentTo(plcs: set<Address>, ps: seq<Packet>): seq<Packet> {
    if ps == [] then []
    else (if Addressed(plcs, ps[0]) then [ps[0]] else []) + SentTo(plcs, ps[1..])
  }

  lemma StepSliced(hmi: set<Address>, plcs: set<Address>, s: State, p: Packet)
    requires plcs != {}
    ensures !Addressed(plcs, p) ==> Step(Baseline(hmi, plcs), s, p) == s && PacketAlerts(Baseline(hmi, plcs), p, s.seen) == []
    ensures Addressed(plcs, p) ==> Step(Baseline(hmi, plcs), s, p) == Step(Baseline(hmi, {}), s, p)
    ensures Addressed(plcs, p) ==>
      PacketAlerts(Baseline(hmi, plcs), p, s.seen) == PacketAlerts(Baseline(hmi, {}), p, s.seen)
  {
    var sliced, open := Baseline(hmi, plcs), Baseline(hmi, {});
    if Addressed(plcs, p) && Relevant(open, p) {
      SameMessages(sliced, open, p, OtPort(p.dport.value).value);
      var alerts := PacketAlerts(open, p, s.seen);
      assert PacketAlerts(sliced, p, s.seen) == alerts;
      assert Convicted(sliced, alerts) == Convicted(open, alerts);
    }
  }

  lemma {:induction false} SameApdus(x: Baseline, y: Baseline, p: Packet, apdus: seq<Iec104.Apdu>)
    requires x.hmi == y.hmi
    ensures Iec104Alerts(x, p, apdus) == Iec104Alerts(y, p, apdus)
  {
    if apdus != [] {
      SameApdus(x, y, p, apdus[..|apdus| - 1]);
    }
  }

  /** The message rules never look at the device list. */
  lemma SameMessages(x: Baseline, y: Baseline, p: Packet, protocol: OtProtocol)
    requires x.hmi == y.hmi
    ensures MessageAlerts(x, p, protocol) == MessageAlerts(y, p, protocol)
  {
    match protocol
    case ModbusTcp => assert ModbusAlerts(x, p) == ModbusAlerts(y, p);
    case Iec104Tcp => SameApdus(x, y, p, Iec104.Apdus(p.payload, APDU_LIMIT));
    case S7Tcp => assert S7Alerts(x, p) == S7Alerts(y, p);
  }

  /** Protecting a list of devices is protecting everything on the part of the run sent to them. */
  lemma {:induction false} RunSliced(hmi: set<Address>, plcs: set<Address>, s: State, ps: seq<Packet>)
    requires plcs != {}
    ensures Run(Baseline(hmi, plcs), s, ps) == Run(Baseline(hmi, {}), s, SentTo(plcs, ps))
    ensures RunAlerts(Baseline(hmi, plcs), s, ps) == RunAlerts(Baseline(hmi, {}), s, SentTo(plcs, ps))
    decreases |ps|
  {
    if ps != [] {
      StepSliced(hmi, plcs, s, ps[0]);
      RunSliced(hmi, plcs, Step(Baseline(hmi, plcs), s, ps[0]), ps[1..]);
      var rest := SentTo(plcs, ps[1..]);
      if Addressed(plcs, ps[0]) {
        assert SentTo(plcs, ps) == [ps[0]] + rest;
        assert ([ps[0]] + rest)[1..] == rest;
      } else {
        assert SentTo(plcs, ps) == [] + rest == rest;
      }
    }
  }
}
