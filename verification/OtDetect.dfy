/** Intrusion detection over decoded packets: the rules, and the detector that applies them. */
module OtDetect {
  import opened Wrappers
  import opened Bytes
  import opened Packet
  import Iec104
  import Modbus
  import S7comm

  datatype Severity = Critical | High | Medium | Info

  function Order(s: Severity): nat {
    match s
    case Critical => 3
    case High => 2
    case Medium => 1
    case Info => 0
  }

  predicate AtLeast(severity: Severity, floor: Severity) { Order(severity) >= Order(floor) }

  datatype OtProtocol = ModbusTcp | Iec104Tcp | S7Tcp

  function OtPort(port: u16): Option<OtProtocol> {
    if port == 502 then Some(ModbusTcp)
    else if port == 2404 then Some(Iec104Tcp)
    else if port == 102 then Some(S7Tcp)
    else None
  }

  /** Which rule fired, and on what. */
  datatype Finding =
    | NewConnection(port: u16)
    | NewTalker
    | ModbusWrite(code: byte)
    | ModbusProgram(code: byte)
    | ModbusRecon(code: byte)
    | StopReporting
    | ControlCommand(typeId: byte)
    | Interrogation(typeId: byte)
    | BlockTransfer(job: byte)
    | CpuControl(job: byte)
    | S7Write(job: byte)

  datatype Alert = Alert(
    ts: real,
    severity: Severity,
    src: Option<Address>,
    dst: Option<Address>,
    protocol: OtProtocol,
    finding: Finding)

  datatype Operation = ModbusOp(code: byte) | StopdtOp | Iec104Op(typeId: byte) | S7Op(job: byte)

  /** The stations that may drive the process, and the devices protected (all, when empty). */
  datatype Baseline = Baseline(hmi: set<Address>, plcs: set<Address>)

  type Pair = (Option<Address>, Option<Address>)

  datatype State = State(
    packets: nat,
    alerts: nat,
    hostile: set<Address>,
    observed: set<Operation>,
    seen: set<Pair>)

  const FRESH := State(0, 0, {}, {}, {})

  // ---------------------------------------------------------------------------
  // Rules
  // ---------------------------------------------------------------------------

  predicate Known(b: Baseline) { b.hmi != {} }

  predicate Protected(b: Baseline, host: Option<Address>) {
    host.Some? && (b.plcs != {} ==> host.value in b.plcs)
  }

  predicate Unauthorised(b: Baseline, host: Option<Address>) {
    host.Some? && Known(b) && host.value !in b.hmi
  }

  function SeverityOf(b: Baseline, src: Option<Address>, whenHostile: Severity): Severity {
    if Unauthorised(b, src) then whenHostile
    else if !Known(b) then if whenHostile == Critical then High else Medium
    else Info
  }

  function MakeAlert(p: Packet, severity: Severity, protocol: OtProtocol, finding: Finding): Alert {
    Alert(p.ts, severity, p.src, p.dst, protocol, finding)
  }

  predicate BareSyn(p: Packet) { 'S' in p.flags && 'A' !in p.flags }

  function PairOf(p: Packet): Pair { (p.src, p.dst) }

  function SynAlerts(b: Baseline, p: Packet, protocol: OtProtocol): seq<Alert>
    requires p.dport.Some?
  {
    if BareSyn(p) && Unauthorised(b, p.src) then [MakeAlert(p, Medium, protocol, NewConnection(p.dport.value))] else []
  }

  function TalkerAlerts(b: Baseline, p: Packet, protocol: OtProtocol, seen: set<Pair>): seq<Alert> {
    if Unauthorised(b, p.src) && PairOf(p) !in seen then [MakeAlert(p, High, protocol, NewTalker)] else []
  }

  function ModbusAlerts(b: Baseline, p: Packet): seq<Alert> {
    match Modbus.ReadFunctionCode(p.payload)
    case None => []
    case Some(code) =>
      match Modbus.ClassifyFunction(code)
      case Write => [MakeAlert(p, SeverityOf(b, p.src, Critical), ModbusTcp, ModbusWrite(code))]
      case Program => [MakeAlert(p, SeverityOf(b, p.src, Critical), ModbusTcp, ModbusProgram(code))]
      case Recon => if Unauthorised(b, p.src) then [MakeAlert(p, Medium, ModbusTcp, ModbusRecon(code))] else []
      case _ => []
  }

  function ModbusOps(p: Packet): set<Operation> {
    match Modbus.ReadFunctionCode(p.payload)
    case None => {}
    case Some(code) => {ModbusOp(code)}
  }

  function ApduAlerts(b: Baseline, p: Packet, apdu: Iec104.Apdu): seq<Alert> {
    if apdu.format.FormatU? then
      if apdu.control == 0x13 then [MakeAlert(p, Medium, Iec104Tcp, StopReporting)] else []
    else if apdu.typeId.None? then []
    else
      match Iec104.ClassifyTypeId(apdu.typeId.value)
      case Command => [MakeAlert(p, SeverityOf(b, p.src, Critical), Iec104Tcp, ControlCommand(apdu.typeId.value))]
      case System =>
        if Unauthorised(b, p.src) then [MakeAlert(p, Medium, Iec104Tcp, Interrogation(apdu.typeId.value))] else []
      case Monitor => []
  }

  function ApduOps(apdu: Iec104.Apdu): set<Operation> {
    if apdu.format.FormatU? then if apdu.control == 0x13 then {StopdtOp} else {}
    else if apdu.typeId.None? then {}
    else {Iec104Op(apdu.typeId.value)}
  }

  function Iec104Alerts(b: Baseline, p: Packet, apdus: seq<Iec104.Apdu>): seq<Alert> {
    if apdus == [] then []
    else Iec104Alerts(b, p, apdus[..|apdus| - 1]) + ApduAlerts(b, p, apdus[|apdus| - 1])
  }

  function Iec104Ops(apdus: seq<Iec104.Apdu>): set<Operation> {
    if apdus == [] then {} else Iec104Ops(apdus[..|apdus| - 1]) + ApduOps(apdus[|apdus| - 1])
  }

  const APDU_LIMIT := 64

  function S7Alerts(b: Baseline, p: Packet): seq<Alert> {
    match S7comm.ParseJob(p.payload)
    case None => []
    case Some(job) =>
      if job.rosctr != 0x01 then []
      else
        match job.Class()
        case Program => [MakeAlert(p, SeverityOf(b, p.src, Critical), S7Tcp, BlockTransfer(job.function_))]
        case Control => [MakeAlert(p, SeverityOf(b, p.src, Critical), S7Tcp, CpuControl(job.function_))]
        case Write => [MakeAlert(p, SeverityOf(b, p.src, Critical), S7Tcp, S7Write(job.function_))]
        case _ => []
  }

  function S7Ops(p: Packet): set<Operation> {
    match S7comm.ParseJob(p.payload)
    case None => {}
    case Some(job) => if job.rosctr == 0x01 then {S7Op(job.function_)} else {}
  }

  /** What the message itself justifies, whoever has been seen before. */
  function MessageAlerts(b: Baseline, p: Packet, protocol: OtProtocol): seq<Alert> {
    match protocol
    case ModbusTcp => ModbusAlerts(b, p)
    case Iec104Tcp => Iec104Alerts(b, p, Iec104.Apdus(p.payload, APDU_LIMIT))
    case S7Tcp => S7Alerts(b, p)
  }

  function MessageOps(p: Packet, protocol: OtProtocol): set<Operation> {
    match protocol
    case ModbusTcp => ModbusOps(p)
    case Iec104Tcp => Iec104Ops(Iec104.Apdus(p.payload, APDU_LIMIT))
    case S7Tcp => S7Ops(p)
  }

  /** TCP to an OT port of a protected device. */
  predicate Relevant(b: Baseline, p: Packet) {
    p.protocol == Tcp && p.dport.Some? && OtPort(p.dport.value).Some? && Protected(b, p.dst)
  }

  function PacketAlerts(b: Baseline, p: Packet, seen: set<Pair>): seq<Alert> {
    if !Relevant(b, p) then []
    else
      var protocol := OtPort(p.dport.value).value;
      SynAlerts(b, p, protocol)
      + if p.payload == [] then [] else TalkerAlerts(b, p, protocol, seen) + MessageAlerts(b, p, protocol)
  }

  /** The sources an alert convicts. */
  function Convicted(b: Baseline, alerts: seq<Alert>): set<Address> {
    set k | 0 <= k < |alerts| && Unauthorised(b, alerts[k].src) && alerts[k].severity != Info :: alerts[k].src.value
  }

  /** The alerts counted, their sources convicted, the operations observed. */
  function Gained(b: Baseline, st: State, alerts: seq<Alert>, ops: set<Operation>): State {
    st.(alerts := st.alerts + |alerts|, hostile := st.hostile + Convicted(b, alerts), observed := st.observed + ops)
  }

  function PacketOps(p: Packet): set<Operation>
    requires p.dport.Some? && OtPort(p.dport.value).Some?
  {
    if p.payload == [] then {} else MessageOps(p, OtPort(p.dport.value).value)
  }

  /** The pair reported as a new talker, unless it was before. */
  function Talk(b: Baseline, p: Packet): set<Pair> {
    if p.payload != [] && Unauthorised(b, p.src) then {PairOf(p)} else {}
  }

  function Step(b: Baseline, st: State, p: Packet): State {
    if !Relevant(b, p) then st
    else
      Gained(b, st, PacketAlerts(b, p, st.seen), PacketOps(p)).(packets := st.packets + 1, seen := st.seen + Talk(b, p))
  }

  function Run(b: Baseline, st: State, ps: seq<Packet>): State
    decreases |ps|
  {
    if ps == [] then st else Run(b, Step(b, st, ps[0]), ps[1..])
  }

  function RunAlerts(b: Baseline, st: State, ps: seq<Packet>): seq<Alert>
    decreases |ps|
  {
    if ps == [] then [] else PacketAlerts(b, ps[0], st.seen) + RunAlerts(b, Step(b, st, ps[0]), ps[1..])
  }

  // ---------------------------------------------------------------------------
  // The detector
  // ---------------------------------------------------------------------------

  lemma ConvictedConcat(b: Baseline, xs: seq<Alert>, ys: seq<Alert>)
    ensures Convicted(b, xs + ys) == Convicted(b, xs) + Convicted(b, ys)
  {
    var zs := xs + ys;
    forall a | a in Convicted(b, xs) + Convicted(b, ys) ensures a in Convicted(b, zs) {
      if a in Convicted(b, xs) {
        var k :| 0 <= k < |xs| && Unauthorised(b, xs[k].src) && xs[k].severity != Info && xs[k].src.value == a;
        assert zs[k] == xs[k];
      } else {
        var k :| 0 <= k < |ys| && Unauthorised(b, ys[k].src) && ys[k].severity != Info && ys[k].src.value == a;
        assert zs[|xs| + k] == ys[k];
      }
    }
  }

  lemma GainedTwice(b: Baseline, st: State, xs: seq<Alert>, o1: set<Operation>, ys: seq<Alert>, o2: set<Operation>)
    ensures Gained(b, Gained(b, st, xs, o1), ys, o2) == Gained(b, st, xs + ys, o1 + o2)
  {
    ConvictedConcat(b, xs, ys);
    assert st.observed + (o1 + o2) == st.observed + o1 + o2;
  }

  lemma GainedNothing(b: Baseline, st: State)
    ensures Gained(b, st, [], {}) == st
  {
    assert Convicted(b, []) == {};
  }

  lemma OneApduMore(b: Baseline, p: Packet, apdus: seq<Iec104.Apdu>, k: nat)
    requires k < |apdus|
    ensures Iec104Alerts(b, p, apdus[..k + 1]) == Iec104Alerts(b, p, apdus[..k]) + ApduAlerts(b, p, apdus[k])
    ensures Iec104Ops(apdus[..k + 1]) == Iec104Ops(apdus[..k]) + ApduOps(apdus[k])
  {
    var upTo := apdus[..k + 1];
    assert upTo[..|upTo| - 1] == apdus[..k] && upTo[|upTo| - 1] == apdus[k];
  }

  class Detector {
    const baseline: Baseline
    var packets: nat
    var alerts: nat
    var hostileSources: set<Address>
    var observedOperations: set<Operation>
    var seenTalkers: set<Pair>

    function Abs(): State
      reads this
    {
      State(packets, alerts, hostileSources, observedOperations, seenTalkers)
    }

    constructor (baseline: Baseline)
      ensures this.baseline == baseline && Abs() == FRESH
    {
      this.baseline := baseline;
      packets, alerts, hostileSources, observedOperations, seenTalkers := 0, 0, {}, {}, {};
    }

    method Raise(p: Packet, severity: Severity, protocol: OtProtocol, finding: Finding) returns (out: seq<Alert>)
      modifies this
      ensures out == [MakeAlert(p, severity, protocol, finding)]
      ensures Abs() == Gained(baseline, old(Abs()), out, {})
    {
      var a := MakeAlert(p, severity, protocol, finding);
      alerts := alerts + 1;
      if Unauthorised(baseline, p.src) && severity != Info {
        hostileSources := hostileSources + {p.src.value};
      }
      out := [a];
      assert Convicted(baseline, out) == if Unauthorised(baseline, p.src) && severity != Info then {p.src.value} else {} by {
        assert out[0] == a;
      }
    }

    method Observe(op: Operation)
      modifies this
      ensures Abs() == Gained(baseline, old(Abs()), [], {op})
    {
      GainedNothing(baseline, Abs());
      observedOperations := observedOperations + {op};
    }

    method FlagNewTalker(p: Packet, protocol: OtProtocol) returns (out: seq<Alert>)
      requires p.payload != []
      modifies this
      ensures out == TalkerAlerts(baseline, p, protocol, old(seenTalkers))
      ensures Abs() == Gained(baseline, old(Abs()), out, {}).(seen := old(seenTalkers) + Talk(baseline, p))
    {
      if !Unauthorised(baseline, p.src) || PairOf(p) in seenTalkers {
        GainedNothing(baseline, Abs());
        return [];
      }
      seenTalkers := seenTalkers + {PairOf(p)};
      out := Raise(p, High, protocol, NewTalker);
    }

    method ModbusRule(p: Packet) returns (out: seq<Alert>)
      modifies this
      ensures out == ModbusAlerts(baseline, p)
      ensures Abs() == Gained(baseline, old(Abs()), out, ModbusOps(p))
    {
      GainedNothing(baseline, Abs());
      ghost var start := Abs();
      var function_ := Modbus.ReadFunctionCode(p.payload);
      if function_.None? {
        return [];
      }
      var code := function_.value;
      var kind := Modbus.ClassifyFunction(code);
      Observe(ModbusOp(code));
      out := [];
      if kind.Write? {
        out := Raise(p, SeverityOf(baseline, p.src, Critical), ModbusTcp, ModbusWrite(code));
      } else if kind.Program? {
        out := Raise(p, SeverityOf(baseline, p.src, Critical), ModbusTcp, ModbusProgram(code));
      } else if kind.Recon? && Unauthorised(baseline, p.src) {
        out := Raise(p, Medium, ModbusTcp, ModbusRecon(code));
      }
      GainedTwice(baseline, start, [], {ModbusOp(code)}, out, {});
    }

    method ApduRule(p: Packet, apdu: Iec104.Apdu) returns (out: seq<Alert>)
      modifies this
      ensures out == ApduAlerts(baseline, p, apdu)
      ensures Abs() == Gained(baseline, old(Abs()), out, ApduOps(apdu))
    {
      GainedNothing(baseline, Abs());
      ghost var start := Abs();
      if apdu.format.FormatU? {
        if apdu.control != 0x13 {
          return [];
        }
        Observe(StopdtOp);
        out := Raise(p, Medium, Iec104Tcp, StopReporting);
        GainedTwice(baseline, start, [], {StopdtOp}, out, {});
        return;
      }
      if apdu.typeId.None? {
        return [];
      }
      var t := apdu.typeId.value;
      var kind := Iec104.ClassifyTypeId(t);
      Observe(Iec104Op(t));
      out := [];
      if kind.Command? {
        out := Raise(p, SeverityOf(baseline, p.src, Critical), Iec104Tcp, ControlCommand(t));
      } else if kind.System? && Unauthorised(baseline, p.src) {
        out := Raise(p, Medium, Iec104Tcp, Interrogation(t));
      }
      GainedTwice(baseline, start, [], {Iec104Op(t)}, out, {});
    }

    method Iec104Rule(p: Packet) returns (out: seq<Alert>)
      modifies this
      ensures out == Iec104Alerts(baseline, p, Iec104.Apdus(p.payload, APDU_LIMIT))
      ensures Abs() == Gained(baseline, old(Abs()), out, Iec104Ops(Iec104.Apdus(p.payload, APDU_LIMIT)))
    {
      var apdus := Iec104.ParseApdus(p.payload, APDU_LIMIT);
      ghost var start := Abs();
      out := [];
      GainedNothing(baseline, start);
      for k := 0 to |apdus|
        invariant out == Iec104Alerts(baseline, p, apdus[..k])
        invariant Abs() == Gained(baseline, start, out, Iec104Ops(apdus[..k]))
      {
        var more := ApduRule(p, apdus[k]);
        OneApduMore(baseline, p, apdus, k);
        GainedTwice(baseline, start, out, Iec104Ops(apdus[..k]), more, ApduOps(apdus[k]));
        out := out + more;
      }
      assert apdus[..|apdus|] == apdus;
    }

    method S7Rule(p: Packet) returns (out: seq<Alert>)
      modifies this
      ensures out == S7Alerts(baseline, p)
      ensures Abs() == Gained(baseline, old(Abs()), out, S7Ops(p))
    {
      GainedNothing(baseline, Abs());
      ghost var start := Abs();
      var job := S7comm.ParseJob(p.payload);
      if job.None? || job.value.rosctr != 0x01 {
        return [];
      }
      var kind, id := job.value.Class(), job.value.function_;
      Observe(S7Op(id));
      out := [];
      if kind.Program? {
        out := Raise(p, SeverityOf(baseline, p.src, Critical), S7Tcp, BlockTransfer(id));
      } else if kind.Control? {
        out := Raise(p, SeverityOf(baseline, p.src, Critical), S7Tcp, CpuControl(id));
      } else if kind.Write? {
        out := Raise(p, SeverityOf(baseline, p.src, Critical), S7Tcp, S7Write(id));
      }
      GainedTwice(baseline, start, [], {S7Op(id)}, out, {});
    }

    method MessageRule(p: Packet, protocol: OtProtocol) returns (out: seq<Alert>)
      modifies this
      ensures out == MessageAlerts(baseline, p, protocol)
      ensures Abs() == Gained(baseline, old(Abs()), out, MessageOps(p, protocol))
    {
      if protocol.ModbusTcp? {
        out := ModbusRule(p);
      } else if protocol.Iec104Tcp? {
        out := Iec104Rule(p);
      } else {
        out := S7Rule(p);
      }
    }

    /** The talker rule, then the rules of the protocol. */
    method PayloadRules(p: Packet, protocol: OtProtocol) returns (out: seq<Alert>)
      requires p.payload != []
      modifies this
      ensures out == TalkerAlerts(baseline, p, protocol, old(seenTalkers)) + MessageAlerts(baseline, p, protocol)
      ensures Abs() == Gained(baseline, old(Abs()), out, MessageOps(p, protocol)).(
        seen := old(seenTalkers) + Talk(baseline, p))
    {
      ghost var start := Abs();
      var talker := FlagNewTalker(p, protocol);
      var message := MessageRule(p, protocol);
      GainedTwice(baseline, start, talker, {}, message, MessageOps(p, protocol));
      out := talker + message;
    }

    method SynRule(p: Packet, protocol: OtProtocol) returns (out: seq<Alert>)
      requires p.dport.Some?
      modifies this
      ensures out == SynAlerts(baseline, p, protocol)
      ensures Abs() == Gained(baseline, old(Abs()), out, {})
    {
      if BareSyn(p) && Unauthorised(baseline, p.src) {
        out := Raise(p, Medium, protocol, NewConnection(p.dport.value));
      } else {
        GainedNothing(baseline, Abs());
        out := [];
      }
    }

    method Feed(p: Packet) returns (out: seq<Alert>)
      modifies this
      ensures out == PacketAlerts(baseline, p, old(seenTalkers))
      ensures Abs() == Step(baseline, old(Abs()), p)
    {
      if p.protocol != Tcp || p.dport.None? {
        return [];
      }
      var protocol := OtPort(p.dport.value);
      if protocol.None? || !Protected(baseline, p.dst) {
        return [];
      }
      packets := packets + 1;
      ghost var start := Abs();
      var syn := SynRule(p, protocol.value);
      if p.payload == [] {
        return syn;
      }
      var more := PayloadRules(p, protocol.value);
      GainedTwice(baseline, start, syn, {}, more, MessageOps(p, protocol.value));
      out := syn + more;
    }
  }
}
