/** Reading a device is an audit, operating it is not: what the detector reports, and how severely. */
module SeverityTheorems {
  import opened Wrappers
  import opened Bytes
  import opened Packet
  import opened OtDetect
  import Iec104
  import Modbus
  import S7comm
  import Monitor

  // ---------------------------------------------------------------------------
  // How severe a finding is
  // ---------------------------------------------------------------------------

  /** The finding is of something done to the plant. */
  predicate Operational(f: Finding) {
    f.ModbusWrite? || f.ModbusProgram? || f.ControlCommand? || f.BlockTransfer? || f.CpuControl? || f.S7Write?
  }

  /** The severity a finding has, given who caused it. */
  function Rank(b: Baseline, src: Option<Address>, f: Finding): Severity {
    if f.NewTalker? then High
    else if !Operational(f) then Medium
    else if !Known(b) then High
    else if Unauthorised(b, src) then Critical
    else Info
  }

  /** Ranked by who did what; and apart from operations and silenced reporting, only about a source
      that is not in charge. */
  predicate Ranked(b: Baseline, a: Alert) {
    && a.severity == Rank(b, a.src, a.finding)
    && (Operational(a.finding) || a.finding.StopReporting? || Unauthorised(b, a.src))
  }

  predicate AllRanked(b: Baseline, xs: seq<Alert>) { forall k :: 0 <= k < |xs| ==> Ranked(b, xs[k]) }

  lemma RankedConcat(b: Baseline, xs: seq<Alert>, ys: seq<Alert>)
    requires AllRanked(b, xs) && AllRanked(b, ys)
    ensures AllRanked(b, xs + ys)
  {
  }

  lemma {:induction false} Iec104Ranked(b: Baseline, p: Packet, apdus: seq<Iec104.Apdu>)
    ensures AllRanked(b, Iec104Alerts(b, p, apdus))
  {
    if apdus != [] {
      var front, last := apdus[..|apdus| - 1], apdus[|apdus| - 1];
      Iec104Ranked(b, p, front);
      RankedConcat(b, Iec104Alerts(b, p, front), ApduAlerts(b, p, last));
    }
  }

  lemma MessageRanked(b: Baseline, p: Packet, protocol: OtProtocol)
    ensures AllRanked(b, MessageAlerts(b, p, protocol))
  {
    match protocol
    case ModbusTcp => assert AllRanked(b, ModbusAlerts(b, p));
    case Iec104Tcp => Iec104Ranked(b, p, Iec104.Apdus(p.payload, APDU_LIMIT));
    case S7Tcp => assert AllRanked(b, S7Alerts(b, p));
  }

  lemma PacketRanked(b: Baseline, p: Packet, seen: set<Pair>)
    ensures AllRanked(b, PacketAlerts(b, p, seen))
  {
    if Relevant(b, p) {
      var protocol := OtPort(p.dport.value).value;
      MessageRanked(b, p, protocol);
      RankedConcat(b, TalkerAlerts(b, p, protocol, seen), MessageAlerts(b, p, protocol));
    }
  }

  /** Every alert of every run, from any state: CRITICAL is an operation by a source that is not in
      charge, INFO one by a station that is, HIGH one with nobody known to be in charge or a new
      talker, MEDIUM everything else. */
  lemma {:induction false} RunRanked(b: Baseline, s: State, ps: seq<Packet>)
    ensures AllRanked(b, RunAlerts(b, s, ps))
    decreases |ps|
  {
    if ps != [] {
      PacketRanked(b, ps[0], s.seen);
      RunRanked(b, Step(b, s, ps[0]), ps[1..]);
      RankedConcat(b, PacketAlerts(b, ps[0], s.seen), RunAlerts(b, Step(b, s, ps[0]), ps[1..]));
    }
  }

  lemma {:induction false} FloorRanked(b: Baseline, xs: seq<Alert>, floor: Severity)
    requires AllRanked(b, xs)
    ensures AllRanked(b, Monitor.AtFloor(xs, floor))
    ensures forall k :: 0 <= k < |Monitor.AtFloor(xs, floor)| ==> AtLeast(Monitor.AtFloor(xs, floor)[k].severity, floor)
  {
    if xs != [] {
      FloorRanked(b, xs[1..], floor);
      var rest := Monitor.AtFloor(xs[1..], floor);
      assert Monitor.AtFloor(xs, floor) == rest || Monitor.AtFloor(xs, floor) == [xs[0]] + rest;
    }
  }

  /** At the service's default floor a station in charge is never reported for operating the plant:
      all that is left of it is an attempt to silence an outstation. */
  lemma StationInChargeIsQuiet(b: Baseline, s: State, ps: seq<Packet>, k: nat)
    requires k < |Monitor.Monitored(b, s, ps, Medium).alerts|
    ensures var a := Monitor.Monitored(b, s, ps, Medium).alerts[k];
            Known(b) && !Unauthorised(b, a.src) ==> a.finding == StopReporting
  {
    RunRanked(b, s, ps);
    FloorRanked(b, RunAlerts(b, s, ps), Medium);
  }

  // ---------------------------------------------------------------------------
  // Which packets operate the plant
  // ---------------------------------------------------------------------------

  predicate Commands(apdu: Iec104.Apdu) {
    apdu.typeId.Some? && Iec104.ClassifyTypeId(apdu.typeId.value).Command?
  }

  /** The payload asks the device to do something, whoever sent it. */
  predicate Operates(p: Packet, protocol: OtProtocol) {
    match protocol
    case ModbusTcp =>
      var code := Modbus.ReadFunctionCode(p.payload);
      code.Some? && Modbus.ClassifyFunction(code.value) in {Modbus.Write, Modbus.Program}
    case Iec104Tcp => exists apdu :: apdu in Iec104.Apdus(p.payload, APDU_LIMIT) && Commands(apdu)
    case S7Tcp =>
      var job := S7comm.ParseJob(p.payload);
      job.Some? && job.value.rosctr == 1 && job.value.Class() in {S7comm.Write, S7comm.Program, S7comm.Control}
  }

  /** Some alert of the list is about an operation. */
  predicate Reports(xs: seq<Alert>) { exists k :: 0 <= k < |xs| && Operational(xs[k].finding) }

  lemma ReportsConcat(xs: seq<Alert>, ys: seq<Alert>)
    ensures Reports(xs + ys) <==> Reports(xs) || Reports(ys)
  {
    var zs := xs + ys;
    if Reports(xs) {
      var k :| 0 <= k < |xs| && Operational(xs[k].finding);
      assert zs[k] == xs[k];
    }
    if Reports(ys) {
      var k :| 0 <= k < |ys| && Operational(ys[k].finding);
      assert zs[|xs| + k] == ys[k];
    }
  }

  lemma OneReports(a: Alert)
    ensures Reports([a]) <==> Operational(a.finding)
    ensures !Reports([])
  {
    assert [a][0] == a;
  }

  /** Only I-format APDUs carry a type. */
  lemma {:induction false} TypedIsIFormat(data: seq<byte>, limit: nat, apdu: Iec104.Apdu)
    requires apdu in Iec104.Apdus(data, limit) && apdu.typeId.Some?
    ensures apdu.format.FormatI?
    decreases limit
  {
    var first := Iec104.ParseApdu(Iec104.FirstApdu(data));
    if apdu != first {
      TypedIsIFormat(Drop(data, 2 + data[1] as int), limit - 1, apdu);
    }
  }

  lemma ApduReports(b: Baseline, p: Packet, apdu: Iec104.Apdu)
    requires apdu.typeId.Some? ==> apdu.format.FormatI?
    ensures Reports(ApduAlerts(b, p, apdu)) <==> Commands(apdu)
  {
    var alerts := ApduAlerts(b, p, apdu);
    if alerts != [] {
      OneReports(alerts[0]);
      assert alerts == [alerts[0]];
    }
  }

  lemma {:induction false} Iec104Reports(b: Baseline, p: Packet, apdus: seq<Iec104.Apdu>)
    requires forall apdu :: apdu in apdus && apdu.typeId.Some? ==> apdu.format.FormatI?
    ensures Reports(Iec104Alerts(b, p, apdus)) <==> exists apdu :: apdu in apdus && Commands(apdu)
  {
    if apdus != [] {
      var front, last := apdus[..|apdus| - 1], apdus[|apdus| - 1];
      assert apdus == front + [last];
      Iec104Reports(b, p, front);
      ApduReports(b, p, last);
      ReportsConcat(Iec104Alerts(b, p, front), ApduAlerts(b, p, last));
    }
  }

  lemma MessageReports(b: Baseline, p: Packet, protocol: OtProtocol)
    ensures Reports(MessageAlerts(b, p, protocol)) <==> Operates(p, protocol)
  {
    var alerts := MessageAlerts(b, p, protocol);
    if protocol.Iec104Tcp? {
      var apdus := Iec104.Apdus(p.payload, APDU_LIMIT);
      forall apdu | apdu in apdus && apdu.typeId.Some? ensures apdu.format.FormatI? {
        TypedIsIFormat(p.payload, APDU_LIMIT, apdu);
      }
      Iec104Reports(b, p, apdus);
    } else if alerts != [] {
      OneReports(alerts[0]);
      assert alerts == [alerts[0]];
    }
  }

  /** No operation slips past, and nothing else is reported as one: whatever the baseline and whatever
      was seen before, a relevant packet raises an operational alert exactly when its payload asks for
      an operation. Who sent it only decides how severe that is. */
  lemma OperationsSurface(b: Baseline, p: Packet, seen: set<Pair>)
    requires Relevant(b, p)
    ensures Reports(PacketAlerts(b, p, seen)) <==> p.payload != [] && Operates(p, OtPort(p.dport.value).value)
  {
    var protocol := OtPort(p.dport.value).value;
    var syn, talker, message := SynAlerts(b, p, protocol), TalkerAlerts(b, p, protocol, seen), MessageAlerts(b, p, protocol);
    MessageReports(b, p, protocol);
    ReportsConcat(talker, message);
    ReportsConcat(syn, if p.payload == [] then [] else talker + message);
  }
}
