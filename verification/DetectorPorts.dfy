/** What the detector raises, read off the octets of a packet: which port, which payload, which source. */
module DetectorPorts {
  import opened Wrappers
  import opened Bytes
  import opened Packet
  import opened OtDetect
  import Iec104
  import Modbus
  import S7comm
  import SeverityTheorems

  // ---------------------------------------------------------------------------
  // What a packet asks for
  // ---------------------------------------------------------------------------

  /** The protection covers the destination: all of them when none is listed. */
  predicate Covered(b: Baseline, p: Packet) { p.dst.Some? && (b.plcs == {} || p.dst.value in b.plcs) }

  /** Stations are listed, and the source is none of them. */
  predicate Outsider(b: Baseline, p: Packet) { p.src.Some? && b.hmi != {} && p.src.value !in b.hmi }

  /** How severe it is that this source operates the plant. */
  function Gravity(b: Baseline, p: Packet): Severity {
    if b.hmi == {} then High else if Outsider(b, p) then Critical else Info
  }

  /** A Modbus/TCP payload with this function code: protocol 0, a length from 1 to 255. */
  predicate ModbusCode(payload: seq<byte>, code: byte) {
    && |payload| >= 8 && payload[2] == 0 && payload[3] == 0 && payload[4] == 0 && payload[5] >= 1
    && code == payload[7] % 128
  }

  /** An S7 request for this job. */
  predicate S7Request(payload: seq<byte>, job: byte) {
    |payload| >= 18 && payload[0] == 3 && payload[7] == 0x32 && payload[8] == 1 && payload[17] == job
  }

  /** APDU n of the payload carries an ASDU of this type. */
  predicate Typed(payload: seq<byte>, n: nat, t: byte) {
    var place := Iec104.Place(payload, 0, n);
    place.Some? && payload[place.value + 2] % 2 == 0 && Iec104.OctetIn(payload, place.value, 6) == Some(t)
  }

  /** APDU n of the payload asks the outstation to stop reporting. */
  predicate Stops(payload: seq<byte>, n: nat) {
    var place := Iec104.Place(payload, 0, n);
    place.Some? && payload[place.value + 2] == 0x13
  }

  /** The types that only interrogate. */
  predicate Asks(t: byte) { t == 100 || t == 101 || t == 102 || t == 103 || t == 107 }

  /** One of the first 64 APDUs is of this type. */
  ghost predicate SomeTyped(payload: seq<byte>, t: byte) { exists n: nat :: n < 64 && Typed(payload, n, t) }

  ghost predicate SomeStops(payload: seq<byte>) { exists n: nat :: n < 64 && Stops(payload, n) }

  /** The finding is called for by a packet to this port, this severely. */
  ghost predicate Called(b: Baseline, p: Packet, port: u16, seen: set<Pair>, severity: Severity, f: Finding) {
    match f
    case NewConnection(to) => 'S' in p.flags && 'A' !in p.flags && Outsider(b, p) && to == port && severity == Medium
    case NewTalker => p.payload != [] && Outsider(b, p) && (p.src, p.dst) !in seen && severity == High
    case ModbusWrite(code) =>
      port == 502 && ModbusCode(p.payload, code) && code in {5, 6, 15, 16, 22, 23} && severity == Gravity(b, p)
    case ModbusProgram(code) =>
      port == 502 && ModbusCode(p.payload, code) && code in {21, 90} && severity == Gravity(b, p)
    case ModbusRecon(code) =>
      port == 502 && ModbusCode(p.payload, code) && code in {8, 17, 43} && Outsider(b, p) && severity == Medium
    case StopReporting => port == 2404 && SomeStops(p.payload) && severity == Medium
    case ControlCommand(t) =>
      port == 2404 && SomeTyped(p.payload, t) && t >= 45 && !Asks(t) && severity == Gravity(b, p)
    case Interrogation(t) => port == 2404 && SomeTyped(p.payload, t) && Asks(t) && Outsider(b, p) && severity == Medium
    case BlockTransfer(job) => port == 102 && S7Request(p.payload, job) && 0x1A <= job <= 0x1F && severity == Gravity(b, p)
    case CpuControl(job) => port == 102 && S7Request(p.payload, job) && job in {0x28, 0x29} && severity == Gravity(b, p)
    case S7Write(job) => port == 102 && S7Request(p.payload, job) && job == 5 && severity == Gravity(b, p)
  }

  // ---------------------------------------------------------------------------
  // One message at a time
  // ---------------------------------------------------------------------------

  predicate Has(xs: seq<Alert>, severity: Severity, f: Finding) {
    exists k :: 0 <= k < |xs| && xs[k].severity == severity && xs[k].finding == f
  }

  lemma HasConcat(xs: seq<Alert>, ys: seq<Alert>, severity: Severity, f: Finding)
    ensures Has(xs + ys, severity, f) <==> Has(xs, severity, f) || Has(ys, severity, f)
  {
    var zs := xs + ys;
    if Has(xs, severity, f) {
      var k :| 0 <= k < |xs| && xs[k].severity == severity && xs[k].finding == f;
      assert zs[k] == xs[k];
    }
    if Has(ys, severity, f) {
      var k :| 0 <= k < |ys| && ys[k].severity == severity && ys[k].finding == f;
      assert zs[|xs| + k] == ys[k];
    }
  }

  lemma HasOne(a: Alert, severity: Severity, f: Finding)
    ensures Has([a], severity, f) <==> a.severity == severity && a.finding == f
    ensures !Has([], severity, f)
  {
    assert [a][0] == a;
  }

  lemma GravityIs(b: Baseline, p: Packet)
    ensures SeverityOf(b, p.src, Critical) == Gravity(b, p)
    ensures Unauthorised(b, p.src) <==> Outsider(b, p)
  {
  }

  lemma ModbusCodeIs(payload: seq<byte>)
    ensures Modbus.ReadFunctionCode(payload).Some? ==> ModbusCode(payload, Modbus.ReadFunctionCode(payload).value)
    ensures forall code: byte :: ModbusCode(payload, code) ==> Modbus.ReadFunctionCode(payload) == Some(code)
  {
  }

  lemma ModbusCalled(b: Baseline, p: Packet, seen: set<Pair>, severity: Severity, f: Finding)
    requires !f.NewConnection? && !f.NewTalker?
    ensures Has(ModbusAlerts(b, p), severity, f) <==> Called(b, p, 502, seen, severity, f)
  {
    GravityIs(b, p);
    ModbusCodeIs(p.payload);
    if ModbusAlerts(b, p) != [] {
      HasOne(ModbusAlerts(b, p)[0], severity, f);
      assert ModbusAlerts(b, p) == [ModbusAlerts(b, p)[0]];
    }
  }

  lemma S7Called(b: Baseline, p: Packet, seen: set<Pair>, severity: Severity, f: Finding)
    requires !f.NewConnection? && !f.NewTalker?
    ensures Has(S7Alerts(b, p), severity, f) <==> Called(b, p, 102, seen, severity, f)
  {
    GravityIs(b, p);
    if S7Alerts(b, p) != [] {
      HasOne(S7Alerts(b, p)[0], severity, f);
      assert S7Alerts(b, p) == [S7Alerts(b, p)[0]];
    }
  }

  /** The finding is called for by APDU n. */
  predicate CalledBy(b: Baseline, p: Packet, n: nat, severity: Severity, f: Finding) {
    match f
    case StopReporting => Stops(p.payload, n) && severity == Medium
    case ControlCommand(t) => Typed(p.payload, n, t) && t >= 45 && !Asks(t) && severity == Gravity(b, p)
    case Interrogation(t) => Typed(p.payload, n, t) && Asks(t) && Outsider(b, p) && severity == Medium
    case _ => false
  }

  lemma ApduCalled(b: Baseline, p: Packet, n: nat, apdu: Iec104.Apdu, severity: Severity, f: Finding)
    requires Iec104.SaysAtPlace(p.payload, 0, n, apdu)
    ensures Has(ApduAlerts(b, p, apdu), severity, f) <==> CalledBy(b, p, n, severity, f)
  {
    GravityIs(b, p);
    if ApduAlerts(b, p, apdu) != [] {
      HasOne(ApduAlerts(b, p, apdu)[0], severity, f);
      assert ApduAlerts(b, p, apdu) == [ApduAlerts(b, p, apdu)[0]];
    }
  }

  lemma {:induction false} Iec104Has(b: Baseline, p: Packet, apdus: seq<Iec104.Apdu>, severity: Severity, f: Finding)
    requires forall n: nat :: n < |apdus| ==> Iec104.SaysAtPlace(p.payload, 0, n, apdus[n])
    ensures Has(Iec104Alerts(b, p, apdus), severity, f) <==> exists n: nat :: n < |apdus| && CalledBy(b, p, n, severity, f)
  {
    if apdus != [] {
      var front, last := apdus[..|apdus| - 1], apdus[|apdus| - 1];
      Iec104Has(b, p, front, severity, f);
      ApduCalled(b, p, |apdus| - 1, last, severity, f);
      HasConcat(Iec104Alerts(b, p, front), ApduAlerts(b, p, last), severity, f);
    }
  }

  lemma SomeCalledBy(b: Baseline, p: Packet, seen: set<Pair>, severity: Severity, f: Finding)
    requires !f.NewConnection? && !f.NewTalker?
    ensures (exists n: nat :: n < 64 && CalledBy(b, p, n, severity, f)) <==> Called(b, p, 2404, seen, severity, f)
  {
    match f
    case StopReporting =>
      assert forall n: nat :: CalledBy(b, p, n, severity, f) <==> Stops(p.payload, n) && severity == Medium;
    case ControlCommand(t) =>
      assert forall n: nat :: CalledBy(b, p, n, severity, f) <==>
        Typed(p.payload, n, t) && t >= 45 && !Asks(t) && severity == Gravity(b, p);
    case Interrogation(t) =>
      assert forall n: nat :: CalledBy(b, p, n, severity, f) <==>
        Typed(p.payload, n, t) && Asks(t) && Outsider(b, p) && severity == Medium;
    case _ =>
  }

  lemma WithinApdus(b: Baseline, p: Packet, apdus: seq<Iec104.Apdu>, severity: Severity, f: Finding)
    requires |apdus| <= 64 && forall n: nat :: Iec104.FoundAt(p.payload, 0, 64, n, apdus)
    ensures (exists n: nat :: n < |apdus| && CalledBy(b, p, n, severity, f))
       <==> (exists n: nat :: n < 64 && CalledBy(b, p, n, severity, f))
  {
    forall n: nat | n < 64 && CalledBy(b, p, n, severity, f) ensures n < |apdus| {
      assert Iec104.FoundAt(p.payload, 0, 64, n, apdus);
    }
  }

  lemma Iec104Called(b: Baseline, p: Packet, seen: set<Pair>, severity: Severity, f: Finding)
    requires !f.NewConnection? && !f.NewTalker?
    ensures Has(Iec104Alerts(b, p, Iec104.Apdus(p.payload, 64)), severity, f) <==> Called(b, p, 2404, seen, severity, f)
  {
    var apdus := Iec104.Apdus(p.payload, 64);
    Iec104.AllFound(p.payload, 64, apdus);
    Iec104.SixOctetsEach(p.payload, 64);
    forall n: nat | n < |apdus| ensures Iec104.SaysAtPlace(p.payload, 0, n, apdus[n]) {
      assert Iec104.FoundAt(p.payload, 0, 64, n, apdus);
    }
    Iec104Has(b, p, apdus, severity, f);
    WithinApdus(b, p, apdus, severity, f);
    SomeCalledBy(b, p, seen, severity, f);
  }

  // ---------------------------------------------------------------------------
  // A whole packet
  // ---------------------------------------------------------------------------

  function Label(port: u16): OtProtocol
    requires port in {502, 2404, 102}
  {
    if port == 502 then ModbusTcp else if port == 2404 then Iec104Tcp else S7Tcp
  }

  lemma MessageCalled(b: Baseline, p: Packet, port: u16, seen: set<Pair>, severity: Severity, f: Finding)
    requires port in {502, 2404, 102} && !f.NewConnection? && !f.NewTalker?
    ensures Has(MessageAlerts(b, p, Label(port)), severity, f) <==> Called(b, p, port, seen, severity, f)
  {
    if port == 502 {
      ModbusCalled(b, p, seen, severity, f);
    } else if port == 2404 {
      Iec104Called(b, p, seen, severity, f);
    } else {
      S7Called(b, p, seen, severity, f);
    }
  }

  predicate AllFrom(p: Packet, protocol: OtProtocol, xs: seq<Alert>) {
    forall k :: 0 <= k < |xs| ==> xs[k].ts == p.ts && xs[k].src == p.src && xs[k].dst == p.dst && xs[k].protocol == protocol
  }

  predicate NoneAboutConnections(xs: seq<Alert>) {
    forall k :: 0 <= k < |xs| ==> !xs[k].finding.NewConnection? && !xs[k].finding.NewTalker?
  }

  lemma MessageSound(b: Baseline, p: Packet, port: u16)
    requires port in {502, 2404, 102}
    ensures var xs := MessageAlerts(b, p, Label(port)); AllFrom(p, Label(port), xs) && NoneAboutConnections(xs)
  {
    if port == 2404 {
      Iec104Sound(b, p, Iec104.Apdus(p.payload, APDU_LIMIT));
    }
  }

  lemma {:induction false} Iec104Sound(b: Baseline, p: Packet, apdus: seq<Iec104.Apdu>)
    ensures var xs := Iec104Alerts(b, p, apdus); AllFrom(p, Iec104Tcp, xs) && NoneAboutConnections(xs)
  {
    if apdus != [] {
      Iec104Sound(b, p, apdus[..|apdus| - 1]);
    }
  }

  lemma HasSyn(b: Baseline, p: Packet, protocol: OtProtocol, port: u16, seen: set<Pair>, severity: Severity, f: Finding)
    requires p.dport == Some(port)
    ensures Has(SynAlerts(b, p, protocol), severity, f) <==> f.NewConnection? && Called(b, p, port, seen, severity, f)
  {
    GravityIs(b, p);
    if SynAlerts(b, p, protocol) != [] {
      HasOne(SynAlerts(b, p, protocol)[0], severity, f);
    }
  }

  lemma HasTalker(b: Baseline, p: Packet, protocol: OtProtocol, port: u16, seen: set<Pair>, severity: Severity, f: Finding)
    requires p.payload != []
    ensures Has(TalkerAlerts(b, p, protocol, seen), severity, f) <==> f.NewTalker? && Called(b, p, port, seen, severity, f)
  {
    GravityIs(b, p);
    if TalkerAlerts(b, p, protocol, seen) != [] {
      HasOne(TalkerAlerts(b, p, protocol, seen)[0], severity, f);
    }
  }

  lemma HasMessage(b: Baseline, p: Packet, port: u16, seen: set<Pair>, severity: Severity, f: Finding)
    requires port in {502, 2404, 102}
    ensures Has(MessageAlerts(b, p, Label(port)), severity, f)
       <==> !f.NewConnection? && !f.NewTalker? && Called(b, p, port, seen, severity, f)
  {
    if f.NewConnection? || f.NewTalker? {
      MessageSound(b, p, port);
    } else {
      MessageCalled(b, p, port, seen, severity, f);
    }
  }

  lemma EmptyCallsNothing(b: Baseline, p: Packet, port: u16, seen: set<Pair>, severity: Severity, f: Finding)
    requires p.payload == [] && Called(b, p, port, seen, severity, f)
    ensures f.NewConnection?
  {
  }

  lemma OtPortIs(b: Baseline, p: Packet, port: u16)
    requires p.protocol == Tcp && p.dport == Some(port)
    ensures Relevant(b, p) <==> port in {502, 2404, 102} && Covered(b, p)
    ensures port in {502, 2404, 102} ==> OtPort(port) == Some(Label(port))
  {
  }

  /** A TCP packet to port 502, 2404 or 102 of a covered device raises exactly the findings its flags, its
      payload and its source call for, each as severely as that, dated, addressed and labelled as the packet
      is; and it is counted. */
  lemma PacketCalled(b: Baseline, p: Packet, port: u16, st: State, severity: Severity, f: Finding)
    requires p.protocol == Tcp && p.dport == Some(port) && port in {502, 2404, 102} && Covered(b, p)
    ensures Has(PacketAlerts(b, p, st.seen), severity, f) <==> Called(b, p, port, st.seen, severity, f)
    ensures AllFrom(p, Label(port), PacketAlerts(b, p, st.seen))
    ensures Step(b, st, p).packets == st.packets + 1
  {
    OtPortIs(b, p, port);
    var protocol := Label(port);
    var syn, talker, message := SynAlerts(b, p, protocol), TalkerAlerts(b, p, protocol, st.seen), MessageAlerts(b, p, protocol);
    HasSyn(b, p, protocol, port, st.seen, severity, f);
    if p.payload == [] {
      if Called(b, p, port, st.seen, severity, f) {
        EmptyCallsNothing(b, p, port, st.seen, severity, f);
      }
      assert PacketAlerts(b, p, st.seen) == syn;
    } else {
      HasTalker(b, p, protocol, port, st.seen, severity, f);
      HasMessage(b, p, port, st.seen, severity, f);
      MessageSound(b, p, port);
      HasConcat(talker, message, severity, f);
      HasConcat(syn, talker + message, severity, f);
    }
  }

  /** Any other packet raises nothing and changes nothing. */
  lemma ElsewhereIgnored(b: Baseline, p: Packet, st: State)
    requires p.protocol != Tcp || p.dport == None || p.dport.value !in {502, 2404, 102} || !Covered(b, p)
    ensures PacketAlerts(b, p, st.seen) == [] && Step(b, st, p) == st
  {
  }

  // ---------------------------------------------------------------------------
  // Operations, reported and observed
  // ---------------------------------------------------------------------------

  /** The payload of a packet to this port asks for something to be done to the plant. */
  ghost predicate Operated(payload: seq<byte>, port: u16) {
    if port == 502 then exists code: byte :: ModbusCode(payload, code) && code in {5, 6, 15, 16, 21, 22, 23, 90}
    else if port == 2404 then exists t: byte :: SomeTyped(payload, t) && t >= 45 && !Asks(t)
    else exists job: byte :: S7Request(payload, job) && (job == 5 || 0x1A <= job <= 0x1F || job in {0x28, 0x29})
  }

  /** What an operational finding is of: a code, a type or a job. */
  function Subject(f: Finding): byte {
    match f
    case ModbusWrite(code) => code
    case ModbusProgram(code) => code
    case ControlCommand(t) => t
    case BlockTransfer(job) => job
    case CpuControl(job) => job
    case S7Write(job) => job
    case _ => 0
  }

  lemma OperatedBy(b: Baseline, p: Packet, port: u16, seen: set<Pair>, severity: Severity, f: Finding)
    requires port in {502, 2404, 102} && SeverityTheorems.Operational(f) && Called(b, p, port, seen, severity, f)
    ensures Operated(p.payload, port)
  {
    var subject := Subject(f);
    if port == 502 {
      assert ModbusCode(p.payload, subject);
    } else if port == 2404 {
      assert SomeTyped(p.payload, subject);
    } else {
      assert S7Request(p.payload, subject);
    }
  }

  /** The finding an operation calls for. */
  lemma OperationCalls(b: Baseline, p: Packet, port: u16, seen: set<Pair>) returns (f: Finding)
    requires port in {502, 2404, 102} && Operated(p.payload, port)
    ensures SeverityTheorems.Operational(f) && Called(b, p, port, seen, Gravity(b, p), f)
  {
    if port == 502 {
      var code: byte :| ModbusCode(p.payload, code) && code in {5, 6, 15, 16, 21, 22, 23, 90};
      f := if code in {21, 90} then ModbusProgram(code) else ModbusWrite(code);
    } else if port == 2404 {
      var t: byte :| SomeTyped(p.payload, t) && t >= 45 && !Asks(t);
      f := ControlCommand(t);
    } else {
      var job: byte :| S7Request(p.payload, job) && (job == 5 || 0x1A <= job <= 0x1F || job in {0x28, 0x29});
      f := if job == 5 then S7Write(job) else if job in {0x28, 0x29} then CpuControl(job) else BlockTransfer(job);
    }
  }

  /** Whatever the baseline and the history, an operational alert is raised exactly when the payload asks for
      an operation in the protocol of its port. */
  lemma OperationsByPort(b: Baseline, p: Packet, port: u16, st: State)
    requires p.protocol == Tcp && p.dport == Some(port) && port in {502, 2404, 102} && Covered(b, p)
    ensures SeverityTheorems.Reports(PacketAlerts(b, p, st.seen)) <==> Operated(p.payload, port)
  {
    var xs := PacketAlerts(b, p, st.seen);
    if SeverityTheorems.Reports(xs) {
      var k :| 0 <= k < |xs| && SeverityTheorems.Operational(xs[k].finding);
      PacketCalled(b, p, port, st, xs[k].severity, xs[k].finding);
      OperatedBy(b, p, port, st.seen, xs[k].severity, xs[k].finding);
    }
    if Operated(p.payload, port) {
      var f := OperationCalls(b, p, port, st.seen);
      PacketCalled(b, p, port, st, Gravity(b, p), f);
    }
  }

  /** The payload of a packet to this port shows the operation. */
  ghost predicate Shows(payload: seq<byte>, port: u16, op: Operation) {
    match op
    case ModbusOp(code) => port == 502 && ModbusCode(payload, code)
    case StopdtOp => port == 2404 && SomeStops(payload)
    case Iec104Op(t) => port == 2404 && SomeTyped(payload, t)
    case S7Op(job) => port == 102 && S7Request(payload, job)
  }

  /** The operation is shown by APDU n. */
  predicate ShownBy(payload: seq<byte>, n: nat, op: Operation) {
    match op
    case StopdtOp => Stops(payload, n)
    case Iec104Op(t) => Typed(payload, n, t)
    case _ => false
  }

  lemma {:induction false} Iec104Shown(payload: seq<byte>, apdus: seq<Iec104.Apdu>, op: Operation)
    requires forall n: nat :: n < |apdus| ==> Iec104.SaysAtPlace(payload, 0, n, apdus[n])
    ensures op in Iec104Ops(apdus) <==> exists n: nat :: n < |apdus| && ShownBy(payload, n, op)
  {
    if apdus != [] {
      var front, last := apdus[..|apdus| - 1], apdus[|apdus| - 1];
      Iec104Shown(payload, front, op);
      assert op in ApduOps(last) <==> ShownBy(payload, |apdus| - 1, op);
    }
  }

  lemma SomeShownBy(payload: seq<byte>, apdus: seq<Iec104.Apdu>, op: Operation)
    requires |apdus| <= 64 && forall n: nat :: Iec104.FoundAt(payload, 0, 64, n, apdus)
    ensures (exists n: nat :: n < |apdus| && ShownBy(payload, n, op)) <==> Shows(payload, 2404, op)
  {
    forall n: nat | n < 64 && ShownBy(payload, n, op) ensures n < |apdus| {
      assert Iec104.FoundAt(payload, 0, 64, n, apdus);
    }
    match op
    case StopdtOp => assert forall n: nat :: ShownBy(payload, n, op) <==> Stops(payload, n);
    case Iec104Op(t) => assert forall n: nat :: ShownBy(payload, n, op) <==> Typed(payload, n, t);
    case _ =>
  }

  lemma MessageShows(p: Packet, port: u16, op: Operation)
    requires port in {502, 2404, 102}
    ensures op in MessageOps(p, Label(port)) <==> Shows(p.payload, port, op)
  {
    if port == 2404 {
      var apdus := Iec104.Apdus(p.payload, 64);
      Iec104.AllFound(p.payload, 64, apdus);
      Iec104.SixOctetsEach(p.payload, 64);
      forall n: nat | n < |apdus| ensures Iec104.SaysAtPlace(p.payload, 0, n, apdus[n]) {
        assert Iec104.FoundAt(p.payload, 0, 64, n, apdus);
      }
      Iec104Shown(p.payload, apdus, op);
      SomeShownBy(p.payload, apdus, op);
    } else if port == 502 {
      ModbusCodeIs(p.payload);
    }
  }

  /** The operations observed are those the payloads show, whoever sent them. */
  lemma OperationsObserved(b: Baseline, p: Packet, port: u16, st: State, op: Operation)
    requires p.protocol == Tcp && p.dport == Some(port) && port in {502, 2404, 102} && Covered(b, p)
    ensures op in Step(b, st, p).observed <==> op in st.observed || Shows(p.payload, port, op)
  {
    OtPortIs(b, p, port);
    if p.payload != [] {
      MessageShows(p, port, op);
    }
  }
}
