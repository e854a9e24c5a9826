/** Frames in, alerts out: the monitoring service, and the whole path from traffic to findings. */
module Monitor {
  import opened Wrappers
  import opened Bytes
  import opened Packet
  import opened OtDetect
  import PcapReader
  import PcapWriter
  import OtTraffic
  import TrafficRoundTrip
  import DetectorTheorems
  import PacketTheorems
  import Iec104

  /** A captured frame, or the live capture's heartbeat. */
  type Tick = Option<PcapReader.Record>

  function DecodeRecord(r: PcapReader.Record): Packet { Decode(r.frame, r.linktype, r.ts) }

  /** The packets of a source; heartbeats carry none. */
  function Decoded(source: seq<Tick>): seq<Packet> {
    if source == [] then []
    else (if source[0].Some? then [DecodeRecord(source[0].value)] else []) + Decoded(source[1..])
  }

  function AtFloor(alerts: seq<Alert>, floor: Severity): seq<Alert> {
    if alerts == [] then []
    else (if AtLeast(alerts[0].severity, floor) then [alerts[0]] else []) + AtFloor(alerts[1..], floor)
  }

  function Loud(x: Alert, floor: Severity): seq<Alert> { if AtLeast(x.severity, floor) then [x] else [] }

  lemma AtFloorStep(all: seq<Alert>, x: Alert, rest: seq<Alert>, floor: Severity)
    requires all == [x] + rest
    ensures AtFloor(all, floor) == Loud(x, floor) + AtFloor(rest, floor)
  {
    assert all[0] == x && all[1..] == rest;
  }

  lemma AppendAlerts(a: seq<Alert>, b: seq<Alert>, c: seq<Alert>)
    ensures a + (b + c) == (a + b) + c
  {
  }

  lemma {:induction false} AtFloorConcat(xs: seq<Alert>, ys: seq<Alert>, floor: Severity)
    ensures AtFloor(xs + ys, floor) == AtFloor(xs, floor) + AtFloor(ys, floor)
  {
    if xs == [] {
      assert xs + ys == ys;
    } else {
      var rest := xs[1..];
      AtFloorConcat(rest, ys, floor);
      AtFloorStep(xs, xs[0], rest, floor);
      AtFloorStep(xs + ys, xs[0], rest + ys, floor);
      AppendAlerts(Loud(xs[0], floor), AtFloor(rest, floor), AtFloor(ys, floor));
    }
  }

  /** Serious enough for the floor. */
  predicate Heard(severity: Severity, floor: Severity) {
    match floor
    case Critical => severity == Critical
    case High => severity == Critical || severity == High
    case Medium => severity != Info
    case Info => true
  }

  /** `out` is what is heard of `all`, in order: one heard is the next of `out`, one not heard is left out. */
  predicate HeardOf(all: seq<Alert>, out: seq<Alert>, floor: Severity) {
    if all == [] then out == []
    else if Heard(all[0].severity, floor) then out != [] && out[0] == all[0] && HeardOf(all[1..], out[1..], floor)
    else HeardOf(all[1..], out, floor)
  }

  lemma LoudIsHeard(x: Alert, floor: Severity)
    ensures Loud(x, floor) == if Heard(x.severity, floor) then [x] else []
  {
  }

  lemma {:induction false} AtFloorIsHeard(all: seq<Alert>, floor: Severity)
    ensures HeardOf(all, AtFloor(all, floor), floor)
  {
    if all != [] {
      var rest := AtFloor(all[1..], floor);
      AtFloorIsHeard(all[1..], floor);
      LoudIsHeard(all[0], floor);
      AtFloorStep(all, all[0], all[1..], floor);
      assert ([all[0]] + rest)[1..] == rest && [] + rest == rest;
    }
  }

  lemma AtFloorMore(all: seq<Alert>, k: nat, out: seq<Alert>, floor: Severity)
    requires k < |all|
    ensures out + AtFloor(all[k..], floor) == (out + Loud(all[k], floor)) + AtFloor(all[k + 1..], floor)
  {
    AtFloorStep(all[k..], all[k], all[k + 1..], floor);
    AppendAlerts(out, Loud(all[k], floor), AtFloor(all[k + 1..], floor));
  }

  class MonitorService {
    const detector: Detector
    const minSeverity: Severity

    constructor (detector: Detector, minSeverity: Severity)
      ensures this.detector == detector && this.minSeverity == minSeverity
    {
      this.detector := detector;
      this.minSeverity := minSeverity;
    }

    method Filter(alerts: seq<Alert>) returns (out: seq<Alert>)
      ensures out == AtFloor(alerts, minSeverity) && HeardOf(alerts, out, minSeverity)
    {
      ghost var heard := AtFloor(alerts, minSeverity);
      AtFloorIsHeard(alerts, minSeverity);
      out := [];
      assert alerts[0..] == alerts;
      for k := 0 to |alerts|
        invariant heard == out + AtFloor(alerts[k..], minSeverity)
      {
        AtFloorMore(alerts, k, out, minSeverity);
        if AtLeast(alerts[k].severity, minSeverity) {
          out := out + [alerts[k]];
        }
      }
    }

    /** One frame: decode it, feed it, keep what reaches the floor. */
    method Handle(frame: PcapReader.Record) returns (out: seq<Alert>)
      modifies detector
      ensures out == AtFloor(PacketAlerts(detector.baseline, DecodeRecord(frame), old(detector.seenTalkers)), minSeverity)
      ensures detector.Abs() == Step(detector.baseline, old(detector.Abs()), DecodeRecord(frame))
    {
      var found := detector.Feed(DecodeRecord(frame));
      out := Filter(found);
    }

    /** The generator, run to its end: the alerts at or above the floor, and the detector left as
        if it had been fed the decoded packets directly, whatever the floor. */
    method RunAll(source: seq<Tick>) returns (out: seq<Alert>)
      modifies detector
      ensures Outcome(out, detector.Abs()) == Monitored(detector.baseline, old(detector.Abs()), Decoded(source), minSeverity)
      ensures HeardOf(RunAlerts(detector.baseline, old(detector.Abs()), Decoded(source)), out, minSeverity)
    {
      ghost var found := RunAlerts(detector.baseline, detector.Abs(), Decoded(source));
      AtFloorIsHeard(found, minSeverity);
      out := [];
      ghost var whole := Monitored(detector.baseline, detector.Abs(), Decoded(source), minSeverity);
      assert source[0..] == source;
      for k := 0 to |source|
        invariant whole == After(out, Monitored(detector.baseline, detector.Abs(), Decoded(source[k..]), minSeverity))
      {
        DecodedStep(source, k);
        if source[k].None? {
          continue;
        }
        MonitoredStep(detector.baseline, detector.Abs(), DecodeRecord(source[k].value), Decoded(source[k + 1..]), minSeverity, out);
        var loud := Handle(source[k].value);
        out := out + loud;
      }
    }
  }

  /** What comes out of the service, and the state the detector is left in. */
  datatype Outcome = Outcome(alerts: seq<Alert>, state: State)

  function Monitored(b: Baseline, s: State, ps: seq<Packet>, floor: Severity): Outcome {
    Outcome(AtFloor(RunAlerts(b, s, ps), floor), Run(b, s, ps))
  }

  function After(out: seq<Alert>, o: Outcome): Outcome { Outcome(out + o.alerts, o.state) }

  lemma MonitoredStep(b: Baseline, s: State, p: Packet, ps: seq<Packet>, floor: Severity, out: seq<Alert>)
    ensures After(out, Monitored(b, s, [p] + ps, floor))
         == After(out + AtFloor(PacketAlerts(b, p, s.seen), floor), Monitored(b, Step(b, s, p), ps, floor))
  {
    RunStep(b, s, p, ps);
    AtFloorConcat(PacketAlerts(b, p, s.seen), RunAlerts(b, Step(b, s, p), ps), floor);
  }

  lemma DecodedStep(source: seq<Tick>, k: nat)
    requires k < |source|
    ensures Decoded(source[k..])
         == if source[k].None? then Decoded(source[k + 1..]) else [DecodeRecord(source[k].value)] + Decoded(source[k + 1..])
  {
    assert source[k..][0] == source[k] && source[k..][1..] == source[k + 1..];
    assert [] + Decoded(source[k + 1..]) == Decoded(source[k + 1..]);
  }

  lemma RunStep(b: Baseline, s: State, p: Packet, ps: seq<Packet>)
    ensures Run(b, s, [p] + ps) == Run(b, Step(b, s, p), ps)
    ensures RunAlerts(b, s, [p] + ps) == PacketAlerts(b, p, s.seen) + RunAlerts(b, Step(b, s, p), ps)
  {
    assert ([p] + ps)[0] == p && ([p] + ps)[1..] == ps;
  }

  // ---------------------------------------------------------------------------
  // Heartbeats
  // ---------------------------------------------------------------------------

  function Ticks(records: seq<PcapReader.Record>): seq<Tick> {
    if records == [] then [] else [Some(records[0])] + Ticks(records[1..])
  }

  /** The frames of a source. */
  function Frames(source: seq<Tick>): seq<PcapReader.Record> {
    if source == [] then [] else (if source[0].Some? then [source[0].value] else []) + Frames(source[1..])
  }

  /** However many heartbeats are inserted anywhere, the packets are those of the frames alone. */
  lemma {:induction false} HeartbeatsInvisible(source: seq<Tick>)
    ensures Decoded(source) == Decoded(Ticks(Frames(source)))
  {
    if source != [] {
      HeartbeatsInvisible(source[1..]);
      var rest := Frames(source[1..]);
      if source[0].Some? {
        assert Frames(source) == [source[0].value] + rest && ([source[0].value] + rest)[1..] == rest;
        assert Ticks(Frames(source)) == [source[0]] + Ticks(rest) && ([source[0]] + Ticks(rest))[1..] == Ticks(rest);
      } else {
        assert Frames(source) == [] + rest == rest;
      }
    }
  }

  // ---------------------------------------------------------------------------
  // Times do not decide anything
  // ---------------------------------------------------------------------------

  predicate Close(t: real, u: real, within: real) { -within <= t - u <= within }

  /** The same alerts in the same order, each dated within this much of its counterpart. */
  predicate SameFindings(xs: seq<Alert>, ys: seq<Alert>, within: real) {
    |xs| == |ys| && forall k :: 0 <= k < |xs| ==> xs[k] == ys[k].(ts := xs[k].ts) && Close(xs[k].ts, ys[k].ts, within)
  }

  /** The same packets, each at a time within this much. */
  predicate Retimed(ps: seq<Packet>, qs: seq<Packet>, within: real) {
    |ps| == |qs| && forall k :: 0 <= k < |ps| ==> qs[k] == ps[k].(ts := qs[k].ts) && Close(qs[k].ts, ps[k].ts, within)
  }

  lemma SameConcat(a: seq<Alert>, b: seq<Alert>, c: seq<Alert>, d: seq<Alert>, within: real)
    requires SameFindings(a, c, within) && SameFindings(b, d, within)
    ensures SameFindings(a + b, c + d, within)
  {
  }

  lemma ApduRetimed(b: Baseline, p: Packet, t: real, apdu: Iec104.Apdu, within: real)
    requires Close(t, p.ts, within)
    ensures SameFindings(ApduAlerts(b, p.(ts := t), apdu), ApduAlerts(b, p, apdu), within)
  {
  }

  lemma {:induction false} Iec104Retimed(b: Baseline, p: Packet, t: real, apdus: seq<Iec104.Apdu>, within: real)
    requires Close(t, p.ts, within)
    ensures SameFindings(Iec104Alerts(b, p.(ts := t), apdus), Iec104Alerts(b, p, apdus), within)
  {
    if apdus != [] {
      var front, last, q := apdus[..|apdus| - 1], apdus[|apdus| - 1], p.(ts := t);
      Iec104Retimed(b, p, t, front, within);
      ApduRetimed(b, p, t, last, within);
      SameConcat(Iec104Alerts(b, q, front), ApduAlerts(b, q, last), Iec104Alerts(b, p, front), ApduAlerts(b, p, last), within);
    }
  }

  lemma MessageRetimed(b: Baseline, p: Packet, t: real, protocol: OtProtocol, within: real)
    requires Close(t, p.ts, within)
    ensures SameFindings(MessageAlerts(b, p.(ts := t), protocol), MessageAlerts(b, p, protocol), within)
  {
    match protocol
    case ModbusTcp => assert SameFindings(ModbusAlerts(b, p.(ts := t)), ModbusAlerts(b, p), within);
    case Iec104Tcp => Iec104Retimed(b, p, t, Iec104.Apdus(p.payload, APDU_LIMIT), within);
    case S7Tcp => assert SameFindings(S7Alerts(b, p.(ts := t)), S7Alerts(b, p), within);
  }

  lemma PacketRetimed(b: Baseline, p: Packet, t: real, seen: set<Pair>, within: real)
    requires Close(t, p.ts, within)
    ensures SameFindings(PacketAlerts(b, p.(ts := t), seen), PacketAlerts(b, p, seen), within)
  {
    if Relevant(b, p) && p.payload != [] {
      var protocol, q := OtPort(p.dport.value).value, p.(ts := t);
      var syn, talker, message := SynAlerts(b, p, protocol), TalkerAlerts(b, p, protocol, seen), MessageAlerts(b, p, protocol);
      var syn', talker', message' := SynAlerts(b, q, protocol), TalkerAlerts(b, q, protocol, seen), MessageAlerts(b, q, protocol);
      MessageRetimed(b, p, t, protocol, within);
      SameConcat(talker', message', talker, message, within);
      SameConcat(syn', talker' + message', syn, talker + message, within);
    }
  }

  /** A packet's time never reaches the state. */
  lemma StepRetimed(b: Baseline, s: State, p: Packet, t: real)
    ensures Step(b, s, p.(ts := t)) == Step(b, s, p)
  {
    var q, within := p.(ts := t), if t < p.ts then p.ts - t else t - p.ts;
    DetectorTheorems.StepShape(b, s, p);
    DetectorTheorems.StepShape(b, s, q);
    PacketRetimed(b, p, t, s.seen, within);
    PacketRetimed(b, p, t, s.seen + DetectorTheorems.NewPairs(b, p), within);
    DetectorTheorems.AlertsShape(b, p, s.seen);
    DetectorTheorems.AlertsShape(b, q, s.seen);
    FixedRetimed(b, p, t, within);
  }

  lemma FixedRetimed(b: Baseline, p: Packet, t: real, within: real)
    requires Close(t, p.ts, within)
    ensures |DetectorTheorems.FixedAlerts(b, p.(ts := t))| == |DetectorTheorems.FixedAlerts(b, p)|
  {
    if Relevant(b, p) {
      MessageRetimed(b, p, t, OtPort(p.dport.value).value, within);
    }
  }

  /** Moving every packet of a run by at most so much leaves the final state alone and moves every
      alert by at most as much. */
  lemma {:induction false} RunRetimed(b: Baseline, s: State, ps: seq<Packet>, qs: seq<Packet>, within: real)
    requires Retimed(ps, qs, within)
    ensures Run(b, s, qs) == Run(b, s, ps)
    ensures SameFindings(RunAlerts(b, s, qs), RunAlerts(b, s, ps), within)
    decreases |ps|
  {
    if ps != [] {
      var p, t := ps[0], qs[0].ts;
      assert qs[0] == p.(ts := t);
      StepRetimed(b, s, p, t);
      PacketRetimed(b, p, t, s.seen, within);
      RunRetimed(b, Step(b, s, p), ps[1..], qs[1..], within);
      SameConcat(PacketAlerts(b, qs[0], s.seen), RunAlerts(b, Step(b, s, p), qs[1..]),
                 PacketAlerts(b, p, s.seen), RunAlerts(b, Step(b, s, p), ps[1..]), within);
    }
  }

  lemma {:induction false} FloorRetimed(xs: seq<Alert>, ys: seq<Alert>, floor: Severity, within: real)
    requires SameFindings(xs, ys, within)
    ensures SameFindings(AtFloor(xs, floor), AtFloor(ys, floor), within)
  {
    if xs != [] {
      var x, y := xs[0], ys[0];
      assert x == y.(ts := x.ts);
      FloorRetimed(xs[1..], ys[1..], floor, within);
      AtFloorStep(xs, x, xs[1..], floor);
      AtFloorStep(ys, y, ys[1..], floor);
      SameConcat(Loud(x, floor), AtFloor(xs[1..], floor), Loud(y, floor), AtFloor(ys[1..], floor), within);
    }
  }

  // ---------------------------------------------------------------------------
  // From traffic to findings
  // ---------------------------------------------------------------------------

  /** Exchanges the encoder and the capture writer can handle. */
  predicate Recordable(x: OtTraffic.Exchange) { OtTraffic.Encodable(x) && PcapWriter.InRange(x.ts) }

  predicate AllRecordable(xs: seq<OtTraffic.Exchange>) { forall k :: 0 <= k < |xs| ==> Recordable(xs[k]) }

  function FramesOf(xs: seq<OtTraffic.Exchange>): (fs: seq<PcapWriter.Frame>)
    requires AllRecordable(xs)
    ensures |fs| == |xs| && forall k :: 0 <= k < |fs| ==> fs[k] == PcapWriter.Frame(xs[k].ts, OtTraffic.FrameOf(xs[k]))
  {
    seq(|xs|, k requires 0 <= k < |xs| => PcapWriter.Frame(xs[k].ts, OtTraffic.FrameOf(xs[k])))
  }

  /** The packet an exchange stands for, at its own time. */
  function PacketOf(x: OtTraffic.Exchange): Packet
    requires OtTraffic.Encodable(x)
  {
    Decode(OtTraffic.FrameOf(x), LINKTYPE_ETHERNET, x.ts)
  }

  /** Between four-octet addresses that is the packet with the exchange's own endpoints and payload. */
  lemma PacketOfIsExpected(x: OtTraffic.Exchange)
    requires OtTraffic.Encodable(x) && |x.src| == |x.dst| == 4
    ensures PacketOf(x) == TrafficRoundTrip.Expected(x, x.ts)
  {
    TrafficRoundTrip.DecodeUndoesEncode(x, x.ts);
  }

  function Direct(xs: seq<OtTraffic.Exchange>): (ps: seq<Packet>)
    requires AllRecordable(xs)
    ensures |ps| == |xs| && forall k :: 0 <= k < |ps| ==> ps[k] == PacketOf(xs[k])
  {
    seq(|xs|, k requires 0 <= k < |xs| => PacketOf(xs[k]))
  }

  function CaptureOf(xs: seq<OtTraffic.Exchange>): PcapReader.Stream
    requires AllRecordable(xs)
  {
    PcapReader.Capture(PcapWriter.FileOf(FramesOf(xs), PcapWriter.LINKTYPE_ETHERNET))
  }

  lemma DecodedOne(r: PcapReader.Record, rest: seq<Tick>)
    ensures Decoded([Some(r)] + rest) == [DecodeRecord(r)] + Decoded(rest)
  {
    assert ([Some(r)] + rest)[1..] == rest;
  }

  /** Each record of a capture is decoded by its own linktype, at its own time. */
  lemma {:induction false} DecodedTicks(records: seq<PcapReader.Record>)
    ensures |Decoded(Ticks(records))| == |records|
    ensures forall k :: 0 <= k < |records| ==>
      Decoded(Ticks(records))[k] == Decode(records[k].frame, records[k].linktype, records[k].ts)
  {
    if records != [] {
      var rest := Ticks(records[1..]);
      DecodedTicks(records[1..]);
      assert Ticks(records) == [Some(records[0])] + rest;
      DecodedOne(records[0], rest);
    }
  }

  lemma FrameFits(x: OtTraffic.Exchange)
    requires OtTraffic.Encodable(x)
    ensures |OtTraffic.FrameOf(x)| <= PcapReader.MAX_BLOCK
  {
  }

  lemma CaptureWhole(xs: seq<OtTraffic.Exchange>)
    requires AllRecordable(xs)
    ensures |CaptureOf(xs).records| == |xs| && CaptureOf(xs).stop == PcapReader.Ended
  {
    var fs := FramesOf(xs);
    forall k | 0 <= k < |fs|
      ensures PcapWriter.InRange(fs[k].ts) && |fs[k].data| <= PcapReader.MAX_BLOCK
    {
      FrameFits(xs[k]);
    }
    PcapWriter.RoundTripExact(fs, PcapWriter.LINKTYPE_ETHERNET);
  }

  lemma RecordDecodes(x: OtTraffic.Exchange, r: PcapReader.Record)
    requires Recordable(x)
    requires PcapWriter.Kept(r, PcapWriter.Frame(x.ts, OtTraffic.FrameOf(x)), PcapWriter.LINKTYPE_ETHERNET)
    ensures DecodeRecord(r) == PacketOf(x).(ts := r.ts) && Close(r.ts, x.ts, PcapWriter.HALF_MICROSECOND)
    ensures PacketOf(x).ts == x.ts
  {
    PacketTheorems.DecodeRetimed(r.frame, LINKTYPE_ETHERNET, x.ts, r.ts);
    PacketTheorems.DecodeRetimed(r.frame, LINKTYPE_ETHERNET, x.ts, x.ts);
  }

  /** Reading back the capture of any exchanges and decoding it gives the packets they stand for,
      each time off by at most half a microsecond. */
  lemma CaptureDecodes(xs: seq<OtTraffic.Exchange>)
    requires AllRecordable(xs)
    ensures CaptureOf(xs).stop == PcapReader.Ended
    ensures Retimed(Direct(xs), Decoded(Ticks(CaptureOf(xs).records)), PcapWriter.HALF_MICROSECOND)
  {
    CaptureWhole(xs);
    var records, direct := CaptureOf(xs).records, Direct(xs);
    var ps := Decoded(Ticks(records));
    DecodedTicks(records);
    PcapWriter.FramesSurvive(FramesOf(xs), PcapWriter.LINKTYPE_ETHERNET);
    forall k | 0 <= k < |xs|
      ensures ps[k] == direct[k].(ts := ps[k].ts) && Close(ps[k].ts, direct[k].ts, PcapWriter.HALF_MICROSECOND)
    {
      RecordDecodes(xs[k], records[k]);
    }
  }

  /** Encoding any exchanges, writing them to a capture, reading it back and monitoring it finds what
      feeding the packets directly finds: the same final state, and at every severity floor the
      same alerts, each dated within half a microsecond. */
  lemma PipelineEquivalence(b: Baseline, xs: seq<OtTraffic.Exchange>, floor: Severity)
    requires AllRecordable(xs)
    ensures var piped, direct := Monitored(b, FRESH, Decoded(Ticks(CaptureOf(xs).records)), floor),
                                 Monitored(b, FRESH, Direct(xs), floor);
            piped.state == direct.state && SameFindings(piped.alerts, direct.alerts, PcapWriter.HALF_MICROSECOND)
            && HeardOf(RunAlerts(b, FRESH, Direct(xs)), direct.alerts, floor)
  {
    AtFloorIsHeard(RunAlerts(b, FRESH, Direct(xs)), floor);
    var ps := Decoded(Ticks(CaptureOf(xs).records));
    CaptureDecodes(xs);
    RunRetimed(b, FRESH, Direct(xs), ps, PcapWriter.HALF_MICROSECOND);
    FloorRetimed(RunAlerts(b, FRESH, ps), RunAlerts(b, FRESH, Direct(xs)), floor, PcapWriter.HALF_MICROSECOND);
  }

  /** The same path, walked by the writer, the reader and the service themselves. */
  method Replay(b: Baseline, xs: seq<OtTraffic.Exchange>, floor: Severity) returns (alerts: seq<Alert>, state: State)
    requires AllRecordable(xs)
    ensures SameFindings(alerts, Monitored(b, FRESH, Direct(xs), floor).alerts, PcapWriter.HALF_MICROSECOND)
    ensures state == Run(b, FRESH, Direct(xs))
  {
    var handle := new PcapWriter.FileWriter();
    var written := PcapWriter.WritePcap(handle, FramesOf(xs), PcapWriter.LINKTYPE_ETHERNET);
    var records, stop := PcapReader.ReadPcap(handle.data);
    var detector := new Detector(b);
    var service := new MonitorService(detector, floor);
    alerts := service.RunAll(Ticks(records));
    state := detector.Abs();
    PipelineEquivalence(b, xs, floor);
  }
}
