/** Writing a classic little-endian microsecond capture, and reading it back. */
module PcapWriter {
  import opened Wrappers
  import opened Bytes
  import opened PcapReader

  const LINKTYPE_ETHERNET := 1
  const MAGIC: u32 := 0xA1B2C3D4
  const SNAPLEN: u32 := 65535

  const HALF_MICROSECOND := 0.0000005

  /** A timestamp in seconds and the frame captured then. */
  datatype Frame = Frame(ts: real, data: seq<byte>)

  // ---------------------------------------------------------------------------
  // Rounding
  // ---------------------------------------------------------------------------

  /** Python's int(x): towards zero. */
  function Truncate(x: real): (n: int)
    ensures if x >= 0.0 then n as real <= x < n as real + 1.0 else n as real - 1.0 < x <= n as real
  {
    if x >= 0.0 then x.Floor else -((-x).Floor)
  }

  /** Python's round(x): to the nearest integer, ties to the even one. */
  function RoundHalfEven(x: real): int {
    var d := x - x.Floor as real;
    if d < 0.5 || (d == 0.5 && x.Floor % 2 == 0) then x.Floor else x.Floor + 1
  }

  /** The two time fields of a record header. */
  function Stamp(ts: real): (int, int) {
    var seconds := Truncate(ts);
    var micros := RoundHalfEven((ts - seconds as real) * MICROS);
    if micros >= 1000000 then (seconds + 1, micros - 1000000) else (seconds, micros)
  }

  function StampTime(stamp: (int, int)): real { stamp.0 as real + stamp.1 as real / MICROS }

  /** What the reader will report for a packet written at `ts`. */
  function Rounded(ts: real): real { StampTime(Stamp(ts)) }

  lemma RoundNear(x: real)
    ensures -0.5 <= RoundHalfEven(x) as real - x <= 0.5
  {
  }

  /** Half-way between two integers the even one is taken. */
  lemma RoundTie(n: int)
    ensures RoundHalfEven(n as real + 0.5) == if n % 2 == 0 then n else n + 1
  {
  }

  lemma RoundInt(n: int)
    ensures RoundHalfEven(n as real) == n
  {
  }

  /** Whatever the rounding does, the microsecond field stays below a second, and for times at
      or after the epoch it is not negative either. */
  lemma MicrosInRange(ts: real)
    ensures -1000000 <= Stamp(ts).1 < 1000000
    ensures ts >= 0.0 ==> 0 <= Stamp(ts).1 && 0 <= Stamp(ts).0
  {
    var x := (ts - Truncate(ts) as real) * MICROS;
    assert -MICROS < x < MICROS;
    RoundNear(x);
  }

  /** The recorded time is within half a microsecond of the original. */
  lemma StampNear(ts: real)
    ensures -HALF_MICROSECOND <= Rounded(ts) - ts <= HALF_MICROSECOND
  {
    var seconds := Truncate(ts);
    var x := (ts - seconds as real) * MICROS;
    RoundNear(x);
    assert x / MICROS == ts - seconds as real;
    var micros := RoundHalfEven(x);
    assert (micros as real - x) / MICROS == micros as real / MICROS - x / MICROS;
    assert (seconds + 1) as real + (micros - 1000000) as real / MICROS == seconds as real + micros as real / MICROS;
  }

  /** Whole microseconds survive exactly. */
  lemma StampExact(n: nat)
    ensures Rounded(n as real / MICROS) == n as real / MICROS
  {
    var ts := n as real / MICROS;
    var seconds := ts.Floor;
    assert n as real == ts * MICROS;
    var x := (ts - seconds as real) * MICROS;
    assert x == (n - seconds * 1000000) as real;
    RoundInt(n - seconds * 1000000);
    assert x / MICROS == ts - seconds as real;
  }

  // ---------------------------------------------------------------------------
  // The file
  // ---------------------------------------------------------------------------

  predicate Fits32(n: int) { 0 <= n < 0x1_0000_0000 }

  type Octets32 = s: seq<byte> | |s| < 0x1_0000_0000

  /** A record whose fields fit the header's four 32-bit slots. */
  datatype Raw = Raw(seconds: u32, micros: u32, data: Octets32)

  /** None where struct.pack would raise on one of the record's fields. */
  function Pack(f: Frame): Option<Raw> {
    var (seconds, micros) := Stamp(f.ts);
    if Fits32(seconds) && Fits32(micros) && Fits32(|f.data|) then Some(Raw(seconds, micros, f.data)) else None
  }

  predicate InRange(ts: real) { -HALF_MICROSECOND <= ts < 4294967296.0 - HALF_MICROSECOND }

  lemma SecondsInRange(ts: real)
    ensures var (seconds, micros) := Stamp(ts); Fits32(seconds) && Fits32(micros) <==> InRange(ts)
  {
    var seconds := Truncate(ts);
    var x := (ts - seconds as real) * MICROS;
    RoundNear(x);
    MicrosInRange(ts);
  }

  /** struct.pack accepts a record exactly when its time is in range and its length fits. */
  lemma PackExactly(f: Frame)
    ensures Pack(f).Some? <==> InRange(f.ts) && Fits32(|f.data|)
  {
    SecondsInRange(f.ts);
  }

  /** The records packed before the first frame that makes struct.pack raise. */
  function PackAll(frames: seq<Frame>): (raws: seq<Raw>)
    ensures |raws| <= |frames|
  {
    if frames == [] then []
    else
      match Pack(frames[0])
      case None => []
      case Some(raw) => [raw] + PackAll(frames[1..])
  }

  function GlobalHeader(linktype: u32): (s: seq<byte>)
    ensures |s| == 24
  {
    Put32(Little, MAGIC) + (Put16(Little, 2) + Put16(Little, 4) + Put32(Little, 0) + Put32(Little, 0)
                            + Put32(Little, SNAPLEN) + Put32(Little, linktype))
  }

  function RecordBytes(r: Raw): seq<byte> {
    Put32(Little, r.seconds) + Put32(Little, r.micros) + Put32(Little, |r.data|) + Put32(Little, |r.data|) + r.data
  }

  function RecordsBytes(raws: seq<Raw>): seq<byte> {
    if raws == [] then [] else RecordBytes(raws[0]) + RecordsBytes(raws[1..])
  }

  function FileBytes(raws: seq<Raw>, linktype: u32): seq<byte> {
    GlobalHeader(linktype) + RecordsBytes(raws)
  }

  /** Nothing is written when the global header itself cannot be packed. */
  function FileOf(frames: seq<Frame>, linktype: int): seq<byte> {
    if Fits32(linktype) then FileBytes(PackAll(frames), linktype) else []
  }

  /** The octets of the header: little-endian microseconds, version 2.4, no zone or accuracy, the snapshot
      length, the linktype. */
  lemma HeaderLayout(linktype: u32)
    ensures GlobalHeader(linktype)
         == [0xD4, 0xC3, 0xB2, 0xA1, 2, 0, 4, 0, 0, 0, 0, 0, 0, 0, 0, 0, 0xFF, 0xFF, 0, 0] + Put32(Little, linktype)
  {
    assert Put32(Little, MAGIC) == [0xD4, 0xC3, 0xB2, 0xA1] && Put32(Little, SNAPLEN) == [0xFF, 0xFF, 0, 0];
    assert Put16(Little, 2) == [2, 0] && Put16(Little, 4) == [4, 0] && Put32(Little, 0) == [0, 0, 0, 0];
  }

  /** Sixteen octets of header, with the length of the frame in both places, and the frame. */
  lemma RecordLayout(r: Raw)
    ensures var s, length := RecordBytes(r), Put32(Little, |r.data|);
            && |s| == 16 + |r.data| && s[..8] == Put32(Little, r.seconds) + Put32(Little, r.micros)
            && s[8..16] == length + length && s[16..] == r.data
  {
    var head := Put32(Little, r.seconds) + Put32(Little, r.micros) + Put32(Little, |r.data|) + Put32(Little, |r.data|);
    assert RecordBytes(r) == head + r.data;
    assert head[..8] == Put32(Little, r.seconds) + Put32(Little, r.micros);
    assert head[8..] == Put32(Little, |r.data|) + Put32(Little, |r.data|);
  }

  /** A binary file handle open for writing. */
  class FileWriter {
    var data: seq<byte>

    constructor ()
      ensures data == []
    {
      data := [];
    }

    method Write(bytes: seq<byte>)
      modifies this
      ensures data == old(data) + bytes
    {
      data := data + bytes;
    }
  }

  lemma PackAllFirst(frames: seq<Frame>, f: Frame, rest: seq<Frame>)
    requires frames == [f] + rest
    ensures PackAll(frames) == if Pack(f).Some? then [Pack(f).value] + PackAll(rest) else []
  {
    assert frames[1..] == rest;
  }

  lemma AppendRaws(a: seq<Raw>, b: seq<Raw>, c: seq<Raw>)
    ensures (a + b) + c == a + (b + c)
  {
  }

  lemma {:induction false} PackAllStep(frames: seq<Frame>, k: nat)
    requires k < |frames|
    requires k == |PackAll(frames[..k])|
    ensures PackAll(frames[..k + 1]) == PackAll(frames[..k]) + (if Pack(frames[k]).Some? then [Pack(frames[k]).value] else [])
    ensures Pack(frames[k]).None? ==> PackAll(frames) == PackAll(frames[..k])
  {
    if k > 0 {
      var rest := frames[1..];
      PackAllFirst(frames[..k], frames[0], rest[..k - 1]);
      PackAllFirst(frames[..k + 1], frames[0], rest[..k]);
      PackAllFirst(frames, frames[0], rest);
      PackAllStep(rest, k - 1);
      AppendRaws([Pack(frames[0]).value], PackAll(rest[..k - 1]), if Pack(frames[k]).Some? then [Pack(frames[k]).value] else []);
    } else {
      assert frames[..0] == [] && frames[..1] == [frames[0]] && [frames[0]][1..] == [];
    }
  }

  lemma {:induction false} RecordsBytesSnoc(raws: seq<Raw>, r: Raw)
    ensures RecordsBytes(raws + [r]) == RecordsBytes(raws) + RecordBytes(r)
  {
    if raws == [] {
      assert raws + [r] == [r] && [r][1..] == [];
    } else {
      assert (raws + [r])[0] == raws[0] && (raws + [r])[1..] == raws[1..] + [r];
      RecordsBytesSnoc(raws[1..], r);
    }
  }

  lemma FileSnoc(raws: seq<Raw>, r: Raw, linktype: u32)
    ensures FileBytes(raws + [r], linktype) == FileBytes(raws, linktype) + RecordBytes(r)
  {
    RecordsBytesSnoc(raws, r);
  }

  method WriteRecord(handle: FileWriter, f: Frame) returns (ok: bool)
    modifies handle
    ensures ok == Pack(f).Some?
    ensures handle.data == if ok then old(handle.data) + RecordBytes(Pack(f).value) else old(handle.data)
  {
    var seconds := Truncate(f.ts);
    var micros := RoundHalfEven((f.ts - seconds as real) * MICROS);
    if micros >= 1000000 {
      seconds := seconds + 1;
      micros := micros - 1000000;
    }
    assert (seconds, micros) == Stamp(f.ts);
    if !(Fits32(seconds) && Fits32(micros) && Fits32(|f.data|)) {
      return false;
    }
    handle.Write(Put32(Little, seconds) + Put32(Little, micros) + Put32(Little, |f.data|) + Put32(Little, |f.data|));
    handle.Write(f.data);
    return true;
  }

  /** Returns the record count, or None where struct.pack raised; then everything before the
      offending header is already in the file. */
  method WritePcap(handle: FileWriter, frames: seq<Frame>, linktype: int) returns (written: Option<nat>)
    requires handle.data == []
    modifies handle
    ensures handle.data == FileOf(frames, linktype)
    ensures written == if Fits32(linktype) && |PackAll(frames)| == |frames| then Some(|frames|) else None
  {
    if !Fits32(linktype) {
      return None;
    }
    handle.Write(GlobalHeader(linktype));
    var count := 0;
    ghost var done: seq<Raw> := [];
    assert frames[..0] == [];
    while count < |frames|
      invariant count <= |frames| && done == PackAll(frames[..count]) && |done| == count
      invariant handle.data == FileBytes(done, linktype)
    {
      PackAllStep(frames, count);
      var ok := WriteRecord(handle, frames[count]);
      if !ok {
        return None;
      }
      FileSnoc(done, Pack(frames[count]).value, linktype);
      count := count + 1;
      done := PackAll(frames[..count]);
    }
    assert frames[..count] == frames;
    return Some(count);
  }

  // ---------------------------------------------------------------------------
  // Round trip
  // ---------------------------------------------------------------------------

  function RawTime(r: Raw): real { StampTime((r.seconds, r.micros)) }

  function ReadBack(raws: seq<Raw>, linktype: nat): (rs: seq<Record>)
    ensures |rs| == |raws|
    ensures forall k :: 0 <= k < |rs| ==> rs[k] == Record(RawTime(raws[k]), linktype, raws[k].data)
  {
    if raws == [] then []
    else [Record(RawTime(raws[0]), linktype, raws[0].data)] + ReadBack(raws[1..], linktype)
  }

  /** The leading records within the reader's cap. */
  function Readable(raws: seq<Raw>): (n: nat)
    ensures n <= |raws| && forall k :: 0 <= k < n ==> |raws[k].data| <= MAX_BLOCK
    ensures n < |raws| ==> |raws[n].data| > MAX_BLOCK
  {
    if raws == [] || |raws[0].data| > MAX_BLOCK then 0 else 1 + Readable(raws[1..])
  }

  function Survivors(raws: seq<Raw>, linktype: nat): Stream {
    Stream(ReadBack(raws[..Readable(raws)], linktype),
           if Readable(raws) == |raws| then Ended else Raised(ImplausibleRecord))
  }

  lemma RecordFields(a: seq<byte>, b: seq<byte>, c: seq<byte>, d: seq<byte>, frame: seq<byte>, rest: seq<byte>)
    requires |a| == |b| == |c| == |d| == 4
    ensures var s := a + b + c + d + frame + rest;
            && |s| >= 16 + |frame| && s[..16][..4] == a && s[..16][4..8] == b && s[8..12] == c
            && s[16..16 + |frame|] == frame && s[16 + |frame|..] == rest
  {
    var head := a + b + c + d;
    var s := head + frame + rest;
    assert head[..4] == a && head[4..8] == b && head[8..12] == c;
    assert s[..16] == head && s[8..12] == head[8..12];
    assert s[16..16 + |frame|] == frame;
    assert s[16 + |frame|..] == rest;
  }

  lemma RecordStepOf(r: Raw, linktype: nat, rest: seq<byte>)
    ensures var s, size := RecordBytes(r) + rest, 16 + |r.data|;
            && |s| >= size && s[size..] == rest
            && RecordStep(Little, MICROS, linktype, s)
               == (if |r.data| > MAX_BLOCK then Stopped(Raised(ImplausibleRecord))
                   else Got(size, Record(RawTime(r), linktype, r.data)))
  {
    var length := Put32(Little, |r.data|);
    RecordFields(Put32(Little, r.seconds), Put32(Little, r.micros), length, length, r.data, rest);
    Put32RoundTrip(Little, r.seconds);
    Put32RoundTrip(Little, r.micros);
    Put32RoundTrip(Little, |r.data|);
  }

  lemma {:induction false} RecordsRoundTrip(raws: seq<Raw>, linktype: nat)
    ensures ClassicRecords(Little, MICROS, linktype, RecordsBytes(raws)) == Survivors(raws, linktype)
  {
    if raws != [] {
      RecordStepOf(raws[0], linktype, RecordsBytes(raws[1..]));
      if |raws[0].data| <= MAX_BLOCK {
        RecordsRoundTrip(raws[1..], linktype);
        assert raws[..Readable(raws)][1..] == raws[1..][..Readable(raws[1..])];
      }
    }
  }

  lemma HeaderBytes(linktype: u32, rest: seq<byte>)
    ensures var file := GlobalHeader(linktype) + rest;
            && file[..4] == MAGIC_USEC_LE
            && file[4..][16..20] == Put32(Little, linktype) && file[4..][20..] == rest
  {
    var file := GlobalHeader(linktype) + rest;
    assert Put32(Little, MAGIC) == MAGIC_USEC_LE;
    assert file[4..] == GlobalHeader(linktype)[4..] + rest;
  }

  /** What the reader makes of any file the writer leaves: every packed frame in order, with its
      bytes, the linktype and its rounded time, up to the first frame over the reader's cap. */
  lemma WriteReadRoundTrip(raws: seq<Raw>, linktype: u32)
    ensures Capture(FileBytes(raws, linktype)) == Survivors(raws, linktype)
  {
    var rest := RecordsBytes(raws);
    HeaderBytes(linktype, rest);
    Put32RoundTrip(Little, linktype);
    assert MAGIC_USEC_LE[0] != MAGIC_NSEC_LE[0] && MAGIC_USEC_LE[0] != MAGIC_NSEC_BE[0];
    RecordsRoundTrip(raws, linktype);
  }

  lemma PackAllAt(frames: seq<Frame>, k: nat)
    requires k < |PackAll(frames)|
    ensures var raw := PackAll(frames)[k];
            raw.data == frames[k].data && RawTime(raw) == Rounded(frames[k].ts) && raw.micros < 1000000
  {
    if k == 0 {
      MicrosInRange(frames[0].ts);
    } else {
      PackAllAt(frames[1..], k - 1);
    }
  }

  /** The same octets, the linktype of the file, and the rounded time, within half a microsecond. */
  predicate Kept(r: Record, f: Frame, linktype: nat) {
    r.frame == f.data && r.linktype == linktype && r.ts == Rounded(f.ts) && -HALF_MICROSECOND <= r.ts - f.ts <= HALF_MICROSECOND
  }

  /** Record k of the file read back is frame k of the list. */
  lemma FramesSurvive(frames: seq<Frame>, linktype: u32)
    ensures var records := Capture(FileOf(frames, linktype)).records;
            && |records| <= |frames|
            && forall k :: 0 <= k < |records| ==> Kept(records[k], frames[k], linktype)
  {
    var records := Capture(FileOf(frames, linktype)).records;
    WriteReadRoundTrip(PackAll(frames), linktype);
    forall k | 0 <= k < |records| ensures Kept(records[k], frames[k], linktype) {
      PackAllAt(frames, k);
      StampNear(frames[k].ts);
    }
  }

  /** Every frame comes back if and only if every one is stamped from half a microsecond before the epoch
      up to half a microsecond before the end of the last 32-bit second, and none is over the cap. */
  lemma RoundTripExact(frames: seq<Frame>, linktype: u32)
    ensures var stream := Capture(FileOf(frames, linktype));
            (|stream.records| == |frames|)
            <==> (forall k :: 0 <= k < |frames| ==> InRange(frames[k].ts) && |frames[k].data| <= MAX_BLOCK)
    ensures |Capture(FileOf(frames, linktype)).records| == |frames| ==> Capture(FileOf(frames, linktype)).stop == Ended
  {
    var raws := PackAll(frames);
    WriteReadRoundTrip(raws, linktype);
    PackAllWhole(frames);
    forall k | 0 <= k < |raws| ensures raws[k].data == frames[k].data {
      PackAllAt(frames, k);
    }
    forall k | 0 <= k < |frames| ensures Pack(frames[k]).Some? <==> InRange(frames[k].ts) && Fits32(|frames[k].data|) {
      PackExactly(frames[k]);
    }
  }

  /** A frame a second before the epoch is refused, so nothing comes back. */
  lemma BeforeEpochFails(data: seq<byte>, linktype: u32)
    ensures Pack(Frame(-1.0, data)) == None
    ensures Capture(FileOf([Frame(-1.0, data)], linktype)).records == []
  {
    var frames := [Frame(-1.0, data)];
    PackExactly(frames[0]);
    FramesSurvive(frames, linktype);
    RoundTripExact(frames, linktype);
    assert !InRange(frames[0].ts);
  }

  lemma {:induction false} PackAllWhole(frames: seq<Frame>)
    ensures |PackAll(frames)| == |frames| <==> forall k :: 0 <= k < |frames| ==> Pack(frames[k]).Some?
    ensures |PackAll(frames)| < |frames| ==> Pack(frames[|PackAll(frames)|]).None?
  {
    if frames != [] {
      PackAllWhole(frames[1..]);
    }
  }
}
