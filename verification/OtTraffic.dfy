/** Synthetic OT frames: Ethernet, IPv4, TCP and payload built octet by octet. */
module OtTraffic {
  import opened Wrappers
  import opened Bytes
  import opened Checksum

  /** One application message. Addresses are the integers between the dots. */
  datatype Exchange = Exchange(
    ts: real,
    src: seq<int>,
    dst: seq<int>,
    sport: int,
    dport: int,
    payload: seq<byte>,
    flags: string)

  /** struct.error for a number that does not fit its field, ValueError for a bad octet. */
  datatype EncodeError = StructError | ValueError

  predicate IsOctet(n: int) { 0 <= n < 0x100 }

  predicate IsPort(n: int) { 0 <= n < 0x1_0000 }

  /** The text of an address has at least one part between its dots. */
  predicate AllOctets(parts: seq<int>) { parts != [] && forall k :: 0 <= k < |parts| ==> IsOctet(parts[k]) }

  function FlagBits(flags: string): byte {
    if flags == "S" then 0x02
    else if flags == "SA" then 0x12
    else if flags == "A" then 0x10
    else if flags == "FA" then 0x11
    else 0x18
  }

  /** The first four octets after a locally administered prefix; fewer if the address is shorter. */
  function Mac(parts: seq<int>): seq<byte> {
    var four := parts[..Min(4, |parts|)];
    [0x02, 0x00] + seq(|four|, k requires 0 <= k < |four| => four[k] % 0x100)
  }

  function AddressOctets(parts: seq<int>): (s: seq<byte>)
    requires AllOctets(parts)
    ensures |s| == |parts| && forall k :: 0 <= k < |s| ==> s[k] == parts[k]
  {
    seq(|parts|, k requires 0 <= k < |parts| => parts[k] as byte)
  }

  /** struct's "4s": cut or zero-padded to four octets. */
  function FourOctets(address: seq<byte>): (s: seq<byte>)
    ensures |s| == 4 && forall k :: 0 <= k < 4 ==> s[k] == if k < |address| then address[k] else 0
    ensures |address| == 4 ==> s == address
  {
    if |address| >= 4 then address[..4] else address + Zeros(4 - |address|)
  }

  function PseudoHeader(src: seq<byte>, dst: seq<byte>, length: u16): seq<byte> {
    src + dst + ([0, 6] + Put16(Big, length))
  }

  /** A TCP segment with a zero checksum field. */
  function BareSegment(sport: u16, dport: u16, flags: string, payload: seq<byte>): (s: seq<byte>)
    ensures |s| == 20 + |payload|
  {
    Put16(Big, sport) + Put16(Big, dport) + Put32(Big, 1000) + Put32(Big, 2000)
    + [0x50, FlagBits(flags)] + Put16(Big, 8192) + [0, 0] + [0, 0] + payload
  }

  function Segment(src: seq<byte>, dst: seq<byte>, sport: u16, dport: u16, flags: string, payload: seq<byte>): (s: seq<byte>)
    requires |payload| < 0x1_0000 - 20
    ensures |s| == 20 + |payload|
  {
    var bare := BareSegment(sport, dport, flags, payload);
    Filled(bare, 16, ChecksumOf(PseudoHeader(src, dst, |bare|) + bare))
  }

  /** An IPv4 header with a zero checksum field. */
  function BareIpHeader(src: seq<byte>, dst: seq<byte>, total: u16): (s: seq<byte>)
    ensures |s| == 20
  {
    [0x45, 0] + Put16(Big, total) + [0, 0] + [0x40, 0] + [64, 6] + [0, 0] + FourOctets(src) + FourOctets(dst)
  }

  function IpHeader(src: seq<byte>, dst: seq<byte>, total: u16): (s: seq<byte>)
    ensures |s| == 20
  {
    var bare := BareIpHeader(src, dst, total);
    Filled(bare, 10, ChecksumOf(bare))
  }

  const MAX_PAYLOAD := 65495

  /** Every number fits its field. */
  predicate Encodable(x: Exchange) {
    IsPort(x.sport) && IsPort(x.dport) && AllOctets(x.src) && AllOctets(x.dst) && |x.payload| <= MAX_PAYLOAD
  }

  function FrameOf(x: Exchange): seq<byte>
    requires Encodable(x)
  {
    var src, dst := AddressOctets(x.src), AddressOctets(x.dst);
    var tcp := Segment(src, dst, x.sport, x.dport, x.flags, x.payload);
    Mac(x.dst) + Mac(x.src) + Put16(Big, 0x0800) + IpHeader(src, dst, 20 + |tcp|) + tcp
  }

  lemma OctetsAll(parts: seq<int>)
    ensures AllOctets(parts) <==> parts != [] && forall n :: n in parts ==> 0 <= n <= 255
  {
    if parts != [] && forall n :: n in parts ==> 0 <= n <= 255 {
      forall k | 0 <= k < |parts| ensures IsOctet(parts[k]) {
        assert parts[k] in parts;
      }
    }
  }

  function EncodeFrame(x: Exchange): (r: Result<seq<byte>, EncodeError>)
    ensures r.Ok? <==> Encodable(x)
    ensures r.Ok? <==> 0 <= x.sport < 65536 && 0 <= x.dport < 65536 && |x.payload| <= 65535 - 40
                       && x.src != [] && x.dst != [] && forall n :: n in x.src || n in x.dst ==> 0 <= n <= 255
    ensures r == Err(ValueError) ==> x.src == [] || x.dst == [] || exists n :: (n in x.src || n in x.dst) && !(0 <= n <= 255)
    ensures r == Err(StructError) ==> !(0 <= x.sport < 65536) || !(0 <= x.dport < 65536) || |x.payload| > 65535 - 40
  {
    OctetsAll(x.src);
    OctetsAll(x.dst);
    if !IsPort(x.sport) || !IsPort(x.dport) then Err(StructError)
    else if !AllOctets(x.src) || !AllOctets(x.dst) then Err(ValueError)
    else if |x.payload| > MAX_PAYLOAD then Err(StructError)
    else Ok(FrameOf(x))
  }

  // ---------------------------------------------------------------------------
  // IEC-104 payload builders
  // ---------------------------------------------------------------------------

  function IecUFrame(control: byte): seq<byte> { [0x68, 0x04, control, 0, 0, 0] }

  function IecIFrame(typeId: byte, cause: u16, commonAddress: u16, ioa: u32, payload: seq<byte>): Result<seq<byte>, EncodeError> {
    var body := [0, 0, 0, 0] + [typeId, 0x01] + Put16(Little, cause) + Put16(Little, commonAddress)
                + Put32(Little, ioa)[..3] + payload;
    if |body| > 255 then Err(ValueError) else Ok([0x68, |body|] + body)
  }

  /** Every octet of a built I-frame: one object, and a payload of at most 242 octets. */
  lemma IFrameLayout(typeId: byte, cause: u16, commonAddress: u16, ioa: u32, payload: seq<byte>)
    ensures IecIFrame(typeId, cause, commonAddress, ioa, payload)
         == if |payload| > 242 then Err(ValueError)
            else Ok([0x68, 13 + |payload|] + ([0, 0, 0, 0, typeId, 1, cause % 256, cause / 256, commonAddress % 256,
                     commonAddress / 256, ioa % 256, ioa / 256 % 256, ioa / 65536 % 256] + payload))
  {
    var front := [0, 0, 0, 0] + [typeId, 0x01] + Put16(Little, cause) + Put16(Little, commonAddress) + Put32(Little, ioa)[..3];
    assert Put32(Little, ioa)[..3] == [ioa % 256, ioa / 256 % 256, ioa / 65536 % 256];
    assert front == [0, 0, 0, 0, typeId, 1, cause % 256, cause / 256, commonAddress % 256,
                     commonAddress / 256, ioa % 256, ioa / 256 % 256, ioa / 65536 % 256];
  }
}
