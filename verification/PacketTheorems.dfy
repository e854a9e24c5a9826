/** What the frame decoders ignore, skip and hand on. */
module PacketTheorems {
  import opened Wrappers
  import opened Bytes
  import opened Packet

  /** The same packet seen in a frame of another length. */
  function Resized(p: Packet, length: nat): Packet { p.(length := length) }

  lemma Ipv4Resized(data: seq<byte>, ts: real, a: nat, b: nat)
    ensures DecodeIpv4(data, ts, b) == Resized(DecodeIpv4(data, ts, a), b)
  {
  }

  lemma Ipv6Resized(data: seq<byte>, ts: real, a: nat, b: nat)
    ensures DecodeIpv6(data, ts, b) == Resized(DecodeIpv6(data, ts, a), b)
  {
  }

  lemma IpResized(data: seq<byte>, ts: real, a: nat, b: nat)
    ensures DecodeIp(data, ts, b) == Resized(DecodeIp(data, ts, a), b)
  {
    Ipv4Resized(data, ts, a, b);
    Ipv6Resized(data, ts, a, b);
  }

  lemma EthertypeResized(ethertype: u16, data: seq<byte>, ts: real, a: nat, b: nat)
    ensures DecodeEthertype(ethertype, data, ts, b) == Resized(DecodeEthertype(ethertype, data, ts, a), b)
  {
    IpResized(data, ts, a, b);
  }

  lemma Ipv4Retimed(data: seq<byte>, length: nat, t: real, u: real)
    ensures DecodeIpv4(data, u, length) == DecodeIpv4(data, t, length).(ts := u)
  {
  }

  lemma Ipv6Retimed(data: seq<byte>, length: nat, t: real, u: real)
    ensures DecodeIpv6(data, u, length) == DecodeIpv6(data, t, length).(ts := u)
  {
  }

  lemma EthertypeRetimed(ethertype: u16, data: seq<byte>, length: nat, t: real, u: real)
    ensures DecodeIp(data, u, length) == DecodeIp(data, t, length).(ts := u)
    ensures DecodeEthertype(ethertype, data, u, length) == DecodeEthertype(ethertype, data, t, length).(ts := u)
  {
    Ipv4Retimed(data, length, t, u);
    Ipv6Retimed(data, length, t, u);
  }

  /** The time given to the decoder goes into the packet and nowhere else. */
  lemma DecodeRetimed(data: seq<byte>, linktype: nat, t: real, u: real)
    ensures Decode(data, linktype, u) == Decode(data, linktype, t).(ts := u)
  {
    EthertypeRetimed(0, data, |data|, t, u);
    if |data| >= 14 {
      EthertypeRetimed(U16(Big, data[12..14]), data[14..], |data|, t, u);
    }
    if |data| >= 16 {
      EthertypeRetimed(U16(Big, data[14..16]), data[16..], |data|, t, u);
    }
    if |data| >= 18 {
      EthertypeRetimed(U16(Big, data[16..18]), data[18..], |data|, t, u);
    }
  }

  // ---------------------------------------------------------------------------
  // The payload is always a piece of the input
  // ---------------------------------------------------------------------------

  ghost predicate PieceOf(p: seq<byte>, s: seq<byte>) {
    exists a: nat, b: nat :: a <= b <= |s| && p == s[a..b]
  }

  lemma SliceOfSlice(s: seq<byte>, c: nat, d: nat, a: nat, b: nat)
    requires c <= d <= |s| && a <= b <= d - c
    ensures s[c..d][a..b] == s[c + a..c + b]
  {
    var whole, inner := s[c..d], s[c + a..c + b];
    assert |whole[a..b]| == |inner|;
    assert forall i :: 0 <= i < |inner| ==> whole[a..b][i] == inner[i];
  }

  lemma PieceOfPiece(p: seq<byte>, q: seq<byte>, s: seq<byte>)
    requires PieceOf(p, q) && PieceOf(q, s)
    ensures PieceOf(p, s)
  {
    var a: nat, b: nat :| a <= b <= |q| && p == q[a..b];
    var c: nat, d: nat :| c <= d <= |s| && q == s[c..d];
    SliceOfSlice(s, c, d, a, b);
  }

  lemma SliceIsPiece(s: seq<byte>, a: nat, b: nat)
    ensures PieceOf(Slice(s, a, b), s) && PieceOf(Drop(s, a), s) && PieceOf([], s) && PieceOf(s, s)
  {
    var hi := Min(b, |s|);
    var lo := Min(a, hi);
    assert Slice(s, a, b) == s[lo..hi];
    assert Drop(s, a) == s[Min(a, |s|)..|s|];
    assert [] == s[0..0];
    assert s == s[0..|s|];
  }

  lemma TransportPiece(proto: byte, body: seq<byte>, c: Context)
    ensures PieceOf(DecodeTransport(proto, body, c).payload, body)
  {
    var p := DecodeTransport(proto, body, c).payload;
    SliceIsPiece(body, 0, 0);
    if proto == 6 && p != [] {
      SliceIsPiece(body, body[12] / 16 * 4, 0);
    } else if proto == 17 && p != [] {
      SliceIsPiece(body, 8, if 8 <= U16(Big, body[4..6]) <= |body| then U16(Big, body[4..6]) else |body|);
    } else {
      SliceIsPiece(body, 4, 0);
    }
  }

  lemma {:induction false} WalkPiece(n: nat, header: byte, body: seq<byte>)
    ensures PieceOf(Walk(n, header, body).1, body)
  {
    SliceIsPiece(body, HeaderSize(header, body), 0);
    if n > 0 && HeaderSize(header, body) > 0 {
      var rest := Drop(body, HeaderSize(header, body));
      WalkPiece(n - 1, body[0], rest);
      PieceOfPiece(Walk(n, header, body).1, rest, body);
    }
  }

  lemma Ipv4Piece(data: seq<byte>, ts: real, length: nat)
    ensures PieceOf(DecodeIpv4(data, ts, length).payload, data)
  {
    SliceIsPiece(data, 0, 0);
    if |data| >= 20 {
      var ihl, total := data[0] % 16 * 4, U16(Big, data[2..4]);
      var body := if 20 <= total <= |data| then Slice(data, ihl, total) else Drop(data, ihl);
      var c := Context(ts, length, data[12..16], data[16..20], 4);
      SliceIsPiece(data, ihl, total);
      TransportPiece(data[9], body, c);
      PieceOfPiece(DecodeTransport(data[9], body, c).payload, body, data);
    }
  }

  lemma Ipv6Piece(data: seq<byte>, ts: real, length: nat)
    ensures PieceOf(DecodeIpv6(data, ts, length).payload, data)
  {
    SliceIsPiece(data, 0, 0);
    if |data| >= 40 {
      var chain := data[40..Min(40 + U16(Big, data[4..6]), |data|)];
      var (header, body) := Walk(WALK_LIMIT, data[6], chain);
      var c := Context(ts, length, data[8..24], data[24..40], 6);
      assert PieceOf(chain, data);
      WalkPiece(WALK_LIMIT, data[6], chain);
      TransportPiece(header, body, c);
      PieceOfPiece(DecodeTransport(header, body, c).payload, body, chain);
      PieceOfPiece(DecodeTransport(header, body, c).payload, chain, data);
    }
  }

  lemma IpPiece(data: seq<byte>, ts: real, length: nat)
    ensures PieceOf(DecodeIp(data, ts, length).payload, data)
  {
    SliceIsPiece(data, 0, 0);
    Ipv4Piece(data, ts, length);
    Ipv6Piece(data, ts, length);
  }

  lemma LinkPiece(ethertype: u16, skip: nat, data: seq<byte>, ts: real, length: nat)
    requires skip <= |data|
    ensures PieceOf(DecodeIp(data[skip..], ts, length).payload, data)
    ensures PieceOf(DecodeEthertype(ethertype, data[skip..], ts, length).payload, data)
  {
    var rest := data[skip..];
    SliceIsPiece(data, skip, 0);
    assert rest == Drop(data, skip);
    IpPiece(rest, ts, length);
    PieceOfPiece(DecodeIp(rest, ts, length).payload, rest, data);
  }

  lemma EthernetPiece(data: seq<byte>, ts: real, length: nat)
    ensures PieceOf(DecodeEthernet(data, ts, length).payload, data)
  {
    SliceIsPiece(data, 0, 0);
    if |data| >= 14 {
      if U16(Big, data[12..14]) == ETHERTYPE_VLAN && |data| >= 18 {
        LinkPiece(U16(Big, data[16..18]), 18, data, ts, length);
      } else {
        LinkPiece(U16(Big, data[12..14]), 14, data, ts, length);
      }
    }
  }

  lemma LinuxSllPiece(data: seq<byte>, ts: real, length: nat)
    ensures PieceOf(DecodeLinuxSll(data, ts, length).payload, data)
  {
    SliceIsPiece(data, 0, 0);
    if |data| >= 16 {
      LinkPiece(U16(Big, data[14..16]), 16, data, ts, length);
    }
  }

  /** For every input and link type, the decoded payload is a contiguous slice of the frame. */
  lemma PayloadIsSlice(data: seq<byte>, linktype: nat, ts: real)
    ensures PieceOf(Decode(data, linktype, ts).payload, data)
  {
    if linktype == LINKTYPE_ETHERNET {
      EthernetPiece(data, ts, |data|);
    } else if linktype == LINKTYPE_LINUX_SLL {
      LinuxSllPiece(data, ts, |data|);
    } else if linktype == LINKTYPE_RAW {
      assert data[0..] == data;
      LinkPiece(0, 0, data, ts, |data|);
    } else {
      SliceIsPiece(data, 0, 0);
    }
  }

  // ---------------------------------------------------------------------------
  // Datagrams
  // ---------------------------------------------------------------------------

  /** A UDP datagram whose length field says `length`. */
  function Datagram(sport: u16, dport: u16, length: u16, checksum: u16, rest: seq<byte>): seq<byte> {
    Put16(Big, sport) + Put16(Big, dport) + Put16(Big, length) + Put16(Big, checksum) + rest
  }

  /** The ports come back, and the payload is cut at the length field exactly when that lies within
      the data; a length that is too small or too large leaves everything behind the header. */
  lemma DatagramDecoded(sport: u16, dport: u16, length: u16, checksum: u16, rest: seq<byte>, c: Context)
    ensures var p := DecodeTransport(17, Datagram(sport, dport, length, checksum, rest), c);
            && p.protocol == Udp && p.sport == Some(sport) && p.dport == Some(dport)
            && p.payload == if 8 <= length <= 8 + |rest| then rest[..length - 8] else rest
  {
    var data := Datagram(sport, dport, length, checksum, rest);
    Put16RoundTrip(Big, sport);
    Put16RoundTrip(Big, dport);
    Put16RoundTrip(Big, length);
    assert data[..2] == Put16(Big, sport) && data[2..4] == Put16(Big, dport) && data[4..6] == Put16(Big, length);
    assert data[8..] == rest;
  }

  // ---------------------------------------------------------------------------
  // Trailing padding
  // ---------------------------------------------------------------------------

  /** An IP packet that says how long it is and is all there. */
  predicate SelfSized(ip: seq<byte>) {
    || (|ip| >= 20 && ip[0] / 16 == 4 && 20 <= U16(Big, ip[2..4]) <= |ip|)
    || (|ip| >= 40 && ip[0] / 16 == 6 && 40 + U16(Big, ip[4..6]) <= |ip|)
  }

  lemma IpPadding(ip: seq<byte>, pad: seq<byte>, ts: real, length: nat)
    requires SelfSized(ip)
    ensures DecodeIp(ip + pad, ts, length) == DecodeIp(ip, ts, length)
  {
    var padded := ip + pad;
    assert padded[0] == ip[0] && padded[2..4] == ip[2..4] && padded[4..6] == ip[4..6];
    if ip[0] / 16 == 4 {
      var total := U16(Big, ip[2..4]);
      assert padded[12..16] == ip[12..16] && padded[16..20] == ip[16..20];
      assert Slice(padded, ip[0] % 16 * 4, total) == Slice(ip, ip[0] % 16 * 4, total);
    } else {
      var end := 40 + U16(Big, ip[4..6]);
      assert padded[8..24] == ip[8..24] && padded[24..40] == ip[24..40] && padded[40..end] == ip[40..end];
    }
  }

  /** The ethertype and the octets behind the Ethernet header, and behind a tag if there is one. */
  predicate Carries(frame: seq<byte>, ethertype: u16, body: seq<byte>) {
    && |frame| >= 14
    && if U16(Big, frame[12..14]) == ETHERTYPE_VLAN
       then |frame| >= 18 && ethertype == U16(Big, frame[16..18]) && body == frame[18..]
       else ethertype == U16(Big, frame[12..14]) && body == frame[14..]
  }

  /** What is carried is not IP of either version, or says how long it is and is all there. */
  predicate Settled(ethertype: u16, body: seq<byte>) {
    || (ethertype != ETHERTYPE_IPV4 && ethertype != ETHERTYPE_IPV6)
    || (body != [] && body[0] / 16 != 4 && body[0] / 16 != 6)
    || SelfSized(body)
  }

  lemma DecodeCarried(frame: seq<byte>, ethertype: u16, body: seq<byte>, length: nat, ts: real)
    requires Carries(frame, ethertype, body) && length == |frame|
    ensures Decode(frame, LINKTYPE_ETHERNET, ts) == DecodeEthertype(ethertype, body, ts, length)
  {
  }

  lemma CarriesPadded(frame: seq<byte>, ethertype: u16, body: seq<byte>, pad: seq<byte>)
    requires Carries(frame, ethertype, body)
    ensures Carries(frame + pad, ethertype, body + pad)
  {
    var padded := frame + pad;
    assert padded[12..14] == frame[12..14] && padded[14..] == frame[14..] + pad;
    if |frame| >= 18 {
      assert padded[16..18] == frame[16..18] && padded[18..] == frame[18..] + pad;
    }
  }

  lemma PaddedBody(ethertype: u16, body: seq<byte>, pad: seq<byte>, ts: real, a: nat, b: nat)
    requires Settled(ethertype, body)
    ensures DecodeEthertype(ethertype, body + pad, ts, b) == Resized(DecodeEthertype(ethertype, body, ts, a), b)
  {
    if SelfSized(body) {
      IpPadding(body, pad, ts, b);
      EthertypeResized(ethertype, body, ts, a, b);
    } else if body != [] {
      assert (body + pad)[0] == body[0];
    }
  }

  /** Padding changes nothing but the length, behind any Ethernet frame, tagged or not, whose payload is
      not IP, or is an IP packet of either version that says how long it is. */
  lemma PaddingInvisible(frame: seq<byte>, ethertype: u16, body: seq<byte>, pad: seq<byte>, ts: real)
    requires Carries(frame, ethertype, body) && Settled(ethertype, body)
    ensures Decode(frame + pad, LINKTYPE_ETHERNET, ts) == Resized(Decode(frame, LINKTYPE_ETHERNET, ts), |frame| + |pad|)
  {
    var length := |frame| + |pad|;
    CarriesPadded(frame, ethertype, body, pad);
    DecodeCarried(frame, ethertype, body, |frame|, ts);
    DecodeCarried(frame + pad, ethertype, body + pad, length, ts);
    PaddedBody(ethertype, body, pad, ts, |frame|, length);
  }

  // ---------------------------------------------------------------------------
  // One 802.1Q tag
  // ---------------------------------------------------------------------------

  function Tagged(frame: seq<byte>, tag: seq<byte>): seq<byte>
    requires |frame| >= 14 && |tag| == 2
  {
    frame[..12] + Put16(Big, 0x8100) + tag + frame[12..]
  }

  /** Not already a tagged frame carrying something other than another tag. */
  predicate TagTransparent(frame: seq<byte>)
    requires |frame| >= 14
  {
    U16(Big, frame[12..14]) == ETHERTYPE_VLAN && |frame| >= 18 ==> U16(Big, frame[16..18]) == ETHERTYPE_VLAN
  }

  lemma DecodeTagged(frame: seq<byte>, tag: seq<byte>, ts: real)
    requires |frame| >= 14 && |tag| == 2
    ensures Decode(Tagged(frame, tag), LINKTYPE_ETHERNET, ts)
         == DecodeEthertype(U16(Big, frame[12..14]), frame[14..], ts, |frame| + 4)
  {
    var t := Tagged(frame, tag);
    Put16RoundTrip(Big, ETHERTYPE_VLAN);
    assert t[12..14] == Put16(Big, ETHERTYPE_VLAN) && t[16..18] == frame[12..14] && t[18..] == frame[14..];
  }

  /** Inserting one tag into any Ethernet frame changes nothing but the length, exactly when the
      frame does not already carry a tag in front of an ordinary ethertype. */
  lemma TagInvisible(frame: seq<byte>, tag: seq<byte>, ts: real)
    requires |frame| >= 14 && |tag| == 2
    ensures Decode(Tagged(frame, tag), LINKTYPE_ETHERNET, ts) == Resized(Decode(frame, LINKTYPE_ETHERNET, ts), |frame| + 4)
       <==> TagTransparent(frame)
  {
    DecodeTagged(frame, tag, ts);
    var outer := U16(Big, frame[12..14]);
    EthertypeResized(outer, frame[14..], ts, |frame|, |frame| + 4);
    if outer == ETHERTYPE_VLAN && |frame| >= 18 {
      var inner := U16(Big, frame[16..18]);
      EthertypeLabel(inner, frame[18..], ts, |frame|);
    }
  }

  /** The label EtherType(VLAN) comes from the VLAN ethertype alone. */
  lemma EthertypeLabel(ethertype: u16, payload: seq<byte>, ts: real, length: nat)
    ensures DecodeEthertype(ethertype, payload, ts, length).protocol == EtherType(ETHERTYPE_VLAN)
       <==> ethertype == ETHERTYPE_VLAN
    ensures ethertype == ETHERTYPE_VLAN ==>
      DecodeEthertype(ethertype, payload, ts, length) == Bare(ts, length, EtherType(ETHERTYPE_VLAN), None)
  {
  }

  // ---------------------------------------------------------------------------
  // IPv6 extension headers
  // ---------------------------------------------------------------------------

  /** An extension header without its next-header octet. */
  datatype Ext = Variable(kind: byte, rest: seq<byte>) | Fragment(rest: seq<byte>)

  predicate WfExt(x: Ext) {
    match x
    case Variable(kind, rest) => kind in {0, 43, 51, 60} && |rest| % 8 == 6 && |rest| <= 2046
    case Fragment(rest) => |rest| == 7
  }

  predicate WfChain(xs: seq<Ext>) { forall k :: 0 <= k < |xs| ==> WfExt(xs[k]) }

  function KindOf(x: Ext): byte { if x.Variable? then x.kind else 44 }

  function ExtBytes(x: Ext, next: byte): (s: seq<byte>)
    requires WfExt(x)
    ensures |s| >= 8
  {
    if x.Variable? then [next, |x.rest| / 8] + x.rest else [next] + x.rest
  }

  /** The next-header value that starts the chain, and the octets of the chain and what it carries. */
  function Chain(xs: seq<Ext>, proto: byte, body: seq<byte>): (byte, seq<byte>)
    requires WfChain(xs)
  {
    if xs == [] then (proto, body)
    else
      var (next, rest) := Chain(xs[1..], proto, body);
      (KindOf(xs[0]), ExtBytes(xs[0], next) + rest)
  }

  predicate IsExtension(h: byte) { h in {0, 43, 44, 51, 60} }

  lemma WalkOne(n: nat, x: Ext, next: byte, rest: seq<byte>)
    requires WfExt(x) && n > 0
    ensures Walk(n, KindOf(x), ExtBytes(x, next) + rest) == Walk(n - 1, next, rest)
  {
    var bytes := ExtBytes(x, next);
    assert HeaderSize(KindOf(x), bytes + rest) == |bytes|;
    assert Drop(bytes + rest, |bytes|) == rest;
  }

  lemma {:induction false} WalkChain(n: nat, xs: seq<Ext>, proto: byte, body: seq<byte>)
    requires WfChain(xs) && !IsExtension(proto)
    ensures var (h, b) := Chain(xs, proto, body);
            Walk(n, h, b) == Chain(xs[Min(n, |xs|)..], proto, body)
  {
    if n > 0 && xs != [] {
      var (next, rest) := Chain(xs[1..], proto, body);
      WalkOne(n, xs[0], next, rest);
      WalkChain(n - 1, xs[1..], proto, body);
      assert xs[1..][Min(n - 1, |xs| - 1)..] == xs[Min(n, |xs|)..];
    } else {
      assert xs[Min(n, |xs|)..] == xs;
    }
  }

  /** A chain in front of a transport header is walked over exactly when it has at most 8 headers. */
  lemma ChainStripped(xs: seq<Ext>, proto: byte, body: seq<byte>)
    requires WfChain(xs) && !IsExtension(proto)
    ensures var (h, b) := Chain(xs, proto, body);
            Walk(WALK_LIMIT, h, b) == (proto, body) <==> |xs| <= 8
  {
    WalkChain(WALK_LIMIT, xs, proto, body);
    if |xs| > 8 {
      assert Chain(xs[8..], proto, body).0 == KindOf(xs[8]);
    } else {
      assert xs[Min(8, |xs|)..] == [];
    }
  }

  /** An IPv6 packet: version, class and flow label, hop limit, addresses, chain, transport. */
  function Ipv6Bytes(flow: seq<byte>, hops: byte, src: Address, dst: Address, xs: seq<Ext>, proto: byte, body: seq<byte>): seq<byte>
    requires WfChain(xs) && |flow| == 4 && |src| == |dst| == 16
    requires |Chain(xs, proto, body).1| < 0x1_0000
  {
    var (h, b) := Chain(xs, proto, body);
    flow + Put16(Big, |b|) + [h, hops] + src + dst + b
  }

  /** The transport decoder is given the same body as it would be without the chain. */
  lemma ChainInvisible(flow: seq<byte>, hops: byte, src: Address, dst: Address, xs: seq<Ext>, proto: byte,
                       body: seq<byte>, pad: seq<byte>, ts: real, length: nat)
    requires WfChain(xs) && |xs| <= 8 && !IsExtension(proto) && |flow| == 4 && flow[0] / 16 == 6 && |src| == |dst| == 16
    requires |Chain(xs, proto, body).1| < 0x1_0000
    ensures DecodeIp(Ipv6Bytes(flow, hops, src, dst, xs, proto, body) + pad, ts, length)
         == DecodeTransport(proto, body, Context(ts, length, src, dst, 6))
  {
    var (h, b) := Chain(xs, proto, body);
    var head := flow + Put16(Big, |b|) + [h, hops] + src + dst;
    var data := head + b + pad;
    Put16RoundTrip(Big, |b|);
    assert |head| == 40 && head[0] == flow[0] && head[6] == h;
    assert head[4..6] == Put16(Big, |b|) && head[8..24] == src && head[24..40] == dst;
    assert data[..40] == head;
    assert data[4..6] == head[4..6] && data[8..24] == head[8..24] && data[24..40] == head[24..40];
    assert data[40..40 + |b|] == b;
    ChainStripped(xs, proto, body);
  }
}
