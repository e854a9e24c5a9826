/** The packets of a pcapng file one by one, each in terms of the blocks written before it. */
module PcapNgPackets {
  import opened Wrappers
  import opened Bytes
  import opened PcapReader
  import opened PcapNgRoundTrip

  // ---------------------------------------------------------------------------
  // Counting blocks
  // ---------------------------------------------------------------------------

  predicate IsPacket(b: Block) { b.EpbBlock? || b.PbBlock? || b.SpbBlock? }

  /** Interface blocks among the first k blocks. */
  function InterfacesBefore(bs: seq<Block>, k: nat): nat
    requires k <= |bs|
  {
    if k == 0 then 0 else InterfacesBefore(bs, k - 1) + if bs[k - 1].IdbBlock? then 1 else 0
  }

  /** Packet blocks among the first k blocks. */
  function PacketsBefore(bs: seq<Block>, k: nat): nat
    requires k <= |bs|
  {
    if k == 0 then 0 else PacketsBefore(bs, k - 1) + if IsPacket(bs[k - 1]) then 1 else 0
  }

  /** Packet blocks in the first j sections. */
  function PacketsBeforeSection(ss: seq<Section>, j: nat): nat
    requires j <= |ss|
  {
    if j == 0 then 0 else PacketsBeforeSection(ss, j - 1) + PacketsBefore(ss[j - 1].blocks, |ss[j - 1].blocks|)
  }

  /** Block q is an interface block with that many before it in the section. */
  predicate IsInterface(bs: seq<Block>, q: nat, index: nat) {
    q < |bs| && bs[q].IdbBlock? && InterfacesBefore(bs, q) == index
  }

  // ---------------------------------------------------------------------------
  // What a packet block says
  // ---------------------------------------------------------------------------

  /** The record is of this linktype, and its time is a whole number of these ticks. */
  predicate Stamped(r: Record, linktype: nat, ticks: nat, high: u32, low: u32) {
    r.linktype == linktype && r.ts * ticks as real == (high * 0x1_0000_0000 + low) as real
  }

  /** The record of a packet block at k that names an interface: with the linktype and clock of the
      interface block so numbered before it in its section, or of Ethernet in microseconds when there are
      not that many. */
  ghost predicate Named(bs: seq<Block>, k: nat, index: nat, high: u32, low: u32, r: Record)
    requires k <= |bs|
  {
    if index < InterfacesBefore(bs, k)
    then exists q: nat :: q < k && IsInterface(bs, q, index) && Stamped(r, bs[q].linktype, AnnouncedTicks(bs[q].options), high, low)
    else Stamped(r, 1, 1000000, high, low)
  }

  /** What a packet block at k is read as. */
  ghost predicate ReadAs(bs: seq<Block>, k: nat, r: Record)
    requires k < |bs| && IsPacket(bs[k])
  {
    match bs[k]
    case EpbBlock(index, high, low, _, frame, _) => r.frame == frame && Named(bs, k, index, high, low, r)
    case PbBlock(index, _, high, low, _, frame, _) => r.frame == frame && Named(bs, k, index, high, low, r)
    case SpbBlock(_, frame) => r.frame == Padded(frame) && r.ts == 0.0 && Named(bs, k, 0, 0, 0, r)
  }

  // ---------------------------------------------------------------------------
  // The interface table
  // ---------------------------------------------------------------------------

  lemma {:induction false} DeclaredTable(bs: seq<Block>, k: nat)
    requires k <= |bs|
    ensures |Declared(bs[..k])| == InterfacesBefore(bs, k)
  {
    if k > 0 {
      DeclaredTable(bs, k - 1);
      assert bs[..k][..k - 1] == bs[..k - 1];
    }
  }

  lemma {:induction false} DeclaredAt(bs: seq<Block>, k: nat, index: nat) returns (q: nat)
    requires k <= |bs| && index < InterfacesBefore(bs, k)
    ensures q < k && IsInterface(bs, q, index) && |Declared(bs[..k])| == InterfacesBefore(bs, k)
    ensures Declared(bs[..k])[index] == Iface(bs[q].linktype, Announced(bs[q].options))
  {
    DeclaredTable(bs, k);
    DeclaredTable(bs, k - 1);
    assert bs[..k][..k - 1] == bs[..k - 1];
    if index < InterfacesBefore(bs, k - 1) {
      q := DeclaredAt(bs, k - 1, index);
    } else {
      q := k - 1;
    }
  }

  lemma Divided(n: int, ticks: nat, divisor: real)
    requires ticks > 0 && divisor == ticks as real
    ensures n as real / divisor * ticks as real == n as real
  {
  }

  lemma NamedInterface(bs: seq<Block>, k: nat, index: nat, high: u32, low: u32, r: Record)
    requires k <= |bs|
    requires r.linktype == Interface(Declared(bs[..k]), index).linktype
    requires r.ts == Timestamp(high, low, Interface(Declared(bs[..k]), index).divisor)
    ensures Named(bs, k, index, high, low, r)
  {
    DeclaredTable(bs, k);
    if index < InterfacesBefore(bs, k) {
      var q := DeclaredAt(bs, k, index);
      TicksPositive(bs[q].options);
      Divided(high * 0x1_0000_0000 + low, AnnouncedTicks(bs[q].options), Announced(bs[q].options));
    } else {
      Divided(high * 0x1_0000_0000 + low, 1000000, MICROS);
    }
  }

  lemma ZeroTime(divisor: real)
    requires divisor > 0.0
    ensures Timestamp(0, 0, divisor) == 0.0
  {
  }

  lemma BlockReadAs(bs: seq<Block>, k: nat)
    requires k < |bs| && IsPacket(bs[k])
    ensures |PacketsOf(bs[k], Declared(bs[..k]))| == 1 && ReadAs(bs, k, PacketsOf(bs[k], Declared(bs[..k]))[0])
  {
    var table := Declared(bs[..k]);
    var r := PacketsOf(bs[k], table)[0];
    match bs[k]
    case EpbBlock(index, high, low, _, _, _) => NamedInterface(bs, k, index, high, low, r);
    case PbBlock(index, _, high, low, _, _, _) => NamedInterface(bs, k, index, high, low, r);
    case SpbBlock(_, _) =>
      ZeroTime(Interface(table, 0).divisor);
      NamedInterface(bs, k, 0, 0, 0, r);
  }

  // ---------------------------------------------------------------------------
  // The place of a packet
  // ---------------------------------------------------------------------------

  lemma OnePerPacket(b: Block, table: seq<Iface>)
    requires ValidIfaces(table)
    ensures |PacketsOf(b, table)| == if IsPacket(b) then 1 else 0
  {
  }

  lemma PacketsMore(bs: seq<Block>, k: nat, here: seq<Record>, rest: seq<Record>)
    requires k < |bs| && here == PacketsOf(bs[k], Declared(bs[..k])) && rest == PacketsFrom(bs, k + 1)
    ensures PacketsFrom(bs, k) == here + rest && PacketsBefore(bs, k + 1) == PacketsBefore(bs, k) + |here|
  {
    OnePerPacket(bs[k], Declared(bs[..k]));
  }

  lemma {:induction false} PacketsCounted(bs: seq<Block>, k: nat)
    requires k <= |bs|
    ensures |PacketsFrom(bs, k)| == PacketsBefore(bs, |bs|) - PacketsBefore(bs, k)
    decreases |bs| - k
  {
    if k < |bs| {
      PacketsCounted(bs, k + 1);
      PacketsMore(bs, k, PacketsOf(bs[k], Declared(bs[..k])), PacketsFrom(bs, k + 1));
    }
  }

  lemma {:induction false} PacketPlace(bs: seq<Block>, m: nat, k: nat) returns (r: Record)
    requires m <= k < |bs| && IsPacket(bs[k])
    ensures PacketsBefore(bs, m) <= PacketsBefore(bs, k) < PacketsBefore(bs, m) + |PacketsFrom(bs, m)|
    ensures r == PacketsFrom(bs, m)[PacketsBefore(bs, k) - PacketsBefore(bs, m)] && ReadAs(bs, k, r)
    decreases k - m
  {
    var here := PacketsOf(bs[m], Declared(bs[..m]));
    if m == k {
      BlockReadAs(bs, k);
      r := here[0];
    } else {
      r := PacketPlace(bs, m + 1, k);
      PacketsMore(bs, m, here, PacketsFrom(bs, m + 1));
      AtBehind(here, PacketsFrom(bs, m + 1), PacketsBefore(bs, k) - PacketsBefore(bs, m + 1));
    }
  }

  lemma AtBehind(a: seq<Record>, b: seq<Record>, n: nat)
    requires n < |b|
    ensures (a + b)[|a| + n] == b[n]
  {
  }

  lemma SectionMore(ss: seq<Section>, j: nat, first: seq<Record>, rest: seq<Record>, before: nat)
    requires 0 < j <= |ss| && first == PacketsFrom(ss[0].blocks, 0) && rest == Packets(ss[1..])
    requires before == PacketsBeforeSection(ss[1..], j - 1)
    ensures Packets(ss) == first + rest && PacketsBeforeSection(ss, j) == |first| + before
  {
    SectionShift(ss, j);
    PacketsCounted(ss[0].blocks, 0);
  }

  lemma {:induction false} SectionPlace(ss: seq<Section>, j: nat, m: nat)
    requires j < |ss| && m < |PacketsFrom(ss[j].blocks, 0)|
    ensures var n := PacketsBeforeSection(ss, j) + m;
            n < |Packets(ss)| && Packets(ss)[n] == PacketsFrom(ss[j].blocks, 0)[m]
  {
    if j > 0 {
      var first, rest, before := PacketsFrom(ss[0].blocks, 0), Packets(ss[1..]), PacketsBeforeSection(ss[1..], j - 1);
      SectionPlace(ss[1..], j - 1, m);
      SectionMore(ss, j, first, rest, before);
      AtBehind(first, rest, before + m);
    }
  }

  lemma {:induction false} SectionShift(ss: seq<Section>, j: nat)
    requires 0 < j <= |ss|
    ensures PacketsBeforeSection(ss, j) == PacketsBefore(ss[0].blocks, |ss[0].blocks|) + PacketsBeforeSection(ss[1..], j - 1)
  {
    if j > 1 {
      SectionShift(ss, j - 1);
    }
  }

  lemma {:induction false} AllPackets(ss: seq<Section>)
    ensures |Packets(ss)| == PacketsBeforeSection(ss, |ss|)
  {
    if ss != [] {
      AllPackets(ss[1..]);
      PacketsCounted(ss[0].blocks, 0);
      SectionShift(ss, |ss|);
    }
  }

  lemma PacketInFile(ss: seq<Section>, j: nat, bs: seq<Block>, k: nat, n: nat) returns (r: Record)
    requires j < |ss| && bs == ss[j].blocks && k < |bs| && IsPacket(bs[k])
    requires n == PacketsBeforeSection(ss, j) + PacketsBefore(bs, k)
    ensures n < |Packets(ss)| && r == Packets(ss)[n] && ReadAs(bs, k, r)
  {
    r := PacketPlace(bs, 0, k);
    SectionPlace(ss, j, PacketsBefore(bs, k));
  }

  lemma PacketReadBack(ss: seq<Section>, j: nat, bs: seq<Block>, k: nat, n: nat, stream: Stream)
    requires (forall s :: s in ss ==> WfSection(s)) && stream == Capture(EncodeFile(ss))
    requires j < |ss| && bs == ss[j].blocks && k < |bs| && IsPacket(bs[k])
    requires n == PacketsBeforeSection(ss, j) + PacketsBefore(bs, k)
    ensures stream == Stream(Packets(ss), Ended) && n < |stream.records| && ReadAs(bs, k, stream.records[n])
  {
    NgRoundTrip(ss);
    var r := PacketInFile(ss, j, bs, k, n);
  }

  /** Reading back any sections gives one record for every packet block and nothing else, in order, and the
      record of a block has the linktype and clock of the interface block it names: the one so numbered,
      from 0, among the interface blocks before it in its own section. */
  lemma EveryPacketBlock(ss: seq<Section>, j: nat, k: nat)
    requires (forall s :: s in ss ==> WfSection(s)) && j < |ss|
    requires k < |ss[j].blocks| && IsPacket(ss[j].blocks[k])
    ensures var stream, n := Capture(EncodeFile(ss)), PacketsBeforeSection(ss, j) + PacketsBefore(ss[j].blocks, k);
            && |stream.records| == PacketsBeforeSection(ss, |ss|) && stream.stop == Ended
            && n < |stream.records| && ReadAs(ss[j].blocks, k, stream.records[n])
  {
    AllPackets(ss);
    PacketReadBack(ss, j, ss[j].blocks, k, PacketsBeforeSection(ss, j) + PacketsBefore(ss[j].blocks, k), Capture(EncodeFile(ss)));
  }
}
