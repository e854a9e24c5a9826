# A verified model of pyscan

pyscan is a network scanner with an intrusion detector for industrial control networks. This project
models its four connected cores in Dafny and proves what they promise, for all inputs, all runs and all
schedules.

**Capture files** (`PcapReader`, `PcapTruncation`, `PcapNgRoundTrip`, `PcapNgPackets`, `PcapClassic`,
`PcapWriter`). The reader is a file-handle class and the loops over it, proved to refine a recursive
meaning of every byte string: the records yielded and how the generator stops or raises. Truncation,
the pcapng round trip over sections in mixed byte orders, the four classic variants and the write-read
round trip are theorems about that meaning.

**Frames and payloads** (`Bytes`, `Packet`, `PacketTheorems`, `PacketLayers`, `Checksum`, `OtTraffic`,
`TrafficRoundTrip`, `Dnp3`, `Iec104`, `Modbus`, `S7comm`). Decoders are functions, their loops are
methods. Ones'-complement sums are handled modulo 65535, the DNP3 CRC as a linear, invertible map on
16-bit vectors.

**Detection** (`OtDetect`, `DetectorTheorems`, `DetectorPorts`, `BaselineTheorems`, `SeverityTheorems`,
`Monitor`). `Detector` is a class that updates its five fields in place; each method is tied to a pure
step, and the theorems are about whole runs of it. `Monitor` joins everything: what the capture path
finds is what feeding the packets directly finds.

**Scanning** (`Rate`, `Probing`, `Pacing`, `Schedules`, `LaunchWindows`, `PunctualLaunches`,
`ScanService`, `SweepService`, `SweepReports`). A group of tasks is a step system: each task waits for
a slot, sleeps until it opens, queues for a permit, probes, and perhaps starts over. Which task moves
next and how much time passes is arbitrary; what a probe answers, and which hosts are up, comes from an
oracle. A sweep nests such groups under a second semaphore, with one gate for all. Time is real-valued.

Meanings are stated twice over: once as the functions the loops and classes refine, and once, in
`PcapNgPackets`, `PcapClassic`, `PacketLayers`, `DetectorPorts`, `ScanService.ScanReports` and
`SweepReports`, in terms of what goes in and comes out alone: octets, port numbers, answers.

How to read the parts where the code is narrower than the obvious claim:

- A Simple Packet Block hands back its padding (`pcap_reader.py` lines 128-131), so only frames whose
  length is a multiple of four survive one.
- An if_tsresol option whose value lies past the end of the block raises IndexError (lines 177-180);
  the model has that as an error of its own.
- Extension header 51 is skipped by the 8-octet rule (`packet.py` line 30), not by the 4-octet rule of
  section 2.2 of RFC 4302. The model follows the code.
- Decoded flags come out in table order: a segment sent with PA is reported as AP.
- The docstring of `Detector` calls its state one set; the code updates five fields, and the model has
  all five.
- `modbus.parse_response` takes a transaction id and ignores it.
- The pacer spaces slots, not launches. A task that has slept takes a free permit and probes without
  suspending, so its launch comes after its slot only when the sleep ends late or every permit is in
  use. Launches therefore obey a bound on their number since the start under every schedule, and one
  for every window only under conditions: `LaunchWindows.WindowBoundExactly` has them for sleeps that
  may end late, `PunctualLaunches.PunctualBoundExactly` for sleeps that end on time, and
  `PunctualWindowBound` and `PromptWindowBound` say how far a known delay widens the bound.
- `encode_frame` takes addresses of one or more parts. The TCP checksum it fills in then works out
  exactly as `TrafficRoundTrip.TcpChecksumValid` says: always between IPv4 addresses, and when the two
  addresses have an odd number of octets together, only if 257 divides the sum.
- `write_pcap` raises on times that do not round into 32 bits of seconds since the epoch;
  `PcapWriter.PackExactly` has the range.
- One `is_up` call takes one slot, however many sockets it opens, so the rate bound is per `is_up` or
  `scan_port` call.
- With no station in charge in the baseline, naming a first one can raise severities; trusting more
  stations only softens findings exactly when some station was trusted before, or none is now.

Conventions: octets are integers from 0 to 255; an address is its octets, however many, standing for
the text Python prints it as; Python slices that run past the end are `Take`, `Drop` and `Slice`; an
exception is an error value or an empty option. Timestamps, divisors, rates and clocks are reals.

## Model

| member | source | states |
|---|---|---|
| `PcapReader.FileReader.Read` | src/pyscan/adapters/capture/pcap_reader.py:50-50 | a read returns the next n octets, fewer only at the end of the file, and moves past exactly those |
| `PcapReader.TimestampDivisor` | src/pyscan/adapters/capture/pcap_reader.py:166-182 | the loop over option offsets finds what the option list means: the first usable if_tsresol before an end marker, else microseconds; None is the IndexError of a cut-off value |
| `PcapReader.ParseIdb` | src/pyscan/adapters/capture/pcap_reader.py:158-163 | a short body is Ethernet in microseconds, any other gives its linktype and the divisor of its options |
| `PcapReader.NextRecord` | src/pyscan/adapters/capture/pcap_reader.py:76-85 | one turn of the classic loop: a clean end, an implausible length, a truncated frame or one record, and the handle moved past exactly that record |
| `PcapReader.ReadClassic` | src/pyscan/adapters/capture/pcap_reader.py:64-85 | the loop over the handle yields and stops as the recursive meaning of the file says, from the global header on |
| `PcapReader.ReadShbHeader` | src/pyscan/adapters/capture/pcap_reader.py:140-155 | the magic pins the byte order, each error is the one the section header of the whole file calls for, and the handle is left behind the magic |
| `PcapReader.NextSection` | src/pyscan/adapters/capture/pcap_reader.py:104-113 | a section header gives a new byte order and an empty interface table and is skipped whole, trailing length included |
| `PcapReader.NextBlock` | src/pyscan/adapters/capture/pcap_reader.py:99-137 | one turn of the pcapng loop is one block step, and the handle has moved past exactly that block |
| `PcapReader.ReadPcapng` | src/pyscan/adapters/capture/pcap_reader.py:91-137 | the stateful loop refines the recursive meaning: same records in the same order, same stop, whatever the octets |
| `PcapReader.ReadPcap` | src/pyscan/adapters/capture/pcap_reader.py:43-58 | the whole generator, for every byte string: records yielded and how it stops or raises |
| `PcapTruncation.RecordStepPrefix` | src/pyscan/adapters/capture/pcap_reader.py:75-85 | a classic record read from a prefix is the record read from the whole |
| `PcapTruncation.BlockStepPrefix` | src/pyscan/adapters/capture/pcap_reader.py:98-137 | a block read from a prefix is the block read from the whole, in every state |
| `PcapTruncation.ClassicCut` | src/pyscan/adapters/capture/pcap_reader.py:75-85 | cutting a run of classic records yields a prefix of them |
| `PcapTruncation.NgCut` | src/pyscan/adapters/capture/pcap_reader.py:98-137 | cutting a run of pcapng blocks yields a prefix of their packets, from every reader state |
| `PcapTruncation.TruncationYieldsPrefix` | src/pyscan/adapters/capture/pcap_reader.py:43-137 | for every byte string, valid or not, and every cut, in both formats: the records before the stop are a prefix of those of the whole file, and an exception other than missing octets is raised by the whole file at the same record |
| `PcapNgRoundTrip.OptionsRoundTrip` | src/pyscan/adapters/capture/pcap_reader.py:166-182 | for every list of options the reader's divisor is the one the first deciding option announces |
| `PcapNgRoundTrip.CutResolution` | src/pyscan/adapters/capture/pcap_reader.py:166-182 | for every octet string, reading it as options raises IndexError if and only if it is whole options, padded with anything and none of which settles the clock, and then a clock option cut off right behind its header |
| `PcapNgRoundTrip.IdbBody` | src/pyscan/adapters/capture/pcap_reader.py:158-163 | an encoded interface block gives back its linktype and announced clock |
| `PcapNgRoundTrip.EpbBody` | src/pyscan/adapters/capture/pcap_reader.py:185-195 | an encoded enhanced packet gives back its frame, with the linktype and clock of the interface it names, or the default one |
| `PcapNgRoundTrip.PbBody` | src/pyscan/adapters/capture/pcap_reader.py:198-210 | the same for an obsolete packet block and its 16-bit interface field |
| `PcapNgRoundTrip.ShortBodies` | src/pyscan/adapters/capture/pcap_reader.py:158-210 | a packet body short of its fixed octets or of its captured length gives no record; an interface body short of eight octets is Ethernet in microseconds |
| `PcapNgRoundTrip.BlockRoundTrip` | src/pyscan/adapters/capture/pcap_reader.py:115-137 | any encoded block in front of anything is consumed whole and yields exactly its packets |
| `PcapNgRoundTrip.UnknownBlockInvisible` | src/pyscan/adapters/capture/pcap_reader.py:136-137 | inserting a block of unknown type anywhere a block may start changes nothing |
| `PcapNgRoundTrip.BlocksRoundTrip` | src/pyscan/adapters/capture/pcap_reader.py:98-137 | the blocks of a section, from any of them on, yield the packets each names, against the interfaces declared before it |
| `PcapNgRoundTrip.SectionTypeIsPalindrome` | src/pyscan/adapters/capture/pcap_reader.py:102-104 | the section-header type reads the same whichever order the reader is still in |
| `PcapNgRoundTrip.MagicTellsOrder` | src/pyscan/adapters/capture/pcap_reader.py:149-151 | the byte-order magic does not, so it tells the two apart |
| `PcapNgRoundTrip.SectionsRoundTrip` | src/pyscan/adapters/capture/pcap_reader.py:98-137 | from any reader state, encoded sections yield their packets and end cleanly |
| `PcapNgRoundTrip.NgRoundTrip` | src/pyscan/adapters/capture/pcap_reader.py:91-216 | reading any list of sections, each in its own byte order, yields exactly the packets encoded, in order, each with the linktype and clock of the interface it names in its own section |
| `PcapNgRoundTrip.SimplePacketExact` | src/pyscan/adapters/capture/pcap_reader.py:128-131 | a Simple Packet Block returns its frame if and only if the length is a multiple of four: the reader keeps the padding |
| `PcapNgRoundTrip.ResolutionTicks` | src/pyscan/adapters/capture/pcap_reader.py:166-182 | the divisor of an if_tsresol octet is a power of ten, or with the high bit set a power of two |
| `PcapNgPackets.EveryPacketBlock` | src/pyscan/adapters/capture/pcap_reader.py:98-216 | reading back any sections yields one record for every packet block and nothing else; the record has its frame, and the linktype and clock of the interface block it names, counted from 0 among those before it in its own section, or Ethernet in microseconds when there are not that many; time times ticks is the 64-bit count |
| `PcapClassic.MagicTells` | src/pyscan/adapters/capture/pcap_reader.py:61-64 | the magic numbers tell byte order and resolution in all four variants |
| `PcapClassic.VariantRoundTrip` | src/pyscan/adapters/capture/pcap_reader.py:61-85 | a file in either byte order and either resolution is read back entry for entry, each with the linktype of the file and its time in the file's own ticks, up to the first over 64 MiB, where it raises |
| `PcapWriter.RoundNear` | src/pyscan/adapters/capture/pcap_writer.py:37-37 | rounding moves a number by at most one half |
| `PcapWriter.RoundTie` | src/pyscan/adapters/capture/pcap_writer.py:37-37 | half-way between two integers the even one is taken |
| `PcapWriter.MicrosInRange` | src/pyscan/adapters/capture/pcap_writer.py:36-40 | thanks to the carry the microsecond field is below 1000000, and at or after the epoch it is not negative |
| `PcapWriter.StampNear` | src/pyscan/adapters/capture/pcap_writer.py:36-40 | the time recorded is within half a microsecond of the original, over the reals |
| `PcapWriter.StampExact` | src/pyscan/adapters/capture/pcap_writer.py:36-40 | whole microseconds are recorded exactly |
| `PcapWriter.WriteRecord` | src/pyscan/adapters/capture/pcap_writer.py:36-42 | one record is appended with its carried time, or nothing where a field does not fit 32 bits |
| `PcapWriter.WritePcap` | src/pyscan/adapters/capture/pcap_writer.py:21-44 | the file left behind, and the count returned, for every list of frames, including one that raises half way |
| `PcapWriter.RecordsRoundTrip` | src/pyscan/adapters/capture/pcap_reader.py:75-85 | reading written records gives them back up to the first over the reader's size cap, where it raises |
| `PcapWriter.WriteReadRoundTrip` | src/pyscan/adapters/capture/pcap_writer.py:30-44 | the whole file, read back through the format detection: every packed frame with its octets, linktype and recorded time |
| `PcapWriter.FramesSurvive` | src/pyscan/adapters/capture/pcap_writer.py:30-44 | record k of the file read back is frame k: same octets, the linktype, the recorded time, within half a microsecond |
| `PcapWriter.PackExactly` | src/pyscan/adapters/capture/pcap_writer.py:36-41 | a record can be packed if and only if its time lies from half a microsecond before the epoch up to half a microsecond before the end of the last 32-bit second, and its length fits |
| `PcapWriter.RoundTripExact` | src/pyscan/adapters/capture/pcap_writer.py:30-44 | all frames come back if and only if every time is in that range and no frame is over the reader's cap; reading then ends cleanly |
| `PcapWriter.BeforeEpochFails` | src/pyscan/adapters/capture/pcap_writer.py:36-41 | a frame a second before the epoch: refused, and nothing comes back |
| `PcapWriter.HeaderLayout` | src/pyscan/adapters/capture/pcap_writer.py:30-33 | the octets of the global header: the magic of little-endian microseconds, version 2.4, snapshot length 65535, the linktype |
| `PcapWriter.RecordLayout` | src/pyscan/adapters/capture/pcap_writer.py:41-42 | the octets of a record: both lengths are that of the frame |
| `Packet.SkipV6Extensions` | src/pyscan/domain/packet.py:128-138 | the bounded loop is the recursive walk over at most eight extension headers |
| `PacketTheorems.PayloadIsSlice` | src/pyscan/domain/packet.py:50-193 | for every input and link type the payload is one contiguous slice of the frame |
| `PacketTheorems.WalkPiece` | src/pyscan/domain/packet.py:128-138 | whatever the walk is given, what it hands on is a piece of it |
| `PacketTheorems.IpPadding` | src/pyscan/domain/packet.py:103-125 | octets behind an IP packet that states its own length change nothing |
| `PacketTheorems.PaddingInvisible` | src/pyscan/domain/packet.py:64-114 | padding behind an Ethernet frame, tagged or not, changes nothing but the length, when what it carries is not IP or is an IP packet of either version that states its own length |
| `PacketTheorems.TagInvisible` | src/pyscan/domain/packet.py:64-72 | inserting one 802.1Q tag changes nothing but the length, if and only if the frame was not already a tag in front of an ordinary ethertype |
| `PacketTheorems.WalkChain` | src/pyscan/domain/packet.py:128-138 | walking n headers of a chain leaves the chain without its first n headers |
| `PacketTheorems.ChainStripped` | src/pyscan/domain/packet.py:128-138 | a chain in front of a transport header is stripped exactly if and only if it has at most eight headers |
| `PacketTheorems.ChainInvisible` | src/pyscan/domain/packet.py:117-138 | an IPv6 packet with up to eight extension headers decodes to the same transport packet as without them, padding or not |
| `PacketTheorems.DatagramDecoded` | src/pyscan/domain/packet.py:170-178 | a datagram's ports come back, and its payload is cut at the length field exactly when that lies within the data |
| `PacketLayers.LinksAgree` | src/pyscan/domain/packet.py:50-87 | an IP packet decodes to the same packet on every link, raw, Ethernet, tagged Ethernet and Linux cooked capture, and under both ethertypes, but for the length of the frame |
| `PacketLayers.OtherTypes` | src/pyscan/domain/packet.py:64-87 | any other ethertype is named and not looked into, ARP by name, on every link alike |
| `PacketLayers.NothingRead` | src/pyscan/domain/packet.py:50-125 | where the link or version is unknown, or a header is not all there, nothing is read |
| `PacketLayers.Ipv4Decoded` | src/pyscan/domain/packet.py:103-114 | an IPv4 header with any options hands the transport decoder the octets its total length leaves, or all of them where that cannot be right, with its addresses |
| `PacketLayers.Ipv6Decoded` | src/pyscan/domain/packet.py:117-125 | an IPv6 header hands the walk the octets its payload length leaves, or all there are, with its addresses |
| `PacketLayers.TcpDecoded` | src/pyscan/domain/packet.py:154-167 | a TCP header with any options: ports and flags come back, and the payload is what follows the options |
| `PacketLayers.IcmpDecoded` | src/pyscan/domain/packet.py:181-193 | both kinds of ICMP are handed on without their first four octets |
| `PacketLayers.OtherTransports` | src/pyscan/domain/packet.py:141-193 | other protocol numbers are named and not looked into, nor are transport headers that are not all there |
| `PacketLayers.FlagTextExact` | src/pyscan/domain/packet.py:160-160 | the flag text has exactly the letters whose bits are set, in table order, or is a dot |
| `Checksum.FoldFits` | src/pyscan/domain/ot_traffic.py:192-193 | the carry loop ends below 65536 |
| `Checksum.FoldKeepsResidue` | src/pyscan/domain/ot_traffic.py:192-193 | folding keeps the sum modulo 65535 and reaches 0 only from 0 |
| `Checksum.Checksum` | src/pyscan/domain/ot_traffic.py:188-194 | the loop computes the ones'-complement checksum of the padded words |
| `Checksum.ChecksumCompletes` | src/pyscan/domain/ot_traffic.py:188-194 | the checksum of any octets, odd or even in number, is the number that brings their sum, those at even places weighed by 256, to a multiple of 65535; it is 65535 only of zeros |
| `Checksum.FilledChecksumIsZero` | src/pyscan/domain/ot_traffic.py:188-194 | writing a checksum into its own zeroed field at any even offset of any data makes the checksum of the result 0 |
| `Checksum.OddOffsetExact` | src/pyscan/domain/ot_traffic.py:188-194 | at any odd offset of any data the result is 0 if and only if 257 divides the sum the checksum was computed from |
| `OtTraffic.EncodeFrame` | src/pyscan/domain/ot_traffic.py:142-185 | encoding succeeds if and only if both ports fit 16 bits, both addresses have at least one part and only octets, and the packet fits 65535 octets; which exception it is otherwise |
| `TrafficRoundTrip.SegmentLayout` | src/pyscan/domain/ot_traffic.py:156-168 | every octet of a segment around its checksum |
| `TrafficRoundTrip.IpLayout` | src/pyscan/domain/ot_traffic.py:171-177 | every octet of an IPv4 header around its checksum |
| `TrafficRoundTrip.FrameLayout` | src/pyscan/domain/ot_traffic.py:142-153 | a frame is two made-up hardware addresses, the type of IPv4, that header and that segment |
| `TrafficRoundTrip.IpChecksumValid` | src/pyscan/domain/ot_traffic.py:171-177 | the checksum recomputed over the filled IPv4 header is 0 |
| `TrafficRoundTrip.TcpChecksumValid` | src/pyscan/domain/ot_traffic.py:156-168 | the receiver's test over its own pseudo-header, written out octet by octet, and the filled segment passes, for every payload, odd or even, if and only if the two addresses have an even number of octets together or 257 divides the sum |
| `TrafficRoundTrip.OddAddressesFail` | src/pyscan/domain/ot_traffic.py:156-185 | for every exchange between addresses with an odd number of octets together that encodes, the receiver's test fails for it or for the one to the next port |
| `TrafficRoundTrip.ThreePartAddressFails` | src/pyscan/domain/ot_traffic.py:156-185 | an exchange with a three-part source address that encodes and whose receiver's test fails |
| `TrafficRoundTrip.DecodeSegment` | src/pyscan/domain/ot_traffic.py:156-168 | the TCP decoder gives back ports, flag text and payload of every segment built |
| `TrafficRoundTrip.DecodeUndoesEncode` | src/pyscan/domain/ot_traffic.py:142-185 | for every exchange that encodes, decoding recovers addresses, ports and payload if and only if both addresses have four octets; then the whole packet is determined |
| `TrafficRoundTrip.EncodedFrameRobust` | src/pyscan/domain/packet.py:64-114 | padding behind an encoded frame, or one 802.1Q tag in it, changes only the length recorded |
| `TrafficRoundTrip.FlagLettersSurvive` | src/pyscan/domain/ot_traffic.py:157-157 | known flag combinations come back as the same set of letters in table order, unknown ones as PSH and ACK; the text itself comes back if and only if it is S, SA, A or AP |
| `OtTraffic.IFrameLayout` | src/pyscan/domain/ot_traffic.py:72-80 | every octet of a built I-frame, or the ValueError of a payload that does not fit the length octet |
| `Dnp3.BranchIsMask` | src/pyscan/domain/udp_probes.py:19-19 | the branching bit step equals its mask form |
| `Dnp3.Octet` | src/pyscan/domain/udp_probes.py:18-19 | the inner loop is eight bit steps |
| `Dnp3.Crc` | src/pyscan/domain/udp_probes.py:14-20 | the nested loop computes the complemented register of the data |
| `Dnp3.Shift8Linear` | src/pyscan/domain/udp_probes.py:18-19 | an octet of bit steps is linear over GF(2) |
| `Dnp3.Shift8Injective` | src/pyscan/domain/udp_probes.py:18-19 | and invertible |
| `Dnp3.RegisterInjective` | src/pyscan/domain/udp_probes.py:16-19 | different registers stay different over the same octets |
| `Dnp3.TrailerResidue` | src/pyscan/domain/udp_probes.py:23-27 | a register fed the two octets of its complement, low first, always ends in one value |
| `Dnp3.AppendedCrcResidue` | src/pyscan/domain/udp_probes.py:14-27 | appending the two CRC octets to any data gives one fixed CRC, independent of the data |
| `Dnp3.CheckValue` | src/pyscan/domain/udp_probes.py:14-20 | the check value of CRC-16/DNP: the nine digits give 0xEA82 |
| `Dnp3.CrcAdditive` | src/pyscan/domain/udp_probes.py:14-20 | the CRC of two superposed messages of any one length is the superposition of their CRCs, complemented |
| `Dnp3.LinkStatusOctets` | src/pyscan/domain/udp_probes.py:23-27 | the ten octets of the Request Link Status probe |
| `Dnp3.LinkStatusValid` | src/pyscan/domain/udp_probes.py:23-27 | the Request Link Status probe is such a message |
| `Dnp3.BurstErrorsDetected` | src/pyscan/domain/udp_probes.py:14-20 | two different messages of one length, any length, whose differing bits lie within 16 consecutive ones, in the order the register takes them, have different CRCs, even across three octets |
| `Dnp3.AdjacentErrorsDetected` | src/pyscan/domain/udp_probes.py:14-20 | so do messages of any length that differ only within two adjacent octets, one-octet messages included |
| `Iec104.ParseApdus` | src/pyscan/domain/iec104.py:114-135 | the loop over offsets gives the recursive splitting of the payload, cut at the limit |
| `Iec104.ApdusByPlace` | src/pyscan/domain/iec104.py:114-149 | APDU n is found if and only if, each length leading to the next, it and all before it start with 0x68 and have their four control octets, within the limit; and its format, type, cause and address are what its octets say |
| `Iec104.ApdusOfConcat` | src/pyscan/domain/iec104.py:114-135 | complete APDUs packed in front of anything are parsed one by one, then what follows |
| `Iec104.ApdusCutAtLimit` | src/pyscan/domain/iec104.py:122-122 | more APDUs than the limit give exactly the first ones |
| `Iec104.SixOctetsEach` | src/pyscan/domain/iec104.py:125-134 | every APDU reported stands for at least six octets |
| `Iec104.ParsePrefix` | src/pyscan/domain/iec104.py:138-149 | an APDU cut short loses optional fields and changes none |
| `Iec104.TruncationLosesOnlyDetail` | src/pyscan/domain/iec104.py:114-149 | cutting any payload anywhere gives a prefix of its APDUs, the last perhaps without some optional fields, none different |
| `Iec104.IFrameRoundTrip` | src/pyscan/domain/ot_traffic.py:72-80 | every I-frame that can be built parses back to its type and address, with the cause modulo 256 |
| `Iec104.UFrameRoundTrip` | src/pyscan/domain/ot_traffic.py:68-69 | every U-frame built is one APDU, with its control octet if that is a U-format one |
| `Modbus.ParseDeviceIdObjects` | src/pyscan/domain/modbus.py:123-148 | the loop over objects gathers what the recursive reading of the body gathers |
| `Modbus.ObjectsRecovered` | src/pyscan/domain/modbus.py:123-141 | reading an encoded list of objects gives for every id the last value sent |
| `Modbus.ReplyRoundTrip` | src/pyscan/domain/modbus.py:108-148 | a reply with up to 255 objects, whatever follows it, gives the last value of ids 0, 1 and 2 |
| `Modbus.LastOfDistinct` | src/pyscan/domain/modbus.py:132-141 | with distinct ids that is the value of the one object with the id |
| `Modbus.CutObjects` | src/pyscan/domain/modbus.py:132-141 | cutting the objects anywhere: one that arrived whole keeps its value, and no field ever holds more than a prefix of its value |
| `Modbus.TruncatedReply` | src/pyscan/domain/modbus.py:108-148 | the same of a whole reply cut anywhere in its objects |
| `Modbus.OtherReplies` | src/pyscan/domain/modbus.py:108-131 | what is not protocol 0 is no reply, 0xAB is an exception, any other code and a body short of its fixed part identify nothing |
| `OtDetect.Detector.Raise` | src/pyscan/domain/ot_detect.py:131-152 | an alert is counted and its source convicted exactly when unauthorised and not mere information |
| `OtDetect.Detector.FlagNewTalker` | src/pyscan/domain/ot_detect.py:189-201 | one alert for an unauthorised pair not reported before, and the pair remembered |
| `OtDetect.Detector.ModbusRule` | src/pyscan/domain/ot_detect.py:203-239 | the Modbus rule's alerts and its effect on all five fields |
| `OtDetect.Detector.ApduRule` | src/pyscan/domain/ot_detect.py:244-280 | one APDU's alert and operation, if any |
| `OtDetect.Detector.Iec104Rule` | src/pyscan/domain/ot_detect.py:241-281 | all APDUs of the payload in order |
| `OtDetect.Detector.S7Rule` | src/pyscan/domain/ot_detect.py:283-316 | the S7 rule: requests only, by class of job |
| `OtDetect.Detector.SynRule` | src/pyscan/domain/ot_detect.py:166-174 | a bare SYN from an unauthorised source |
| `OtDetect.Detector.Feed` | src/pyscan/domain/ot_detect.py:155-186 | the mutating method refines one pure step, of which DetectorPorts has the meaning: alerts returned and the new value of all five fields |
| `DetectorPorts.PacketCalled` | src/pyscan/domain/ot_detect.py:155-316 | TCP to port 502, 2404 or 102 of a covered device raises exactly the findings, each exactly as severe, that the octets of the payload, the flags and the source call for: Modbus codes, types of the first 64 APDUs, S7 jobs, all by number; dated, addressed and labelled as the packet is, and the packet is counted |
| `DetectorPorts.ElsewhereIgnored` | src/pyscan/domain/ot_detect.py:155-161 | any other packet raises nothing and changes nothing |
| `DetectorPorts.OperationsByPort` | src/pyscan/domain/ot_detect.py:203-316 | an operational alert is raised if and only if the payload asks for an operation in the protocol of its port: a write or program code to 502, a command type in an I-format APDU to 2404, a write, block or CPU job to 102 |
| `DetectorPorts.OperationsObserved` | src/pyscan/domain/ot_detect.py:203-316 | the operations observed are exactly those the octets show, whoever sent them |
| `DetectorTheorems.StepShape` | src/pyscan/domain/ot_detect.py:155-186 | one packet adds to each field what depends on the packet and on whether its pair was seen, and nothing else |
| `DetectorTheorems.StepsCommute` | src/pyscan/domain/ot_detect.py:155-201 | two packets leave the same state in either order, from any state |
| `DetectorTheorems.OrderIrrelevant` | src/pyscan/domain/ot_detect.py:96-201 | any permutation of any run, from any state, ends in the same state |
| `DetectorTheorems.AlertsOrderFree` | src/pyscan/domain/ot_detect.py:155-316 | apart from new-talker alerts, any permutation of any run returns the same alerts, each as often, whatever the two states before it |
| `DetectorTheorems.OffenderConvicted` | src/pyscan/domain/ot_detect.py:131-201 | a packet convicts its source exactly when the source is unauthorised and sent a payload or a bare SYN to a protected OT port |
| `DetectorTheorems.CountersExact` | src/pyscan/domain/ot_detect.py:140-163 | after any run packets is the number of relevant packets and alerts the number of alerts returned |
| `DetectorTheorems.OneAlertPerTalker` | src/pyscan/domain/ot_detect.py:189-201 | each pair has exactly one new-talker alert if and only if an unauthorised payload-bearing packet on it reached a protected OT port |
| `DetectorTheorems.HostileExact` | src/pyscan/domain/ot_detect.py:113-201 | after any run hostile_sources is exactly the offenders, so it never meets the HMI set |
| `BaselineTheorems.PacketSoftened` | src/pyscan/domain/ot_detect.py:113-186 | with more stations trusted a packet's alerts are a subsequence, none more severe |
| `BaselineTheorems.RunMilder` | src/pyscan/domain/ot_detect.py:113-201 | the two detectors stay comparable over every run |
| `BaselineTheorems.TrustingMoreAlertsLess` | src/pyscan/domain/ot_detect.py:113-201 | for non-empty HMI sets, one within the other: fewer or milder alerts, fewer hostile sources, the same packets and operations counted |
| `BaselineTheorems.FirstStationRaisesSeverity` | src/pyscan/domain/ot_detect.py:122-129 | from no station in charge to any, the same coil write by another host goes from HIGH to CRITICAL, behind a new-talker alert |
| `BaselineTheorems.SoftenedExactly` | src/pyscan/domain/ot_detect.py:113-201 | for one HMI set within another, every run is reported no more severely under the larger if and only if the smaller is not empty or the larger is |
| `BaselineTheorems.RunSliced` | src/pyscan/domain/ot_detect.py:113-116 | a run with a list of protected devices is the run with none on the packets addressed to them, alerts and state |
| `SeverityTheorems.RunRanked` | src/pyscan/domain/ot_detect.py:122-316 | every alert of every run has the severity that who did what calls for, and only operations and silenced reporting are ever held against a station in charge |
| `SeverityTheorems.StationInChargeIsQuiet` | src/pyscan/application/monitor_service.py:24-48 | at the service's default floor a station in charge is reported for nothing but an attempt to silence an outstation |
| `SeverityTheorems.OperationsSurface` | src/pyscan/domain/ot_detect.py:203-316 | whatever the baseline and history, the rules agree with the classifications of the protocols: a relevant packet raises an operational alert if and only if its message is classed as one |
| `Monitor.MonitorService.Filter` | src/pyscan/application/monitor_service.py:46-48 | the alerts at or above the floor, in order, none missing and none twice: CRITICAL alone, CRITICAL and HIGH, all but INFO, or all |
| `Monitor.MonitorService.RunAll` | src/pyscan/application/monitor_service.py:32-48 | the generator run to its end: the detector ends as if fed the decoded packets directly, whatever the floor, and the alerts are those of the detector's that reach the floor, by severity as `Filter` has it |
| `Monitor.HeartbeatsInvisible` | src/pyscan/application/monitor_service.py:41-43 | heartbeats anywhere in the source change nothing |
| `Monitor.DecodedTicks` | src/pyscan/application/monitor_service.py:38-45 | each record of a capture is decoded by its own linktype, at its own time, in order |
| `Monitor.StepRetimed` | src/pyscan/domain/ot_detect.py:155-186 | a packet's time never reaches the state |
| `Monitor.RunRetimed` | src/pyscan/domain/ot_detect.py:155-186 | moving every packet by at most so much leaves the final state alone and moves every alert by at most as much |
| `PacketTheorems.DecodeRetimed` | src/pyscan/domain/packet.py:50-61 | the time given to the decoder goes into the packet and nowhere else |
| `Monitor.CaptureDecodes` | src/pyscan/application/monitor_service.py:44-45 | writing encoded exchanges, reading and decoding them gives their packets, each time off by at most half a microsecond, for every exchange that encodes and every time the writer packs |
| `Monitor.PacketOfIsExpected` | src/pyscan/application/monitor_service.py:44-45 | between four-octet addresses those packets carry the exchange's own endpoints, flags and payload |
| `Monitor.PipelineEquivalence` | src/pyscan/application/monitor_service.py:32-48 | encode, write, read and monitor ends in the state that feeding the packets directly ends in, and finds at every floor the same alerts in order, each dated within half a microsecond |
| `Monitor.Replay` | src/pyscan/application/monitor_service.py:32-48 | the writer, reader, decoder, detector and service chained one after another do exactly that, alerts and state |
| `Rate.Pacer.Reserve` | src/pyscan/domain/rate.py:19-28 | the slot is the later of the next one and now, the wait is never negative, the next slot opens one interval later |
| `Rate.NewPacer` | src/pyscan/domain/rate.py:13-17 | a rate that is not positive is refused, any other gives its interval |
| `Rate.AsyncRateLimiter.Acquire` | src/pyscan/application/rate_limiter.py:20-24 | one acquire is one reservation and a wait until its slot |
| `Rate.ReserveAll` | src/pyscan/domain/rate.py:13-28 | a pacer asked again and again hands out the slots of the recurrence, never with a negative wait |
| `Rate.SlotClosedForm` | src/pyscan/domain/rate.py:19-28 | slot n is the maximum of start plus n intervals and, over k up to n, request time k plus n - k intervals |
| `Rate.SlotsSpaced` | src/pyscan/domain/rate.py:19-28 | slots m and n are at least n - m intervals apart |
| `Rate.WindowBound` | src/pyscan/domain/rate.py:19-28 | any window of a given length holds at most one slot more than the whole intervals in it: idle time is never banked |
| `Probing.EveryInterleaving` | src/pyscan/application/scan_service.py:82-106 | under every interleaving: never more probes in flight than permits; a task asks again after a filtered or open-filtered answer, and after no other, while retransmissions are left; when done its last answer is the first that is neither, or the last of 1 + max(0, retries) |
| `Probing.Bounded` | src/pyscan/application/scan_service.py:94-102 | the sequential retry loop returns the first answer that is neither filtered nor open-filtered, or the last of 1 + max(0, retries), and that is what is read off the oracle |
| `Probing.RetriedOnce` | src/pyscan/application/scan_service.py:94-102 | the same answers make for one whole retry loop only, so the attempts made are determined |
| `Probing.ScheduleIrrelevant` | src/pyscan/application/scan_service.py:94-106 | every complete run ends with the answers of the sequential loop |
| `Probing.ActShrinks` | src/pyscan/application/scan_service.py:86-102 | every step decreases one measure |
| `Probing.RunsAreBounded` | src/pyscan/application/scan_service.py:94-106 | so no run takes more than four steps per allowed attempt |
| `Probing.SomethingCanMove` | src/pyscan/application/scan_service.py:82-106 | with at least one permit no reachable unfinished state is stuck |
| `Probing.CanFinish` | src/pyscan/application/scan_service.py:82-106 | and from every one of them some run finishes every task |
| `Probing.NoPermitsNoProgress` | src/pyscan/application/scan_service.py:82-92 | with no permit a group finishes if and only if it has no tasks |
| `ScanService.SortByCorrect` | src/pyscan/application/scan_service.py:114-114 | sorting by a key gives a sorted, stable permutation |
| `ScanService.ReportIsSortedPermutation` | src/pyscan/application/scan_service.py:109-115 | the report lists exactly the requested ports in order, duplicates kept in the order asked for |
| `ScanService.EveryScheduleSameReport` | src/pyscan/application/scan_service.py:94-115 | every schedule that finishes gives the same report |
| `ScanService.ScanReports` | src/pyscan/application/scan_service.py:94-115 | of every scan that finishes: each port was asked again exactly while it was filtered or open-filtered and retransmissions were left, and the report lists each port's last answer, by port number, fingerprinted if open |
| `ScanService.ScanSequentially` | src/pyscan/application/scan_service.py:94-115 | taking the ports one at a time gives that report too |
| `Pacing.ActBalance` | src/pyscan/application/scan_service.py:86-92 | no step lets launches and slots held outgrow the slots handed out, at any time |
| `Pacing.LaunchBound` | src/pyscan/domain/rate.py:19-28 | if launches never outnumber open slots, at most 1 + floor((t - start) / interval) of them happen by t, none before the start |
| `Pacing.ScanRateBound` | src/pyscan/application/scan_service.py:83-92 | under every schedule, permit delays and retries included, at most 1 + floor((t - start) * rate) probes are launched by t |
| `LaunchWindows.FirstLaunchAlone` | src/pyscan/application/scan_service.py:86-92 | where free permits are taken at once, every launch but the first comes at least an interval after it, however late sleeps end |
| `LaunchWindows.LaunchesCanBunch` | src/pyscan/application/scan_service.py:86-92 | no window bound holds of the others: at any rate and with at least one permit, all ports but one can be launched at one instant, by a schedule in which time passes only while everybody sleeps, is in flight, is done or finds no permit free |
| `LaunchWindows.WindowBoundExactly` | src/pyscan/application/scan_service.py:86-102 | where free permits are taken at once and sleeps may end late, the window bound of the slots holds of launches in every run if and only if there is no permit, or at most two attempts to make, counting the retries that the answers call for; that no task ever dawdles changes nothing |
| `LaunchWindows.PromptWindowBound` | src/pyscan/application/scan_service.py:86-92 | if every launch comes at most d after its slot, any window of length T holds at most floor((T + d) / interval) + 1 of them |
| `PunctualLaunches.PunctualWindowBound` | src/pyscan/application/sweep_service.py:107-115 | in a scan with a permit for every port, which is what a sweep asks for, sleeps that end at most d late are the only delay: retries or not, any window of length T holds at most floor((T + d) / interval) + 1 launches |
| `PunctualLaunches.FirstLaunchesSpaced` | src/pyscan/application/scan_service.py:82-102 | where sleeps end on time, the first launches, one more than there are permits, are spaced like their slots |
| `PunctualLaunches.PunctualBoundExactly` | src/pyscan/application/scan_service.py:82-102 | where sleeps end on time and free permits are taken at once, the window bound of the slots holds of launches in every run if and only if there is no permit, a permit for every port, or at most one attempt more to make than permits; that no task ever dawdles changes nothing |
| `Pacing.AcquireIsReservation` | src/pyscan/application/rate_limiter.py:20-24 | the step system's reservation is what the limiter does |
| `SweepService.HostsUpAreUp` | src/pyscan/application/sweep_service.py:86-93 | discovery keeps exactly the candidates that are up, in order |
| `SweepService.RunOk` | src/pyscan/application/sweep_service.py:54-118 | what every step of both phases keeps: permits plus busy hosts constant, each host's tasks lawful, the hosts those that are up |
| `SweepService.SweepInFlightBound` | src/pyscan/application/sweep_service.py:84-117 | under every schedule: host checks and hosts being scanned within the host concurrency, port probes in flight within it times the number of ports |
| `SweepService.SweepRateBound` | src/pyscan/application/sweep_service.py:54-63 | over both phases, one shared limiter, every schedule and retry: at most 1 + floor((t - start) * rate) is_up and scan_port calls are launched by t |
| `SweepService.MoveShrinks` | src/pyscan/application/sweep_service.py:58-117 | every step of a sweep decreases one measure |
| `SweepService.SweepsAreBounded` | src/pyscan/application/sweep_service.py:58-117 | so a sweep is finite, with an explicit bound on its steps |
| `SweepService.SweepCanMove` | src/pyscan/application/sweep_service.py:58-117 | with at least one permit no reachable unfinished state of a sweep is stuck |
| `SweepService.SweepCanFinish` | src/pyscan/application/sweep_service.py:58-117 | and from every one of them some run finishes the sweep |
| `SweepService.SweepFinishesExactly` | src/pyscan/application/sweep_service.py:84-117 | a sweep can finish if and only if it has at least one permit or no candidate |
| `SweepService.EveryScheduleSameSweep` | src/pyscan/application/sweep_service.py:58-118 | every finished sweep emits one and the same report, the one read off the oracles with the sequential retry loop |
| `SweepReports.FinishedSweepTells` | src/pyscan/application/sweep_service.py:54-118 | of every finished sweep: exactly the candidates that are up, or all without discovery, were scanned, once each; every port of each was asked again exactly while it was filtered or open-filtered and the sweep's retransmissions were left; and the report has those hosts by rank, each with its ports' last answers by port number |
| `SweepReports.PortsNeverWait` | src/pyscan/application/sweep_service.py:107-115 | in every state of every sweep a host being scanned has a permit for each of its ports, so that none ever waits for one |

## Left out

- Sockets, DNS, the scan strategies, live capture, the CLI, both text interfaces and all sinks: input
  and output. A probe is an oracle's answer after an arbitrary delay; a capture source is a list.
- asyncio itself: tasks are stepped by an arbitrary scheduler, and a waiting task may be served in any
  order, so the first-come order of asyncio's semaphores is not used. Cancellation and exceptions inside
  a probe are not modelled; nor is a negative concurrency, which asyncio refuses.
- The limiter's lock: it is held across no suspension point, so one acquisition is one step. A sleep
  never ends early on the model's clock.
- Generators are run to their end: a consumer that stops early is not modelled.
- `fingerprint.identify`, `targets.py`, `port_spec.py`, `top_ports.py`, `well_known.py`, the banner
  tables and the static UDP payloads: the first is an uninterpreted function, the rest are lookups or
  short parsers.
- Floating point: IEEE rounding of timestamps, divisors and intervals.
- Alert prose, ATT&CK labels, `info` strings and the text form of addresses: an enumeration of findings
  and raw octets stand for them.
- Latency, timing and start-time fields of results and reports.
- `build_scenario`, the payload builders other than the two IEC 60870-5-104 frames, and the S7 and
  Modbus request builders: constants and fixed offsets.
- `s7comm`: only the job header the detector reads.
- Host names are numbers in a sweep, and the final sort uses an arbitrary rank of them in place of the
  order of the address texts.
- FileReader.Read: models a regular file, where a short read means the end of the file.
