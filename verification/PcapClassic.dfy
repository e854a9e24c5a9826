/** Classic capture files in all four variants, either byte order and either resolution, and what is read
    back from them. */
module PcapClassic {
  import opened Wrappers
  import opened Bytes
  import opened PcapReader
  import PcapWriter

  /** A record: whole seconds and the fraction in the ticks of the file. */
  datatype Entry = Entry(seconds: u32, fraction: u32, origLen: u32, frame: seq<byte>)

  /** A file variant: its byte order, and whether it counts nanoseconds. */
  datatype Variant = Variant(endian: Endian, nano: bool)

  function Magic(v: Variant): u32 { if v.nano then 0xA1B2_3C4D else 0xA1B2_C3D4 }

  function TicksOf(v: Variant): nat { if v.nano then 1_000_000_000 else 1_000_000 }

  predicate Sized(xs: seq<Entry>) { forall k :: 0 <= k < |xs| ==> |xs[k].frame| < 0x1_0000_0000 }

  function EncodeEntry(e: Endian, x: Entry): seq<byte>
    requires |x.frame| < 0x1_0000_0000
  {
    Put32(e, x.seconds) + Put32(e, x.fraction) + Put32(e, |x.frame|) + Put32(e, x.origLen) + x.frame
  }

  function EncodeEntries(e: Endian, xs: seq<Entry>): seq<byte>
    requires Sized(xs)
  {
    if xs == [] then [] else EncodeEntry(e, xs[0]) + EncodeEntries(e, xs[1..])
  }

  /** The sixteen octets between the magic and the linktype, version and snapshot length among them, are free. */
  function EncodeFile(v: Variant, header: seq<byte>, linktype: u32, xs: seq<Entry>): seq<byte>
    requires |header| == 16 && Sized(xs)
  {
    Put32(v.endian, Magic(v)) + (header + Put32(v.endian, linktype) + EncodeEntries(v.endian, xs))
  }

  /** The leading entries of at most 64 MiB. */
  function WithinCap(xs: seq<Entry>): (n: nat)
    ensures n <= |xs|
  {
    if xs == [] || |xs[0].frame| > 67_108_864 then 0 else 1 + WithinCap(xs[1..])
  }

  /** The same octets, the linktype of the file, and the time in ticks. */
  predicate ReadAs(v: Variant, linktype: nat, x: Entry, r: Record) {
    r.frame == x.frame && r.linktype == linktype && (r.ts - x.seconds as real) * TicksOf(v) as real == x.fraction as real
  }

  predicate AllReadAs(v: Variant, linktype: nat, xs: seq<Entry>, s: Stream) {
    && |s.records| == WithinCap(xs)
    && (forall k :: 0 <= k < |s.records| ==> ReadAs(v, linktype, xs[k], s.records[k]))
    && s.stop == if WithinCap(xs) == |xs| then Ended else Raised(ImplausibleRecord)
  }

  lemma TickTime(seconds: int, fraction: int, ticks: nat, divisor: real)
    requires ticks > 0 && divisor == ticks as real
    ensures (seconds as real + fraction as real / divisor - seconds as real) * ticks as real == fraction as real
  {
  }

  /** A record step, given the fields of the record it finds. */
  lemma StepOfFields(e: Endian, divisor: real, linktype: nat, s: seq<byte>, seconds: u32, fraction: u32, frame: seq<byte>, rest: seq<byte>)
    requires divisor > 0.0 && |frame| < 0x1_0000_0000
    requires |s| >= 16 + |frame| && U32(e, s[..16][..4]) == seconds && U32(e, s[..16][4..8]) == fraction
    requires U32(e, s[8..12]) == |frame| && s[16..16 + |frame|] == frame && s[16 + |frame|..] == rest
    ensures RecordStep(e, divisor, linktype, s)
         == if |frame| > 67_108_864 then Stopped(Raised(ImplausibleRecord))
            else Got(16 + |frame|, Record(seconds as real + fraction as real / divisor, linktype, frame))
  {
  }

  lemma EntryLaid(e: Endian, x: Entry, rest: seq<byte>, s: seq<byte>)
    requires |x.frame| < 0x1_0000_0000 && s == EncodeEntry(e, x) + rest
    ensures |s| >= 16 + |x.frame| && U32(e, s[..16][..4]) == x.seconds && U32(e, s[..16][4..8]) == x.fraction
    ensures U32(e, s[8..12]) == |x.frame| && s[16..16 + |x.frame|] == x.frame && s[16 + |x.frame|..] == rest
  {
    PcapWriter.RecordFields(Put32(e, x.seconds), Put32(e, x.fraction), Put32(e, |x.frame|), Put32(e, x.origLen), x.frame, rest);
    Put32RoundTrip(e, x.seconds);
    Put32RoundTrip(e, x.fraction);
    Put32RoundTrip(e, |x.frame|);
  }

  lemma ReadAsTicks(v: Variant, linktype: nat, x: Entry, divisor: real)
    requires divisor == TicksOf(v) as real
    ensures ReadAs(v, linktype, x, Record(x.seconds as real + x.fraction as real / divisor, linktype, x.frame))
  {
    TickTime(x.seconds, x.fraction, TicksOf(v), divisor);
  }

  lemma EntryStep(v: Variant, x: Entry, linktype: nat, rest: seq<byte>, s: seq<byte>, divisor: real, step: ClassicStep)
    requires |x.frame| < 0x1_0000_0000 && divisor == TicksOf(v) as real && s == EncodeEntry(v.endian, x) + rest
    requires step == RecordStep(v.endian, divisor, linktype, s)
    ensures if |x.frame| > 67_108_864 then step == Stopped(Raised(ImplausibleRecord))
            else |s| >= 16 + |x.frame| && s[16 + |x.frame|..] == rest
                 && step.Got? && step.size == 16 + |x.frame| && ReadAs(v, linktype, x, step.record)
  {
    EntryLaid(v.endian, x, rest, s);
    StepOfFields(v.endian, divisor, linktype, s, x.seconds, x.fraction, x.frame, rest);
    ReadAsTicks(v, linktype, x, divisor);
  }

  lemma AllReadMore(v: Variant, linktype: nat, x: Entry, xs: seq<Entry>, r: Record, s: Stream)
    requires AllReadAs(v, linktype, xs, s) && |x.frame| <= 67_108_864 && ReadAs(v, linktype, x, r)
    ensures AllReadAs(v, linktype, [x] + xs, Prepend([r], s))
  {
    var all, out := [x] + xs, Prepend([r], s);
    assert all[1..] == xs;
    forall k | 0 <= k < |out.records| ensures ReadAs(v, linktype, all[k], out.records[k]) {
      assert k > 0 ==> all[k] == xs[k - 1] && out.records[k] == s.records[k - 1];
    }
  }

  lemma ClassicGo(e: Endian, divisor: real, linktype: nat, s: seq<byte>, step: ClassicStep, rest: seq<byte>)
    requires divisor > 0.0 && step == RecordStep(e, divisor, linktype, s) && (step.Got? ==> s[step.size..] == rest)
    ensures ClassicRecords(e, divisor, linktype, s)
         == if step.Stopped? then Stream([], step.stop)
            else Prepend([step.record], ClassicRecords(e, divisor, linktype, rest))
  {
  }

  lemma {:induction false} EntriesRoundTrip(v: Variant, linktype: nat, xs: seq<Entry>, divisor: real)
    requires Sized(xs) && divisor == TicksOf(v) as real
    ensures AllReadAs(v, linktype, xs, ClassicRecords(v.endian, divisor, linktype, EncodeEntries(v.endian, xs)))
  {
    if xs != [] {
      var x, tail := xs[0], xs[1..];
      var rest := EncodeEntries(v.endian, tail);
      var s := EncodeEntry(v.endian, x) + rest;
      var step := RecordStep(v.endian, divisor, linktype, s);
      EntryStep(v, x, linktype, rest, s, divisor, step);
      ClassicGo(v.endian, divisor, linktype, s, step, rest);
      if step.Got? {
        EntriesRoundTrip(v, linktype, tail, divisor);
        AllReadMore(v, linktype, x, tail, step.record, ClassicRecords(v.endian, divisor, linktype, rest));
        assert xs == [x] + tail;
      }
    }
  }

  /** The four octets a variant starts with, and that they are told apart. */
  lemma MagicTells(v: Variant)
    ensures var magic := Put32(v.endian, Magic(v));
            IsClassicMagic(magic) && ClassicEndian(magic) == v.endian && ClassicDivisor(magic) == TicksOf(v) as real
  {
    var magic := Put32(v.endian, Magic(v));
    assert magic[0] == if v.endian.Big? then 0xA1 else if v.nano then 0x4D else 0xD4;
    assert magic[2] == if v.endian.Little? then 0xB2 else if v.nano then 0x3C else 0xC3;
  }

  /** Reading back a file of any variant gives every entry with its octets, the linktype of the file and its
      time in the file's own ticks, up to the first over 64 MiB, where it raises. */
  lemma VariantRoundTrip(v: Variant, header: seq<byte>, linktype: u32, xs: seq<Entry>)
    requires |header| == 16 && Sized(xs)
    ensures AllReadAs(v, linktype, xs, Capture(EncodeFile(v, header, linktype, xs)))
  {
    var magic, body, rest := Put32(v.endian, Magic(v)), EncodeEntries(v.endian, xs), header + Put32(v.endian, linktype);
    var data := EncodeFile(v, header, linktype, xs);
    MagicTells(v);
    Put32RoundTrip(v.endian, linktype);
    assert data[..4] == magic && data[4..] == rest + body;
    assert (rest + body)[16..20] == Put32(v.endian, linktype) && (rest + body)[20..] == body;
    EntriesRoundTrip(v, linktype, xs, ClassicDivisor(magic));
  }
}
