/** A capture cut short at any point loses packets only from its end. */
module PcapTruncation {
  import opened Bytes
  import opened PcapReader

  /** Stops that more octets could not have avoided. */
  predicate Final(stop: Stop) {
    stop.Raised? && !stop.error.TooShort? && !stop.error.TruncatedGlobalHeader? && !stop.error.TruncatedSection?
  }

  /** `cut` is what is left of `whole` when the file ends early. */
  predicate CutOf(cut: Stream, whole: Stream) {
    cut.records <= whole.records && (Final(cut.stop) ==> cut == whole)
  }

  lemma RecordStepPrefix(e: Endian, divisor: real, linktype: nat, p: seq<byte>, s: seq<byte>)
    requires divisor > 0.0 && p <= s
    ensures var step := RecordStep(e, divisor, linktype, p);
            step.Got? || Final(step.stop) ==> RecordStep(e, divisor, linktype, s) == step
  {
    var step := RecordStep(e, divisor, linktype, p);
    if |p| >= 16 {
      assert p[8..12] == s[8..12] && p[..16] == s[..16];
      if step.Got? {
        assert p[16..step.size] == s[16..step.size];
      }
    }
  }

  lemma {:induction false} ClassicCut(e: Endian, divisor: real, linktype: nat, p: seq<byte>, s: seq<byte>)
    requires divisor > 0.0 && p <= s
    ensures CutOf(ClassicRecords(e, divisor, linktype, p), ClassicRecords(e, divisor, linktype, s))
    decreases |p|
  {
    RecordStepPrefix(e, divisor, linktype, p, s);
    var step := RecordStep(e, divisor, linktype, p);
    if step.Got? {
      ClassicCut(e, divisor, linktype, p[step.size..], s[step.size..]);
    }
  }

  lemma BlockStepPrefix(p: seq<byte>, s: seq<byte>, st: NgState)
    requires ValidIfaces(st.interfaces) && p <= s
    ensures var step := BlockStep(p, st);
            step.Go? || Final(step.stop) ==> BlockStep(s, st) == step
  {
    if |p| >= 8 {
      assert p[..4] == s[..4] && p[4..8] == s[4..8];
      var total := U32(st.endian, p[4..8]);
      if U32(st.endian, p[..4]) == BT_SHB {
        assert |p| >= 12 ==> p[8..12] == s[8..12];
      } else if 12 <= total <= |p| {
        assert p[8..total - 4] == s[8..total - 4];
      }
    }
  }

  lemma {:induction false} NgCut(p: seq<byte>, s: seq<byte>, st: NgState)
    requires ValidIfaces(st.interfaces) && p <= s
    ensures CutOf(NgRecords(p, st), NgRecords(s, st))
    decreases |p|
  {
    BlockStepPrefix(p, s, st);
    var step := BlockStep(p, st);
    if step.Go? {
      NgCut(p[step.size..], s[step.size..], step.next);
    }
  }

  /** For every byte string, valid or not, and every cut: what the cut file yields before it
      stops or raises is a prefix of what the whole file yields, and an exception that is not
      about missing octets is raised by the whole file at the same record. */
  lemma TruncationYieldsPrefix(data: seq<byte>, cut: nat)
    requires cut <= |data|
    ensures CutOf(Capture(data[..cut]), Capture(data))
  {
    var p := data[..cut];
    if |p| >= 4 {
      var magic := p[..4];
      assert magic == data[..4];
      if IsClassicMagic(magic) {
        var a, b := p[4..], data[4..];
        if |a| >= 20 {
          assert forall k :: 0 <= k < |a| ==> a[k] == b[k];
          assert a[16..20] == b[16..20] && a[20..] <= b[20..];
          ClassicCut(ClassicEndian(magic), ClassicDivisor(magic), U32(ClassicEndian(magic), a[16..20]), a[20..], b[20..]);
        }
      } else if IsNgMagic(magic) {
        NgCut(p, data, NG_START);
      }
    }
  }
}
