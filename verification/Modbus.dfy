/** Modbus/TCP: function codes of requests, and the objects of a device-identification reply. */
module Modbus {
  import opened Wrappers
  import opened Bytes

  datatype FunctionClass = Read | Write | Recon | Program | Other

  function ClassifyFunction(code: byte): FunctionClass {
    if code in {0x01, 0x02, 0x03, 0x04, 0x07, 0x0B, 0x0C, 0x14, 0x18} then Read
    else if code in {0x05, 0x06, 0x0F, 0x10, 0x16, 0x17} then Write
    else if code in {0x08, 0x11, 0x2B} then Recon
    else if code in {0x15, 0x5A} then Program
    else Other
  }

  /** The function code without its exception flag, when the MBAP header is plausible. */
  function ReadFunctionCode(payload: seq<byte>): Option<byte> {
    if |payload| < 8 || U16(Big, payload[2..4]) != 0 then None
    else if !(1 <= U16(Big, payload[4..6]) <= 255) then None
    else Some(payload[7] % 0x80)
  }

  /** Text values stay octets: Latin-1 decoding maps each octet to one character. */
  datatype ModbusInfo = ModbusInfo(
    isException: bool,
    vendor: Option<seq<byte>>,
    product: Option<seq<byte>>,
    version: Option<seq<byte>>)

  type FieldMap = map<byte, seq<byte>>

  function Field(fields: FieldMap, id: byte): Option<seq<byte>> { if id in fields then Some(fields[id]) else None }

  function Identified(fields: FieldMap): ModbusInfo {
    ModbusInfo(false, Field(fields, 0), Field(fields, 1), Field(fields, 2))
  }

  const NOTHING: FieldMap := map[]

  /** At most n objects read from s into the fields gathered so far. */
  function Objects(n: nat, s: seq<byte>, fields: FieldMap): FieldMap
    decreases n
  {
    if n == 0 || |s| < 2 then fields
    else
      var size := 2 + s[1] as int;
      Objects(n - 1, Drop(s, size), fields[s[0] := Slice(s, 2, size)])
  }

  function DeviceId(body: seq<byte>): ModbusInfo {
    if |body| < 7 then Identified(NOTHING) else Identified(Objects(body[6], body[7..], NOTHING))
  }

  /** With `fields` gathered so far, n more objects from `offset` on make `all`. */
  ghost predicate Gathers(n: nat, body: seq<byte>, offset: nat, fields: FieldMap, all: FieldMap) {
    all == Objects(n, Drop(body, offset), fields)
  }

  method ParseDeviceIdObjects(body: seq<byte>) returns (info: ModbusInfo)
    ensures info == DeviceId(body)
  {
    if |body| < 7 {
      return Identified(NOTHING);
    }
    var numObjects: nat := body[6];
    var offset: nat := 7;
    var fields := NOTHING;
    ghost var left: nat, all := numObjects, Objects(numObjects, body[7..], NOTHING);
    assert body[7..] == Drop(body, offset);
    for k := 0 to numObjects
      invariant left == numObjects - k && Gathers(left, body, offset, fields, all)
    {
      if offset + 2 > |body| {
        break;
      }
      var id, size := body[offset], 2 + body[offset + 1] as int;
      var more := fields[id := Slice(body, offset + 2, offset + size)];
      ObjectsAt(left, body, offset, fields, all, offset + size, more);
      left := left - 1;
      fields := more;
      offset := offset + size;
    }
    ObjectsDone(left, body, offset, fields, all);
    info := Identified(fields);
  }

  lemma ObjectAt(body: seq<byte>, offset: nat)
    requires offset + 2 <= |body|
    ensures var s, length := Drop(body, offset), body[offset + 1] as int;
            && |s| >= 2 && s[0] == body[offset] && s[1] == body[offset + 1]
            && Slice(s, 2, 2 + length) == Slice(body, offset + 2, offset + 2 + length)
            && Drop(s, 2 + length) == Drop(body, offset + 2 + length)
  {
  }

  lemma ObjectsDone(n: nat, body: seq<byte>, offset: nat, fields: FieldMap, all: FieldMap)
    requires Gathers(n, body, offset, fields, all) && (n == 0 || offset + 2 > |body|)
    ensures all == fields
  {
  }

  lemma ObjectsAt(n: nat, body: seq<byte>, offset: nat, fields: FieldMap, all: FieldMap, next: nat, more: FieldMap)
    requires n > 0 && offset + 2 <= |body| && next == offset + 2 + body[offset + 1] as int
    requires Gathers(n, body, offset, fields, all)
    requires more == fields[body[offset] := Slice(body, offset + 2, next)]
    ensures Gathers(n - 1, body, next, more, all)
  {
    ObjectAt(body, offset);
  }

  /** None when the reply is not Modbus; the transaction id is not compared. */
  function ResponseOf(data: seq<byte>): Option<ModbusInfo> {
    if |data| < 8 || U16(Big, data[2..4]) != 0 then None
    else if data[7] == 0xAB then Some(ModbusInfo(true, None, None, None))
    else if data[7] != 0x2B then Some(Identified(NOTHING))
    else Some(DeviceId(data[7..]))
  }

  /** What is not protocol 0 is no reply, an exception names nothing, nor does any other function code or a
      body short of its fixed part. */
  lemma OtherReplies(data: seq<byte>)
    ensures |data| < 8 || data[2] != 0 || data[3] != 0 ==> ResponseOf(data) == None
    ensures |data| >= 8 && data[2] == 0 && data[3] == 0 && data[7] == 0xAB ==>
      ResponseOf(data) == Some(ModbusInfo(true, None, None, None))
    ensures |data| >= 8 && data[2] == 0 && data[3] == 0 && data[7] != 0xAB && (data[7] != 0x2B || |data| < 14) ==>
      ResponseOf(data) == Some(ModbusInfo(false, None, None, None))
  {
  }

  // ---------------------------------------------------------------------------
  // Encoded replies
  // ---------------------------------------------------------------------------

  type Value = v: seq<byte> | |v| <= 255

  datatype Object = Object(id: byte, value: Value)

  function ObjectBytes(o: Object): seq<byte> { [o.id, |o.value|] + o.value }

  function ObjectsBytes(os: seq<Object>): seq<byte> { if os == [] then [] else ObjectBytes(os[0]) + ObjectsBytes(os[1..]) }

  /** MBAP header, then the fixed part of the reply, then the objects. */
  function Reply(tid: u16, length: u16, unit: byte, fixed: seq<byte>, os: seq<Object>): seq<byte>
    requires |fixed| == 5 && |os| <= 255
  {
    Put16(Big, tid) + [0, 0] + Put16(Big, length) + [unit] + ([0x2B] + fixed + [|os|] + ObjectsBytes(os))
  }

  /** The last object of the list with this id. */
  function Last(os: seq<Object>, id: byte): Option<seq<byte>> {
    if os == [] then None
    else if Last(os[1..], id).Some? then Last(os[1..], id)
    else if os[0].id == id then Some(os[0].value)
    else None
  }

  predicate Distinct(os: seq<Object>) { forall i, j :: 0 <= i < j < |os| ==> os[i].id != os[j].id }

  lemma ObjectFront(o: Object, rest: seq<byte>)
    ensures var s := ObjectBytes(o) + rest;
            && |s| >= 2 && s[0] == o.id && s[1] == |o.value|
            && Slice(s, 2, 2 + |o.value|) == o.value && Drop(s, 2 + |o.value|) == rest
  {
    var s := ObjectBytes(o) + rest;
    assert s[2..2 + |o.value|] == o.value;
    assert s[2 + |o.value|..] == rest;
  }

  lemma {:induction false} ObjectsRecovered(os: seq<Object>, rest: seq<byte>, fields: FieldMap, id: byte)
    ensures Field(Objects(|os|, ObjectsBytes(os) + rest, fields), id)
         == if Last(os, id).Some? then Last(os, id) else Field(fields, id)
  {
    if os != [] {
      var o, tail := os[0], ObjectsBytes(os[1..]) + rest;
      assert ObjectsBytes(os) + rest == ObjectBytes(o) + tail;
      ObjectFront(o, tail);
      ObjectsRecovered(os[1..], rest, fields[o.id := o.value], id);
    }
  }

  lemma ReplyFields(tid: u16, length: u16, unit: byte, fixed: seq<byte>, os: seq<Object>, rest: seq<byte>)
    requires |fixed| == 5 && |os| <= 255
    ensures var data := Reply(tid, length, unit, fixed, os) + rest;
            && |data| >= 14 && data[2..4] == [0, 0] && data[7] == 0x2B && data[13] == |os|
            && data[7..][7..] == ObjectsBytes(os) + rest
  {
  }

  /** A reply with any list of up to 255 objects, anything behind it ignored, gives the last value
      sent for each of the ids 0, 1 and 2. */
  lemma ReplyRoundTrip(tid: u16, length: u16, unit: byte, fixed: seq<byte>, os: seq<Object>, rest: seq<byte>)
    requires |fixed| == 5 && |os| <= 255
    ensures ResponseOf(Reply(tid, length, unit, fixed, os) + rest)
         == Some(ModbusInfo(false, Last(os, 0), Last(os, 1), Last(os, 2)))
  {
    ReplyFields(tid, length, unit, fixed, os, rest);
    ObjectsRecovered(os, rest, NOTHING, 0);
    ObjectsRecovered(os, rest, NOTHING, 1);
    ObjectsRecovered(os, rest, NOTHING, 2);
  }

  /** With distinct ids, that is the value of the one object carrying the id. */
  lemma {:induction false} LastOfDistinct(os: seq<Object>, k: nat)
    requires Distinct(os) && k < |os|
    ensures Last(os, os[k].id) == Some(os[k].value)
  {
    if k > 0 {
      LastOfDistinct(os[1..], k - 1);
    } else {
      LastAbsent(os[1..], os[0].id);
    }
  }

  lemma {:induction false} LastAbsent(os: seq<Object>, id: byte)
    requires forall k :: 0 <= k < |os| ==> os[k].id != id
    ensures Last(os, id) == None
  {
    if os != [] {
      LastAbsent(os[1..], id);
    }
  }

  // ---------------------------------------------------------------------------
  // Truncated replies
  // ---------------------------------------------------------------------------

  /** Where object k ends in the encoded list. */
  function EndOf(os: seq<Object>, k: nat): nat
    requires k < |os|
  {
    2 + |os[0].value| + if k == 0 then 0 else EndOf(os[1..], k - 1)
  }

  /** The field holds at most a prefix of the value. */
  predicate PrefixAt(fields: FieldMap, id: byte, value: seq<byte>) { id in fields ==> fields[id] <= value }

  /** The part of the first object's value that a cut leaves. */
  function CutValue(os: seq<Object>, cut: nat): seq<byte>
    requires os != [] && 2 <= cut
  {
    if 2 + |os[0].value| <= cut then os[0].value else os[0].value[..cut - 2]
  }

  lemma CutFront(os: seq<Object>, cut: nat)
    requires os != [] && 2 <= cut <= |ObjectsBytes(os)|
    ensures var s, size := ObjectsBytes(os)[..cut], 2 + |os[0].value|;
            && s[0] == os[0].id && s[1] == |os[0].value|
            && Slice(s, 2, size) == CutValue(os, cut)
            && (size <= cut ==> cut - size <= |ObjectsBytes(os[1..])|
                                && Drop(s, size) == ObjectsBytes(os[1..])[..cut - size])
            && (size > cut ==> Drop(s, size) == [])
  {
    var o, rest := os[0], ObjectsBytes(os[1..]);
    var all, size := ObjectBytes(o) + rest, 2 + |o.value|;
    var s := all[..cut];
    ObjectFront(o, rest);
    assert all[2..size] == o.value;
    if size <= cut {
      assert s[2..size] == all[2..size];
      assert s[size..] == rest[..cut - size];
    } else {
      assert s[2..] == all[2..size][..cut - 2];
    }
  }

  lemma NoneLeft(n: nat, fields: FieldMap)
    ensures Objects(n, [], fields) == fields
  {
  }

  /** One object is read from a cut list, whole or not. */
  lemma CutStep(n: nat, os: seq<Object>, cut: nat, fields: FieldMap)
    requires os != [] && cut <= |ObjectsBytes(os)| && n > 0
    ensures cut < 2 ==> Objects(n, ObjectsBytes(os)[..cut], fields) == fields
    ensures 2 <= cut < 2 + |os[0].value| ==>
              Objects(n, ObjectsBytes(os)[..cut], fields) == fields[os[0].id := CutValue(os, cut)]
    ensures 2 + |os[0].value| <= cut ==>
              var rest := cut - (2 + |os[0].value|);
              && rest <= |ObjectsBytes(os[1..])|
              && Objects(n, ObjectsBytes(os)[..cut], fields)
                 == Objects(n - 1, ObjectsBytes(os[1..])[..rest], fields[os[0].id := os[0].value])
  {
    if cut >= 2 {
      CutFront(os, cut);
      NoneLeft(n - 1, fields[os[0].id := CutValue(os, cut)]);
    }
  }

  predicate Absent(os: seq<Object>, id: byte) { forall k :: 0 <= k < |os| ==> os[k].id != id }

  lemma AbsentBehind(os: seq<Object>, id: byte)
    requires os != [] && Absent(os, id)
    ensures os[0].id != id && Absent(os[1..], id)
  {
  }

  lemma OtherField(fields: FieldMap, id: byte, value: seq<byte>, other: byte)
    requires id != other
    ensures Field(fields[id := value], other) == Field(fields, other)
  {
  }

  /** A field whose id no object carries is never touched. */
  lemma {:induction false} UntouchedField(n: nat, os: seq<Object>, cut: nat, fields: FieldMap, id: byte)
    requires cut <= |ObjectsBytes(os)| && n <= |os| && Absent(os, id)
    ensures Field(Objects(n, ObjectsBytes(os)[..cut], fields), id) == Field(fields, id)
    decreases n
  {
    if n > 0 {
      CutStep(n, os, cut, fields);
      AbsentBehind(os, id);
      var o, tail := os[0], os[1..];
      if 2 + |o.value| <= cut {
        OtherField(fields, o.id, o.value, id);
        UntouchedField(n - 1, tail, cut - (2 + |o.value|), fields[o.id := o.value], id);
      } else if 2 <= cut {
        OtherField(fields, o.id, CutValue(os, cut), id);
      }
    }
  }

  /** Object k of a list cut after `cut` octets: its field has its value if it arrived whole, and never
      anything but a prefix of it. */
  predicate Survives(os: seq<Object>, cut: nat, fields: FieldMap, k: nat)
    requires k < |os|
  {
    && PrefixAt(fields, os[k].id, os[k].value)
    && (EndOf(os, k) <= cut ==> Field(fields, os[k].id) == Some(os[k].value))
  }

  lemma SurvivesBehind(os: seq<Object>, cut: nat, fields: FieldMap, k: nat)
    requires 0 < k < |os| && 2 + |os[0].value| <= cut
    requires Survives(os[1..], cut - (2 + |os[0].value|), fields, k - 1)
    ensures Survives(os, cut, fields, k)
  {
  }

  lemma EndsBehind(os: seq<Object>, cut: nat, k: nat)
    requires k < |os| && cut < 2 + |os[0].value|
    ensures EndOf(os, k) > cut
  {
  }

  lemma FirstCut(os: seq<Object>, cut: nat, fields: FieldMap)
    requires os != [] && cut <= |ObjectsBytes(os)| && cut < 2 + |os[0].value| && os[0].id !in fields
    ensures Survives(os, cut, Objects(|os|, ObjectsBytes(os)[..cut], fields), 0)
  {
    CutStep(|os|, os, cut, fields);
    EndsBehind(os, cut, 0);
  }

  lemma FirstWhole(os: seq<Object>, cut: nat, fields: FieldMap, behind: FieldMap)
    requires os != [] && Distinct(os) && 2 + |os[0].value| <= cut <= |ObjectsBytes(os)|
    requires behind == Objects(|os|, ObjectsBytes(os)[..cut], fields)
    ensures Field(behind, os[0].id) == Some(os[0].value)
  {
    var o, tail := os[0], os[1..];
    CutStep(|os|, os, cut, fields);
    assert Absent(tail, o.id);
    UntouchedField(|os| - 1, tail, cut - (2 + |o.value|), fields[o.id := o.value], o.id);
  }

  /** Cutting the list of objects anywhere: an object that arrived whole has its value, and no
      object's field ever holds anything but a prefix of its value. */
  lemma {:induction false} CutObjects(os: seq<Object>, cut: nat, fields: FieldMap, k: nat)
    requires Distinct(os) && cut <= |ObjectsBytes(os)| && k < |os| && os[k].id !in fields
    ensures Survives(os, cut, Objects(|os|, ObjectsBytes(os)[..cut], fields), k)
    decreases |os|
  {
    var size := 2 + |os[0].value|;
    if k == 0 && size <= cut {
      FirstWhole(os, cut, fields, Objects(|os|, ObjectsBytes(os)[..cut], fields));
      return;
    }
    if k == 0 {
      FirstCut(os, cut, fields);
      return;
    }
    CutStep(|os|, os, cut, fields);
    if size <= cut {
      CutObjects(os[1..], cut - size, fields[os[0].id := os[0].value], k - 1);
      SurvivesBehind(os, cut, Objects(|os|, ObjectsBytes(os)[..cut], fields), k);
    } else {
      EndsBehind(os, cut, k);
    }
  }

  /** The fields of a reply whose objects are cut after `cut` octets. */
  lemma TruncatedReply(tid: u16, length: u16, unit: byte, fixed: seq<byte>, os: seq<Object>, cut: nat, k: nat)
    requires |fixed| == 5 && |os| <= 255 && Distinct(os) && k < |os| && cut <= |ObjectsBytes(os)|
    ensures 14 + cut <= |Reply(tid, length, unit, fixed, os)|
    ensures ResponseOf(Reply(tid, length, unit, fixed, os)[..14 + cut])
         == Some(Identified(Objects(|os|, ObjectsBytes(os)[..cut], NOTHING)))
    ensures Survives(os, cut, Objects(|os|, ObjectsBytes(os)[..cut], NOTHING), k)
  {
    var whole := Reply(tid, length, unit, fixed, os);
    var data := whole[..14 + cut];
    ReplyFields(tid, length, unit, fixed, os, []);
    assert whole + [] == whole && ObjectsBytes(os) + [] == ObjectsBytes(os);
    assert whole[7..][7..] == whole[14..] && |whole| == 14 + |ObjectsBytes(os)|;
    assert data[2..4] == whole[2..4];
    assert data[7..][7..] == whole[14..][..cut];
    CutObjects(os, cut, NOTHING, k);
  }
}
