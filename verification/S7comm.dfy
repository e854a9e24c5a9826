/** The S7comm job header. */
module S7comm {
  import opened Wrappers
  import opened Bytes

  datatype JobClass = Read | Write | Program | Control | Setup | Other

  datatype S7Job = S7Job(rosctr: byte, function_: byte) {
    function Class(): JobClass {
      if function_ == 0x04 then Read
      else if function_ == 0x05 then Write
      else if 0x1A <= function_ <= 0x1F then Program
      else if function_ == 0x28 || function_ == 0x29 then Control
      else if function_ == 0xF0 then Setup
      else Other
    }
  }

  function ParseJob(payload: seq<byte>): Option<S7Job> {
    if |payload| < 18 || payload[0] != 0x03 || payload[7] != 0x32 then None
    else Some(S7Job(payload[8], payload[17]))
  }
}
