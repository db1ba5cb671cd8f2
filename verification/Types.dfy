// Machine types and the small result types shared by every module.
module Types {
  type byte = x: int | 0 <= x < 0x100
  type u16 = x: int | 0 <= x < 0x1_0000
  type u32 = x: int | 0 <= x < 0x1_0000_0000

  // A station address: six octets.
  type Mac = s: seq<byte> | |s| == 6 witness [0, 0, 0, 0, 0, 0]

  // The characters of a NUL-terminated C string, without the terminator.
  type CText = s: seq<byte> | 0 !in s

  datatype Option<+T> = None | Some(value: T)
  {
    function GetOr(default: T): T {
      if None? then default else value
    }
  }

  datatype Result<+T, +E> = Ok(value: T) | Err(error: E)

  // The octets of an ASCII literal; anything else becomes a question mark.
  function Ascii(s: string): (r: CText)
    ensures |r| == |s|
  {
    var octets: seq<byte> :=
      seq(|s|, i requires 0 <= i < |s| => if 0 < s[i] as int < 0x80 then s[i] as int else 0x3f);
    assert forall i | 0 <= i < |octets| :: octets[i] != 0;
    octets
  }
}
