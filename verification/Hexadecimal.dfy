/** Hexadecimal digits as ASCII bytes. */
module Hexadecimal {
  import opened Wrappers
  import opened Positional

  function LowerHex(d: nat): (b: Byte)
    requires d < 16
  {
    if d < 10 then 48 + d else 87 + d
  }

  /** Either case. */
  function NibbleOf(b: Byte): (r: Option<nat>)
    ensures r.Some? ==> r.value < 16
  {
    if 48 <= b <= 57 then Some(b - 48)
    else if 97 <= b <= 102 then Some(b - 87)
    else if 65 <= b <= 70 then Some(b - 55)
    else None
  }
}
