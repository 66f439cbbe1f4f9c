/** Bytes and the multi-byte fields read out of them. */
module Bytes {
  type Byte = b: int | 0 <= b < 256

  function Be16(s: seq<Byte>, i: nat): nat
    requires i + 2 <= |s|
  {
    (s[i] as int) * 256 + s[i + 1]
  }

  function Be32(s: seq<Byte>, i: nat): nat
    requires i + 4 <= |s|
  {
    Be16(s, i) * 0x1_0000 + Be16(s, i + 2)
  }

  function Le16(s: seq<Byte>, i: nat): (r: nat)
    requires i + 2 <= |s|
    ensures r < 0x1_0000
  {
    s[i] + (s[i + 1] as int) * 256
  }

  function Le32(s: seq<Byte>, i: nat): (r: nat)
    requires i + 4 <= |s|
    ensures r < 0x1_0000_0000
  {
    Le16(s, i) + Le16(s, i + 2) * 0x1_0000
  }

  function Le64(s: seq<Byte>, i: nat): (r: nat)
    requires i + 8 <= |s|
    ensures r < 0x1_0000_0000_0000_0000
  {
    Le32(s, i) + Le32(s, i + 4) * 0x1_0000_0000
  }
}
