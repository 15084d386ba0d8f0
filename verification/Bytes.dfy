/** Machine bytes. */
module Bytes {
  newtype byte = x: int | 0 <= x < 256

  /** Bytes, most significant first, as a number. */
  function Number(bs: seq<byte>): nat {
    if bs == [] then 0 else Number(bs[..|bs| - 1]) * 256 + bs[|bs| - 1] as nat
  }

  /** The characters of a C string up to its terminator. */
  function CString(bs: seq<byte>): seq<byte> {
    if bs == [] || bs[0] == 0 then [] else [bs[0]] + CString(bs[1..])
  }
}
