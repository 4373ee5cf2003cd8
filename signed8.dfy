/** ToSigned8 / ToUnsigned8: the conversions between a byte and a signed
    8-bit value that the BC4/BC5 SNORM paths use. */
module Signed8 {

  /** Reads a byte as a two's-complement value; out-of-range inputs become
      -1 (above 255) or 0 (below 0). */
  function ToSigned8(v: int): (s: int)
    ensures -128 <= s <= 127
    ensures 0 <= v <= 255 ==> (s - v) % 256 == 0 && (s < 0 <==> v > 127)
    ensures v > 255 ==> s == -1
    ensures v < 0 ==> s == 0
  {
    if v > 255 then -1
    else if v < 0 then 0
    else if v > 127 then v - 256
    else v
  }

  /** Encodes a signed value as a byte; values above 127 become 127 and
      values below -128 become 128, the encoding of -128. */
  function ToUnsigned8(v: int): (u: int)
    ensures 0 <= u <= 255
    ensures -128 <= v <= 127 ==> (u - v) % 256 == 0 && (u > 127 <==> v < 0)
    ensures v > 127 ==> u == 127
    ensures v < -128 ==> u == 128
  {
    if v > 127 then 127
    else if v < -128 then 128
    else if v < 0 then v + 256
    else v
  }

  /** The two conversions are inverse on their 8-bit ranges. */
  lemma RoundTrips(v: int, s: int)
    ensures 0 <= v <= 255 ==> ToUnsigned8(ToSigned8(v)) == v
    ensures -128 <= s <= 127 ==> ToSigned8(ToUnsigned8(s)) == s
  {
  }

  function Clamp8(v: int): int
  {
    if v > 127 then 127 else if v < -128 then -128 else v
  }

  /** Encoding and decoding back saturates every integer to -128 .. 127. */
  lemma UnsignedSaturates(v: int)
    ensures ToSigned8(ToUnsigned8(v)) == Clamp8(v)
  {
  }
}
