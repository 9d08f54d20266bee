/** Integer widths, byte helpers and the Option type shared by the model. */
module Common {

  type Byte = x: int | 0 <= x < 256
  type U16 = x: int | 0 <= x < 0x1_0000
  type U32 = x: int | 0 <= x < 0x1_0000_0000

  const TWO16: int := 0x1_0000
  const TWO32: int := 0x1_0000_0000

  datatype Option<+T> = None | Some(value: T)

  /** Big-endian 16-bit value of two bytes (ntohs over the wire bytes). */
  function BE16(hi: Byte, lo: Byte): (r: U16)
    ensures r / 256 == hi && r % 256 == lo
  {
    hi as int * 256 + lo
  }

  /** Big-endian 32-bit value of four bytes (ntohl over the wire bytes). */
  function BE32(b: seq<Byte>): (r: U32)
    requires |b| == 4
    ensures r / 0x100_0000 == b[0] && r % 256 == b[3]
  {
    ((b[0] as int * 256 + b[1]) * 256 + b[2]) * 256 + b[3]
  }

  function Min(a: int, b: int): int { if a < b then a else b }

  /** The bytes `fread` delivers when asked for `n` bytes at position `pos`:
      fewer than `n` when the file ends first, none past its end. */
  function Window(file: seq<Byte>, pos: nat, n: nat): (w: seq<Byte>)
    ensures |w| <= n
    ensures pos + n <= |file| ==> w == file[pos..pos + n]
  {
    file[Min(pos, |file|)..Min(pos + n, |file|)]
  }

  /** A buffer after a read of `src` into its start: the bytes read replace
      the first |src| bytes, the rest keep whatever the buffer held before. */
  function Overlay(base: seq<Byte>, src: seq<Byte>): (r: seq<Byte>)
    ensures |r| == |base|
    ensures |src| >= |base| ==> r == src[..|base|]
    ensures |src| < |base| ==> r[..|src|] == src && r[|src|..] == base[|src|..]
  {
    if |src| >= |base| then src[..|base|] else src + base[|src|..]
  }

  /** C's `/` on signed integers: the quotient rounded toward zero. */
  function TDiv(a: int, b: int): int
    requires b > 0
  {
    if a >= 0 then a / b else -((-a) / b)
  }

  /** The quotient leaves a remainder smaller than the divisor and of the
      dividend's sign. */
  lemma {:induction false} TDivBounds(a: int, b: int)
    requires b > 0
    ensures a >= 0 ==> 0 <= a - TDiv(a, b) * b < b
    ensures a < 0 ==> -b < a - TDiv(a, b) * b <= 0
  {
  }
}
