/** Machine integers: 64-bit wrap-around and the checked operations of common/mathutil,
    and the 256-bit words, 20-byte addresses and bytes the virtual machine works on. */
module Numbers {

  const MAX_UINT64: nat := 0xFFFF_FFFF_FFFF_FFFF
  const TWO_64: nat := 0x1_0000_0000_0000_0000
  const TWO_160: nat := 0x1_0000000000_0000000000_0000000000_0000000000
  const TWO_256: nat := 0x1_0000000000000000_0000000000000000_0000000000000000_0000000000000000

  type Byte = x: nat | x < 256
  type Uint64 = x: nat | x < TWO_64
  type Word = x: nat | x < TWO_256
  type Address = x: nat | x < TWO_160

  /** A byte slice; no slice is longer than the largest signed 64-bit number. */
  type Slice = b: seq<Byte> | |b| <= 0x7FFF_FFFF_FFFF_FFFF

  /** What an unchecked uint64 operation leaves of an exact result. */
  function Wrap(x: int): (r: Uint64)
    ensures 0 <= x < TWO_64 ==> r == x
  {
    if 0 <= x < TWO_64 then x else x % TWO_64
  }

  /** What 256-bit addition leaves of an exact sum. */
  function WrapWord(x: nat): (r: Word)
    ensures x < TWO_256 ==> r == x
  {
    if x < TWO_256 then x else x % TWO_256
  }

  /** SafeAdd: the wrapped sum and whether it overflowed. */
  function SafeAdd(x: Uint64, y: Uint64): (r: (Uint64, bool))
    ensures !r.1 ==> r.0 == x + y
    ensures r.1 <==> x + y > MAX_UINT64
  {
    (Wrap(x + y), x + y > MAX_UINT64)
  }

  /** SafeMul: the wrapped product and whether it overflowed. */
  function SafeMul(x: Uint64, y: Uint64): (r: (Uint64, bool))
    ensures !r.1 ==> r.0 == x * y
    ensures r.1 <==> x * y > MAX_UINT64
  {
    (Wrap(x * y), x * y > MAX_UINT64)
  }

  function Min(a: int, b: int): int { if a < b then a else b }

  function Max(a: int, b: int): int { if a < b then b else a }

  /** Whether a word fits in 64 bits (uint256's IsUint64). */
  predicate IsUint64(w: Word) { w <= MAX_UINT64 }

  /** The low 64 bits of a word (uint256's Uint64). */
  function Low64(w: Word): (r: Uint64)
    ensures w < TWO_64 ==> r == w
  {
    if w < TWO_64 then w else w % TWO_64
  }

  /** byte(w.Uint64()) is the low byte of the word. */
  function LowByte(w: Word): (b: Byte)
    ensures b == Low64(w) % 256
  {
    assert w == (w / TWO_64) * TWO_64 + w % TWO_64;
    assert TWO_64 == 256 * 0x100_0000_0000_0000;
    w % 256
  }

  /** The low 20 bytes of a word (uint256's Bytes20). */
  function ToAddress(w: Word): Address { w % TWO_160 }

  /** Big-endian value of a byte string. */
  function ValueOf(b: seq<Byte>): nat
  {
    if b == [] then 0 else ValueOf(b[..|b| - 1]) * 256 + b[|b| - 1]
  }

  /** The word read from at most 32 big-endian bytes (uint256's SetBytes). */
  function WordOf(b: seq<Byte>): Word { ValueOf(b) % TWO_256 }

  /** The n low bytes of a number, big endian. */
  function BytesOf(v: nat, n: nat): (r: seq<Byte>)
    ensures |r| == n
    decreases n
  {
    if n == 0 then [] else BytesOf(v / 256, n - 1) + [v % 256]
  }
}
