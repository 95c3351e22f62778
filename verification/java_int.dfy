/** Java integer and byte conventions used by the server thread's packet builders. */
module JavaInt {

  /** Values of Java's 32-bit `int`. */
  type Int32 = x: int | -0x8000_0000 <= x < 0x8000_0000

  /** Java's `x >> 4` on an `int`: an arithmetic shift, which rounds toward
      negative infinity. Dafny's `/` by a positive divisor rounds the same way. */
  function ShiftRight4(x: Int32): (r: Int32)
    ensures 16 * r <= x < 16 * r + 16
  {
    x / 16
  }

  /** Java's `x & 0x0F` on an `int`: the low four bits of the two's-complement
      value, never negative. Dafny's `%` by a positive divisor is the same. */
  function Mask4(x: Int32): (r: Int32)
    ensures 0 <= r < 16
    ensures (x - r) % 16 == 0
  {
    x % 16
  }

  /** A byte's bit pattern read as an unsigned number. A Java `byte` is
      signed; the model keeps its 8 bits, so the byte -1 is 255 here. */
  type Byte = b: int | 0 <= b < 256

  /** Java's `(byte)` narrowing cast: keeps the low 8 bits. */
  function Low8(x: int): (b: Byte)
    ensures (x - b) % 256 == 0
  {
    x % 256
  }

  /** Euclidean division by 16 is pinned down by quotient and remainder. */
  lemma DivMod16(x: int, q: int, r: int)
    requires 0 <= r < 16 && x == 16 * q + r
    ensures x / 16 == q && x % 16 == r
  {}

  /** Euclidean division by 256 is pinned down by quotient and remainder. */
  lemma DivMod256(x: int, q: int, r: int)
    requires 0 <= r < 256 && x == 256 * q + r
    ensures x / 256 == q && x % 256 == r
  {}

  /** Euclidean division by 4096 is pinned down by quotient and remainder. */
  lemma DivMod4096(x: int, q: int, r: int)
    requires 0 <= r < 4096 && x == 4096 * q + r
    ensures x / 4096 == q && x % 4096 == r
  {}
}
