/**
 * The JVM integer and floating-point views the app's code relies on:
 * signed 16-bit `Short` samples read back as unsigned (`toInt() and 0xFFFF`),
 * signed bytes (`toByte()` and `and 0xFF`), and Kotlin's truncating
 * `toInt()` and `%` on floating-point values, here taken over exact reals.
 */
module Jvm {

  /** A Kotlin `Short`, as stored in a `ShortArray` or a `ShortBuffer`. */
  type Short = x: int | -32768 <= x < 32768

  /** A Kotlin `Byte`, as stored in a `ByteArray`. */
  type Byte = x: int | -128 <= x < 128

  /** The largest Kotlin `Int`. */
  const INT_MAX: int := 0x7FFF_FFFF

  /** `s.toInt() and 0xFFFF`: the sample read as an unsigned 16-bit value. */
  function U16(s: Short): (v: nat)
    ensures v < 65536
    ensures s >= 0 ==> v == s
    ensures s < 0 ==> v == s + 65536
  {
    if s < 0 then s + 65536 else s
  }

  /** `x.toByte()`: keeps the low 8 bits of `x`, read as two's complement. */
  function ToByte(x: int): (b: Byte)
    ensures (b - x) % 256 == 0
  {
    var m := x % 256;
    if m >= 128 then m - 256 else m
  }

  /** `b.toInt() and 0xFF`: the byte read as unsigned. */
  function UByte(b: Byte): (v: nat)
    ensures v < 256
    ensures (v - b) % 256 == 0
  {
    if b < 0 then b + 256 else b
  }

  /** Reading back a byte made by `toByte()` gives the low 8 bits of the original value. */
  lemma UByteOfToByte(x: int)
    ensures UByte(ToByte(x)) == x % 256
  {
  }

  /** Kotlin's `toInt()` on a floating-point value: rounds toward zero. */
  function TruncToInt(x: real): (n: int)
    ensures x >= 0.0 ==> n as real <= x < n as real + 1.0
    ensures x < 0.0 ==> n as real - 1.0 < x <= n as real
  {
    if x >= 0.0 then x.Floor else -((-x).Floor)
  }

  /** Kotlin's `a % 8` on `Int`: the remainder of the truncated quotient, which has
      the sign of the dividend. */
  function Rem8(a: int): (r: int)
    ensures a >= 0 ==> r == a % 8
    ensures a < 0 ==> -8 < r <= 0 && (a - r) % 8 == 0
  {
    if a >= 0 then a % 8 else -((-a) % 8)
  }

  /** `Math.round(x)` on a `Float`: the nearest integer, halves rounded up. */
  function Round(x: real): (n: int)
    ensures n as real - 0.5 <= x < n as real + 0.5
  {
    (x + 0.5).Floor
  }

  /** Kotlin's `x % 360.0` on floating-point values: the remainder of the truncated
      quotient, which has the sign of the dividend. */
  function Rem360(x: real): (r: real)
    ensures x >= 0.0 ==> 0.0 <= r < 360.0
    ensures x < 0.0 ==> -360.0 < r <= 0.0
  {
    x - 360.0 * (TruncToInt(x / 360.0) as real)
  }

  /** The Euclidean remainder modulo 360: always in [0, 360). */
  function Mod360(x: real): (r: real)
    ensures 0.0 <= r < 360.0
    ensures (x - r) / 360.0 == ((x - r) / 360.0).Floor as real
  {
    x - 360.0 * ((x / 360.0).Floor as real)
  }

  /** The two remainders agree on non-negative dividends. */
  lemma Rem360IsMod360OnNonNegative(x: real)
    requires x >= 0.0
    ensures Rem360(x) == Mod360(x)
  {
  }
}
