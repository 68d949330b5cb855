// Go's fixed-width unsigned arithmetic, written out where the source relies on it.
module Ints {

  const U32: nat := 0x1_0000_0000
  const U64: nat := 0x1_0000_0000_0000_0000
  const MaxUint32: nat := U32 - 1
  const MaxUint64: nat := U64 - 1
  const MaxInt64: nat := 0x7FFF_FFFF_FFFF_FFFF

  predicate IsU32(x: int) { 0 <= x < U32 }
  predicate IsU64(x: int) { 0 <= x < U64 }

  /** uint32 addition, wrapping modulo 2^32. */
  function Add32(a: nat, b: nat): (r: nat)
    ensures IsU32(r)
    ensures a + b < U32 ==> r == a + b
  {
    (a + b) % U32
  }

  /** uint32 subtraction, wrapping below zero. */
  function Sub32(a: nat, b: nat): (r: nat)
    ensures IsU32(r)
    ensures IsU32(a) && b <= a ==> r == a - b
    ensures IsU32(b) && a < b ==> r == U32 + a - b
  {
    (a - b) % U32
  }

  /** uint32 multiplication, wrapping modulo 2^32. */
  function Mul32(a: nat, b: nat): (r: nat)
    ensures IsU32(r)
    ensures a * b < U32 ==> r == a * b
  {
    (a * b) % U32
  }

  /** uint64 addition, wrapping modulo 2^64. */
  function Add64(a: nat, b: nat): (r: nat)
    ensures IsU64(r)
    ensures a + b < U64 ==> r == a + b
  {
    (a + b) % U64
  }

  /** uint64 subtraction, wrapping below zero. */
  function Sub64(a: nat, b: nat): (r: nat)
    ensures IsU64(r)
    ensures IsU64(a) && b <= a ==> r == a - b
    ensures IsU64(b) && a < b ==> r == U64 + a - b
  {
    (a - b) % U64
  }

  /** uint64 multiplication, wrapping modulo 2^64. */
  function Mul64(a: nat, b: nat): (r: nat)
    ensures IsU64(r)
    ensures a * b < U64 ==> r == a * b
  {
    (a * b) % U64
  }

  /** Wrapping is compatible with further additions: reducing early or
      late gives the same uint64. */
  lemma ModAdd64(x: int, y: int)
    ensures (x % U64 + y) % U64 == (x + y) % U64
  {
    var q := x / U64;
    assert x == q * U64 + x % U64;
    assert x + y == (x % U64 + y) + q * U64;
    ModMultiple(x % U64 + y, q);
  }

  lemma ModMultiple(z: int, q: int)
    ensures (z + q * U64) % U64 == z % U64
  {
    var r := z % U64;
    var k := z / U64;
    assert z + q * U64 == (k + q) * U64 + r;
  }

  /** Go's conversion of an integer to int64, keeping the low 64 bits as a
      two's-complement value (what `big.Int.Int64` and `int64(uint)` do). */
  function ToInt64(x: int): (r: int)
    ensures -(MaxInt64 as int) - 1 <= r <= MaxInt64
    ensures -(MaxInt64 as int) - 1 <= x <= MaxInt64 ==> r == x
    ensures (r - x) % U64 == 0
  {
    var low := x % U64;
    if low <= MaxInt64 then low else low - U64
  }
}
