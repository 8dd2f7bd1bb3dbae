/** C integer arithmetic on mathematical integers.  A C expression of type int32_t or int64_t
    is written inside I32 or I64, whose precondition is that it does not overflow. */
module Machine {
  predicate IsI32(x: int) { -0x8000_0000 <= x < 0x8000_0000 }

  predicate IsI64(x: int) { -0x8000_0000_0000_0000 <= x < 0x8000_0000_0000_0000 }

  function I32(x: int): int
    requires IsI32(x)
  {
    x
  }

  function I64(x: int): int
    requires IsI64(x)
  {
    x
  }

  /** (int) x, for x of an unsigned type: the low 32 bits, as a signed number. */
  function ToInt(x: nat): (r: int)
    ensures IsI32(r) && (x - r) % 0x1_0000_0000 == 0
    ensures x < 0x8000_0000 ==> r == x
  {
    (x + 0x8000_0000) % 0x1_0000_0000 - 0x8000_0000
  }

  /** A difference of size_t. */
  function SizeDifference(x: nat, y: nat): (r: nat)
    ensures r < 0x1_0000_0000_0000_0000 && (x - y - r) % 0x1_0000_0000_0000_0000 == 0
    ensures y <= x < 0x1_0000_0000_0000_0000 ==> r == x - y
  {
    (x - y) % 0x1_0000_0000_0000_0000
  }

  /** x, cut to a uint64_t. */
  function ToU64(x: nat): (r: nat)
    ensures r < 0x1_0000_0000_0000_0000 && (x - r) % 0x1_0000_0000_0000_0000 == 0
  {
    x % 0x1_0000_0000_0000_0000
  }

  /** A sum of uint32_t that does not wrap around. */
  function U32(x: nat): nat
    requires x < 0x1_0000_0000
  {
    x
  }

  lemma MulMonotone(a: int, b: int, c: int)
    requires 0 <= a && b <= c
    ensures a * b <= a * c
  {
  }

  lemma ProductBound(a: int, b: int, m: int, n: int)
    requires 0 <= m && 0 <= n && -m <= a <= m && -n <= b <= n
    ensures -(m * n) <= a * b <= m * n
  {
    var x := if a < 0 then -a else a;
    MulMonotone(x, b, n);
    MulMonotone(x, -b, n);
    MulMonotone(n, x, m);
    assert a == x || a == -x;
  }

  /** An int32_t times an int32_t, computed in int64_t.  The first operand of every product in
      fe.c fits 28 bits, so that a dozen products can be added without overflow. */
  function Mul(a: int, b: int): (r: int)
    requires -0xD33_3334 <= a <= 0xD33_3334 && IsI32(b)
    ensures -0x69A_0000_0000_0000 <= r <= 0x69A_0000_0000_0000
  {
    ProductBound(a, b, 0xD33_3334, 0x8000_0000);
    a * b
  }
}
