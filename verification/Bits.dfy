/** The C operators &, | and ^ on unsigned values, bit by bit. */
module Bits {

  function Pow2(n: nat): (r: nat)
    ensures r > 0
  {
    if n == 0 then 1 else 2 * Pow2(n - 1)
  }

  lemma PowersOfTwo()
    ensures Pow2(8) == 0x100 && Pow2(16) == 0x1_0000 && Pow2(23) == 0x80_0000 && Pow2(24) == 0x100_0000
    ensures Pow2(32) == 0x1_0000_0000
  {
    assert Pow2(16) == 256 * Pow2(8);
    assert Pow2(23) == 128 * Pow2(16);
    assert Pow2(32) == 256 * Pow2(24);
  }

  /** x << b. */
  function Shl(x: int, b: nat): (r: int)
    ensures x >= 0 ==> r >= 0
    decreases b, x
  {
    if b == 0 then x else 2 * Shl(x, b - 1)
  }

  /** The powers of two of a byte's bits. */
  function Power2(b: nat): (w: nat)
    ensures w > 0
    ensures b == 0 ==> w == 1
    ensures b > 0 ==> w % 2 == 0
  {
    match b
    case 0 => 1 case 1 => 2 case 2 => 4 case 3 => 8 case 4 => 16 case 5 => 32 case 6 => 64 case _ => 128
  }

  function And(x: nat, y: nat): nat
    decreases x
  {
    if x == 0 then 0 else (if x % 2 == 1 && y % 2 == 1 then 1 else 0) + 2 * And(x / 2, y / 2)
  }

  function Or(x: nat, y: nat): nat
    decreases x
  {
    if x == 0 then y else (if x % 2 == 1 || y % 2 == 1 then 1 else 0) + 2 * Or(x / 2, y / 2)
  }

  function Xor(x: nat, y: nat): nat
    decreases x + y
  {
    if x == 0 && y == 0 then 0 else (if x % 2 != y % 2 then 1 else 0) + 2 * Xor(x / 2, y / 2)
  }

  /** Bit i of x. */
  function BitAt(x: nat, i: nat): nat {
    if i == 0 then x % 2 else BitAt(x / 2, i - 1)
  }

  /** What the operators do to the bits. */
  lemma {:induction false} OperatorBits(x: nat, y: nat, i: nat)
    ensures BitAt(And(x, y), i) == if BitAt(x, i) == 1 && BitAt(y, i) == 1 then 1 else 0
    ensures BitAt(Or(x, y), i) == if BitAt(x, i) == 1 || BitAt(y, i) == 1 then 1 else 0
    ensures BitAt(Xor(x, y), i) == if BitAt(x, i) != BitAt(y, i) then 1 else 0
    decreases i
  {
    BitRange(x, i);
    BitRange(y, i);
    AndStep(x, y);
    OrStep(x, y);
    XorStep(x, y);
    if i > 0 {
      OperatorBits(x / 2, y / 2, i - 1);
    }
  }

  lemma {:induction false} BitRange(x: nat, i: nat)
    ensures 0 <= BitAt(x, i) <= 1
  {
    if i > 0 {
      BitRange(x / 2, i - 1);
    }
  }

  lemma OrStep(x: nat, y: nat)
    ensures Or(x, y) % 2 == (if x % 2 == 1 || y % 2 == 1 then 1 else 0)
    ensures Or(x, y) / 2 == Or(x / 2, y / 2)
  {
  }

  lemma {:induction false} XorZero(x: nat)
    ensures Xor(x, 0) == x
  {
    if x > 0 {
      XorZero(x / 2);
    }
  }

  lemma {:induction false} XorSymmetric(x: nat, y: nat)
    ensures Xor(x, y) == Xor(y, x)
    decreases x + y
  {
    if x + y > 0 {
      XorSymmetric(x / 2, y / 2);
    }
  }

  lemma XorStep(x: nat, y: nat)
    ensures Xor(x, y) % 2 == (if x % 2 != y % 2 then 1 else 0)
    ensures Xor(x, y) / 2 == Xor(x / 2, y / 2)
  {
  }

  lemma {:induction false} XorCancels(x: nat, y: nat)
    ensures Xor(x, Xor(x, y)) == y
    decreases x + y
  {
    if x + y > 0 {
      XorCancels(x / 2, y / 2);
      XorStep(x, y);
      XorStep(x, Xor(x, y));
    }
  }

  lemma {:induction false} XorEqual(x: nat, y: nat)
    ensures Xor(x, y) == 0 <==> x == y
    decreases x + y
  {
    if x + y > 0 {
      XorEqual(x / 2, y / 2);
    }
  }

  lemma {:induction false} XorBound(x: nat, y: nat, n: nat)
    requires x < Pow2(n) && y < Pow2(n)
    ensures Xor(x, y) < Pow2(n)
    decreases n
  {
    if n > 0 {
      XorBound(x / 2, y / 2, n - 1);
    }
  }

  lemma AndEven(x: nat, mask: nat)
    ensures And(x, 2 * mask) == 2 * And(x / 2, mask)
  {
    AndStep(x, 2 * mask);
  }

  lemma {:induction false} AndOnes(x: nat, n: nat)
    requires x < Pow2(n)
    ensures And(x, Pow2(n) - 1) == x
  {
    if x > 0 {
      AndOnes(x / 2, n - 1);
      assert (Pow2(n) - 1) / 2 == Pow2(n - 1) - 1;
    }
  }

  lemma {:induction false} AndZero(x: nat)
    ensures And(x, 0) == 0
  {
    if x > 0 {
      AndZero(x / 2);
    }
  }

  lemma AndStep(x: nat, y: nat)
    ensures And(x, y) == (if x % 2 == 1 && y % 2 == 1 then 1 else 0) + 2 * And(x / 2, y / 2)
  {
  }

  lemma {:induction false} AndMod(x: nat, n: nat)
    ensures And(x, Pow2(n) - 1) == x % Pow2(n)
    decreases n
  {
    if n == 0 {
      AndZero(x);
    } else {
      AndMod(x / 2, n - 1);
      HalfMod(x, Pow2(n - 1));
      AndStep(x, Pow2(n) - 1);
      assert (Pow2(n) - 1) / 2 == Pow2(n - 1) - 1;
    }
  }

  lemma HalfMod(x: nat, m: nat)
    requires m > 0
    ensures x % (2 * m) == x % 2 + 2 * ((x / 2) % m)
  {
    var q, r := (x / 2) / m, (x / 2) % m;
    assert x == 2 * m * q + (x % 2 + 2 * r) by {
      assert x / 2 == m * q + r;
    }
    DivModUnique(x, 2 * m, q, x % 2 + 2 * r);
  }

  lemma DivModUnique(x: int, m: int, q: int, r: int)
    requires m > 0 && x == m * q + r && 0 <= r < m
    ensures x / m == q && x % m == r
  {
    var d := x / m - q;
    assert m * d == r - x % m;
  }

  /** Operands without a common bit are added by |. */
  lemma {:induction false} OrDisjoint(x: nat, y: nat, n: nat)
    requires x < Pow2(n) && y % Pow2(n) == 0
    ensures Or(x, y) == x + y
  {
    if x > 0 {
      HalfMod(y, Pow2(n - 1));
      OrDisjoint(x / 2, y / 2, n - 1);
    }
  }

  lemma {:induction false} OrZero(x: nat, y: nat)
    ensures Or(x, y) == 0 <==> x == 0 && y == 0
  {
    if x > 0 {
      OrZero(x / 2, y / 2);
    }
  }
}
