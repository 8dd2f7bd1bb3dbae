/** The field operations of keypair/fe.c.  The result array of a C function is the result of the method:
    every one of these functions reads its operands before it writes, so a call whose result array is
    also an operand is the assignment h := FeMul(h, g, ...). */
module FieldOps {
  import opened Machine
  import opened Bits
  import opened PrimeField
  import opened FieldElement
  import opened FieldProduct

  // -------------------------------------------------------------------------------------------
  // Constants, copies, sums
  // -------------------------------------------------------------------------------------------

  predicate FitsI32(t: Limbs) {
    forall i :: 0 <= i < 10 ==> IsI32(t[i])
  }

  /** Ten limbs stored as int32_t. */
  function Stored(t: Limbs): Limbs
    requires FitsI32(t)
  {
    t
  }

  lemma ConstantValue(c: int)
    ensures Val([c, 0, 0, 0, 0, 0, 0, 0, 0, 0]) == c
  {
    ValExplicit([c, 0, 0, 0, 0, 0, 0, 0, 0, 0]);
  }

  /** fe_0 and fe_1. */
  method FeConst(c: int) returns (h: Limbs)
    requires 0 <= c <= 1
    ensures Val(h) == c && Within(h, 1)
  {
    h := Stored([c, 0, 0, 0, 0, 0, 0, 0, 0, 0]);
    ConstantValue(c);
  }

  function Sum(f: Limbs, g: Limbs): Limbs {
    seq(10, i requires 0 <= i < 10 => f[i] + g[i])
  }

  function Difference(f: Limbs, g: Limbs): Limbs {
    seq(10, i requires 0 <= i < 10 => f[i] - g[i])
  }

  lemma {:induction false} SumFrom(f: Limbs, g: Limbs, i: nat)
    requires i <= 10
    ensures ValFrom(Sum(f, g), i) == ValFrom(f, i) + ValFrom(g, i)
    ensures ValFrom(Difference(f, g), i) == ValFrom(f, i) - ValFrom(g, i)
    decreases 10 - i
  {
    if i < 10 {
      SumFrom(f, g, i + 1);
    }
  }

  /** The bounds of the operands add up, whatever they are. */
  lemma SumWithin(f: Limbs, g: Limbs, c: int, d: int)
    requires Within(f, c) && Within(g, d)
    ensures Within(Sum(f, g), c + d) && Within(Difference(f, g), c + d)
  {
  }

  lemma WithinFits(f: Limbs, c: int)
    requires Within(f, c) && c <= 6000
    ensures forall i :: 0 <= i < 10 ==> IsI32(f[i])
  {
  }

  /** h = f + g.  The bounds c and d are the caller's: ge.c passes operands above those that the
      comment at fe_add asks for. */
  method FeAdd(f: Limbs, g: Limbs, ghost c: int, ghost d: int) returns (h: Limbs)
    requires Within(f, c) && Within(g, d) && c + d <= 6000
    ensures Val(h) == Val(f) + Val(g) && Within(h, c + d)
  {
    SumFrom(f, g, 0);
    SumWithin(f, g, c, d);
    WithinFits(Sum(f, g), c + d);
    h := Stored(Sum(f, g));
  }

  method FeSub(f: Limbs, g: Limbs, ghost c: int, ghost d: int) returns (h: Limbs)
    requires Within(f, c) && Within(g, d) && c + d <= 6000
    ensures Val(h) == Val(f) - Val(g) && Within(h, c + d)
  {
    SumFrom(f, g, 0);
    SumWithin(f, g, c, d);
    WithinFits(Difference(f, g), c + d);
    h := Stored(Difference(f, g));
  }

  method FeNeg(f: Limbs, ghost c: int) returns (h: Limbs)
    requires Within(f, c) && c <= 6000
    ensures Val(h) == -Val(f) && Within(h, c)
  {
    var zero: Limbs := [0, 0, 0, 0, 0, 0, 0, 0, 0, 0];
    ConstantValue(0);
    SumFrom(zero, f, 0);
    SumWithin(zero, f, 0, c);
    WithinFits(Difference(zero, f), c);
    h := Stored(Difference(zero, f));
  }

  // -------------------------------------------------------------------------------------------
  // Products
  // -------------------------------------------------------------------------------------------

  /** h = f g for operands up to 1.65 * 2^26. */
  method FeMul(f: Limbs, g: Limbs, ghost c: int, ghost d: int) returns (h: Limbs)
    requires Within(f, c) && Within(g, d) && c <= 330 && d <= 330
    ensures Cong(Val(h), Val(f) * Val(g)) && Within(h, 101)
  {
    WithinMonotone(f, c, 330);
    WithinMonotone(g, d, 330);
    var r := Multiply(f, g);
    MulLimbsValue(f, g);
    WithinFits(r, 101);
    h := Stored(r);
  }

  method FeSq(f: Limbs, ghost c: int) returns (h: Limbs)
    requires Within(f, c) && c <= 330
    ensures Cong(Val(h), Val(f) * Val(f)) && Within(h, 101)
  {
    WithinMonotone(f, c, 330);
    var r := Square(f);
    MulLimbsValue(f, f);
    WithinFits(r, 101);
    h := Stored(r);
  }

  /** h = 2 f^2. */
  method FeSq2(f: Limbs, ghost c: int) returns (h: Limbs)
    requires Within(f, c) && c <= 330
    ensures Cong(Val(h), 2 * (Val(f) * Val(f))) && Within(h, 101)
  {
    WithinMonotone(f, c, 330);
    var r := SquareTwice(f);
    WithinFits(r, 101);
    h := Stored(r);
  }

  function Times121666(f: Limbs): Limbs {
    seq(10, i requires 0 <= i < 10 => f[i] * 121666)
  }

  lemma {:induction false} Times121666From(f: Limbs, i: nat)
    requires i <= 10
    ensures ValFrom(Times121666(f), i) == 121666 * ValFrom(f, i)
    decreases 10 - i
  {
    if i < 10 {
      Times121666From(f, i + 1);
    }
  }

  lemma Times121666Small(f: Limbs)
    requires Within(f, 220)
    ensures Small(Times121666(f), 0x1000_0000_0000)
  {
  }

  method FeMul121666(f: Limbs, ghost c: int) returns (h: Limbs)
    requires Within(f, c) && c <= 220
    ensures Cong(Val(h), 121666 * Val(f)) && Within(h, 110)
  {
    WithinMonotone(f, c, 220);
    Times121666Small(f);
    Times121666From(f, 0);
    var r := CarryShort(Times121666(f));
    WithinFits(r, 110);
    h := Stored(r);
  }

  // -------------------------------------------------------------------------------------------
  // Branch-free selection
  // -------------------------------------------------------------------------------------------

  /** The unsigned word that shares its 32 bits with the int x. */
  function Word(x: int): (w: nat)
    ensures w < 0x1_0000_0000
  {
    x % 0x1_0000_0000
  }

  function Signed(w: nat): int {
    if w < 0x8000_0000 then w else w - 0x1_0000_0000
  }

  lemma SignedWord(x: int)
    requires IsI32(x)
    ensures Signed(Word(x)) == x
  {
  }

  lemma Pow2Of32()
    ensures Pow2(32) == 0x1_0000_0000
  {
    PowersOfTwo();
  }

  lemma AndAllOnes(x: nat)
    requires x < 0x1_0000_0000
    ensures And(x, 0xFFFF_FFFF) == x
  {
    Pow2Of32();
    AndOnes(x, 32);
  }

  lemma WordOfMask(bit: int)
    requires 0 <= bit <= 1
    ensures Word(-bit) == if bit == 1 then 0xFFFF_FFFF else 0
  {
  }

  /** x & -bit, for a word x. */
  lemma MaskBit(x: nat, bit: int)
    requires x < 0x1_0000_0000 && 0 <= bit <= 1
    ensures And(x, Word(-bit)) == if bit == 1 then x else 0
  {
    hide And;
    WordOfMask(bit);
    AndAllOnes(x);
    AndZero(x);
  }

  lemma XorWord(x: nat, y: nat)
    requires x < 0x1_0000_0000 && y < 0x1_0000_0000
    ensures Xor(x, y) < 0x1_0000_0000
  {
    Pow2Of32();
    XorBound(x, y, 32);
  }

  /** f ^ ((f ^ g) & b) on int32_t operands, for the mask b = -bit. */
  function Masked(f: int, g: int, bit: int): int {
    Signed(Xor(Word(f), And(Xor(Word(f), Word(g)), Word(-bit))))
  }

  lemma MaskedSelects(f: int, g: int, bit: int)
    requires IsI32(f) && IsI32(g) && 0 <= bit <= 1
    ensures Masked(f, g, bit) == if bit == 1 then g else f
  {
    SignedWord(f);
    SignedWord(g);
    XorWord(Word(f), Word(g));
    MaskBit(Xor(Word(f), Word(g)), bit);
    XorCancels(Word(f), Word(g));
    XorZero(Word(f));
  }

  /** The limbs f ^ ((f ^ g) & -b). */
  function Selected(x: Limbs, y: Limbs, b: int): Limbs {
    seq(10, i requires 0 <= i < 10 => Masked(x[i], y[i], b))
  }

  lemma SelectedLimbs(x: Limbs, y: Limbs, b: int)
    requires FitsI32(x) && FitsI32(y) && 0 <= b <= 1
    ensures Selected(x, y, b) == if b == 1 then y else x
  {
    forall i | 0 <= i < 10
      ensures Masked(x[i], y[i], b) == if b == 1 then y[i] else x[i]
    {
      MaskedSelects(x[i], y[i], b);
    }
  }

  /** g when b is 1, f when b is 0. */
  method FeCmov(f: Limbs, g: Limbs, b: nat) returns (h: Limbs)
    requires b <= 1 && FitsI32(f) && FitsI32(g)
    ensures h == if b == 1 then g else f
  {
    SelectedLimbs(f, g, b);
    h := Stored(Selected(f, g, b));
  }

  /** f and g, swapped when b is 1. */
  method FeCswap(f: Limbs, g: Limbs, b: nat) returns (x: Limbs, y: Limbs)
    requires b <= 1 && FitsI32(f) && FitsI32(g)
    ensures x == if b == 1 then g else f
    ensures y == if b == 1 then f else g
  {
    SelectedLimbs(f, g, b);
    SelectedLimbs(g, f, b);
    x, y := Stored(Selected(f, g, b)), Stored(Selected(g, f, b));
  }
}
