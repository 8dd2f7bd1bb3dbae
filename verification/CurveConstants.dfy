/** The constants d = -121665/121666 and sqrt(-1) of keypair/ge.c, and why d is not a square mod p:
    p = 5 mod 8, so 2 is not a square, while 2 d is one. */
module CurveConstants {
  import opened Power
  import opened PrimeField
  import opened PrimeModulus
  import opened EdwardsAlgebra
  import opened EdwardsComplete

  const D_RESIDUE: int := 0x52036cee2b6ffe738cc740797779e89800700a4d4141d8ab75eb4dca135978a3

  /** A square root of -1. */
  const SQRT_M1: int := 0x2b8324804fc1df0b2b4d00993dfbd7a72f431806ad2fe478c4ee1b274a0ea0b0

  /** A square root of 2 d. */
  const SQRT_2D: int := 0x7aace324fd0ac68910cb40c6304ab6b7dbb63fe1a1c15dad5c477a1b914298b0

  lemma DResidue()
    ensures Cong(121666 * D_RESIDUE, -121665)
  {
    CongMod(121666 * D_RESIDUE, -121665);
  }

  lemma MinusOneSquare()
    ensures Cong(SQRT_M1 * SQRT_M1, -1)
  {
    CongMod(SQRT_M1 * SQRT_M1, -1);
  }

  lemma TwiceDSquare()
    ensures Cong(SQRT_2D * SQRT_2D, 2 * D_RESIDUE)
  {
    CongMod(SQRT_2D * SQRT_2D, 2 * D_RESIDUE);
  }

  lemma NonzeroConstants()
    ensures !Cong(121666, 0) && !Cong(SQRT_2D, 0)
  {
    CongMod(121666, 0);
    CongMod(SQRT_2D, 0);
  }

  /** d = -121665/121666. */
  ghost function D(): (d: int)
    ensures Cong(121666 * d, -121665)
  {
    DResidue();
    var d :| Cong(121666 * d, -121665);
    d
  }

  lemma DIs(x: int)
    requires Cong(121666 * x, -121665)
    ensures Cong(x, D())
  {
    CongSym(121666 * D(), -121665);
    CongTrans(121666 * x, -121665, 121666 * D());
    NonzeroConstants();
    Cancel(121666, x, D());
  }

  lemma {:induction false} MinusOneOdd(k: nat)
    ensures Pow(-1, 2 * k) == 1 && Pow(-1, 2 * k + 1) == -1
  {
    if k > 0 {
      MinusOneOdd(k - 1);
    }
  }

  lemma FermatOne(a: int, e: nat)
    requires !Cong(a, 0) && e == P - 1
    ensures Cong(Pow(a, e), 1)
  {
    Inverse(a);
    assert Pow(a, e) == a * Pow(a, e - 1);
  }

  lemma FourthPower(i: int, a: int, b: int)
    requires Cong(i * i, -1) && Cong(b * b, i * (a * a))
    ensures Cong(Pow(b, 4), -1 * Pow(a, 4))
  {
    CongMul(b * b, i * (a * a), b * b, i * (a * a));
    CongScale((a * a) * (a * a), i * i, -1);
    Rearrange(i, a * a, i, a * a);
    CongTrans((b * b) * (b * b), (i * (a * a)) * (i * (a * a)), ((a * a) * (a * a)) * -1);
    PowFour(a);
    PowFour(b);
  }

  lemma PowFour(x: int)
    ensures Pow(x, 4) == (x * x) * (x * x)
  {
    assert Pow(x, 1) == x * Pow(x, 0);
    assert Pow(x, 2) == x * x;
    PowAdd(x, 2, 2);
  }

  lemma RootPower(i: int, a: int, b: int, k: nat)
    requires Cong(i * i, -1) && Cong(b * b, i * (a * a)) && k % 2 == 1 && Cong(Pow(a, 4 * k), 1)
    ensures Cong(Pow(b, 4 * k), -1)
  {
    FourthPower(i, a, b);
    CongPow(Pow(b, 4), -1 * Pow(a, 4), k);
    PowProduct(-1, Pow(a, 4), k);
    MinusOneOdd(k / 2);
    PowMul(a, 4, k);
    PowMul(b, 4, k);
    CongScale(-1, Pow(a, 4 * k), 1);
    CongTrans(Pow(b, 4 * k), -1 * Pow(a, 4 * k), -1);
  }

  lemma QuarterOdd() returns (k: nat)
    ensures 4 * k == P - 1 && k % 2 == 1
  {
    k := (P - 1) / 4;
  }

  lemma NotMinusOne(x: int)
    requires Cong(x, -1)
    ensures !Cong(x, 0) && !Cong(x, 1)
  {
    CongMod(x, -1);
    CongMod(x, 0);
    CongMod(x, 1);
  }

  lemma PowOfZero(b: int, e: nat)
    requires Cong(b, 0) && e > 0
    ensures Cong(Pow(b, e), 0)
  {
    CongSelf(Pow(b, e - 1));
    CongMul(b, 0, Pow(b, e - 1), Pow(b, e - 1));
  }

  /** sqrt(-1) is not the ratio of two squares, because p - 1 is 4 times an odd number. */
  lemma RootNotSquare(i: int, a: int, b: int)
    requires Cong(i * i, -1) && Cong(b * b, i * (a * a))
    ensures Cong(a, 0)
  {
    hide Pow;
    if !Cong(a, 0) {
      var k := QuarterOdd();
      FermatOne(a, 4 * k);
      RootPower(i, a, b, k);
      NotMinusOne(Pow(b, 4 * k));
      if Cong(b, 0) {
        PowOfZero(b, 4 * k);
      } else {
        FermatOne(b, 4 * k);
      }
      assert false;
    }
  }

  lemma OnePlusSquare(i: int)
    requires Cong(i * i, -1)
    ensures Cong((1 + i) * (1 + i), 2 * i)
  {
    assert (1 + i) * (1 + i) == 1 + 2 * i + i * i;
    Combine1((1 + i) * (1 + i), 2 * i, 1, i * i, -1);
  }

  lemma OnePlusRoot(i: int, r: int)
    requires Cong(i * i, -1)
    ensures Cong(((1 + i) * r) * ((1 + i) * r), (2 * i) * (r * r))
  {
    Rearrange(1 + i, r, 1 + i, r);
    OnePlusSquare(i);
    CongScale(r * r, (1 + i) * (1 + i), 2 * i);
  }

  lemma NonSquareAtoms(d: int, i: int, s: int, r: int, w: int)
    requires Cong(i * i, -1) && Cong(s * s, 2 * d) && !Cong(s, 0) && Ratio(d, r, w)
    ensures Cong(w, 0)
  {
    OnePlusRoot(i, r);
    CongScale(2 * i, r * r, d * (w * w));
    Reorder(i, d, w, s);
    CongScale(i * (w * w), s * s, 2 * d);
    CongSym((i * (w * w)) * (s * s), (i * (w * w)) * (2 * d));
    CongTrans((2 * i) * (r * r), (2 * i) * (d * (w * w)), i * ((s * w) * (s * w)));
    CongTrans(((1 + i) * r) * ((1 + i) * r), (2 * i) * (r * r), i * ((s * w) * (s * w)));
    RootNotSquare(i, s * w, (1 + i) * r);
    NoZeroDivisors(s, w);
  }

  lemma Reorder(i: int, d: int, w: int, s: int)
    ensures (2 * i) * (d * (w * w)) == (i * (w * w)) * (2 * d)
    ensures i * ((s * w) * (s * w)) == (i * (w * w)) * (s * s)
  {
    ProductOfSquares(s, w, i);
  }

  lemma NonSquareBy(d: int, i: int, s: int)
    requires Cong(i * i, -1) && Cong(s * s, 2 * d) && !Cong(s, 0)
    ensures NonSquare(d)
  {
    forall r, w | Ratio(d, r, w)
      ensures Cong(w, 0)
    {
      NonSquareAtoms(d, i, s, r, w);
    }
  }

  lemma DNonSquare()
    ensures NonSquare(D())
  {
    MinusOneSquare();
    TwiceDSquare();
    DResidue();
    DIs(D_RESIDUE);
    CongScale(2, D_RESIDUE, D());
    CongTrans(SQRT_2D * SQRT_2D, 2 * D_RESIDUE, 2 * D());
    NonzeroConstants();
    NonSquareBy(D(), SQRT_M1, SQRT_2D);
  }
}
