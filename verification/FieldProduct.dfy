/** fe_mul, fe_sq and fe_sq2 on limb values: the schoolbook product with 2^255 = 19, then twelve
    carries (keypair/fe.c). */
module FieldProduct {
  import opened Machine
  import opened PrimeField
  import opened FieldElement

  // -------------------------------------------------------------------------------------------
  // The carry chain shared by fe_mul, fe_sq and fe_sq2
  // -------------------------------------------------------------------------------------------

  /** The two carry chains of fe.c: that of fe_mul, fe_sq and fe_sq2 carries limbs 0, 4, 1, 5, 2, 6,
      3, 7, 4, 8, 9, 0; that of fe_mul121666 and fe_frombytes carries 9, 1, 3, 5, 7, 0, 2, 4, 6, 8. */
  datatype Chain = Long | Short

  function Order(chain: Chain, k: nat): (i: nat)
    ensures i < 10
  {
    match chain
    case Long => (
      match k
      case 0 => 0 case 1 => 4 case 2 => 1 case 3 => 5 case 4 => 2 case 5 => 6
      case 6 => 3 case 7 => 7 case 8 => 4 case 9 => 8 case 10 => 9 case _ => 0
    )
    case Short => (
      match k
      case 0 => 9 case 1 => 1 case 2 => 3 case 3 => 5 case 4 => 7
      case 5 => 0 case 6 => 2 case 7 => 4 case 8 => 6 case _ => 8
    )
  }

  /** The limbs after the first n carries. */
  ghost function ChainCarried(chain: Chain, h: Limbs, n: nat): (r: Limbs)
    requires n <= 12 && Small(h, 0x5000_0000_0000_0000)
    ensures Small(r, 0x5000_0000_0000_0000 + n * 0x800_0000_0000)
    decreases n, h
  {
    if n == 0 then h
    else
      CarriedSmall(ChainCarried(chain, h, n - 1), Order(chain, n - 1),
                   0x5000_0000_0000_0000 + (n - 1) * 0x800_0000_0000);
      Carried(ChainCarried(chain, h, n - 1), Order(chain, n - 1))
  }

  lemma CarriedCong(h: Limbs, i: nat, v: int)
    requires i < 10 && Cong(Val(h), v)
    ensures Cong(Val(Carried(h, i)), v)
  {
    CarriedValue(h, i);
    CongTrans(Val(Carried(h, i)), Val(h), v);
  }

  lemma {:induction false} ChainCarriedValue(chain: Chain, h: Limbs, n: nat)
    requires n <= 12 && Small(h, 0x5000_0000_0000_0000)
    ensures Cong(Val(ChainCarried(chain, h, n)), Val(h))
  {
    if n == 0 {
      CongBy(Val(h), Val(h), 0);
    } else {
      ChainCarriedValue(chain, h, n - 1);
      CarriedCong(ChainCarried(chain, h, n - 1), Order(chain, n - 1), Val(h));
    }
  }

  /** Carry number n of the chain for h, which is out of limb i. */
  method ChainCarry(ghost chain: Chain, ghost h: Limbs, ghost n: nat, s: Limbs, i: nat) returns (r: Limbs)
    requires n < 12 && i == Order(chain, n)
    requires Small(h, 0x5000_0000_0000_0000) && s == ChainCarried(chain, h, n)
    ensures r == ChainCarried(chain, h, n + 1)
    ensures if i % 2 == 0 then -0x200_0000 <= r[i] < 0x200_0000 else -0x100_0000 <= r[i] < 0x100_0000
    ensures forall j :: 0 <= j < 10 && j != i && j != (i + 1) % 10 ==> r[j] == s[j]
    ensures var x, d := (if s[i] < 0 then -s[i] else s[i]), r[(i + 1) % 10] - s[(i + 1) % 10];
            if i == 9 then -19 * (x + 0x100_0000) <= 0x200_0000 * d <= 19 * (x + 0x100_0000)
            else if i % 2 == 1 then -x - 0x100_0000 <= 0x200_0000 * d <= x + 0x100_0000
            else -x - 0x200_0000 <= 0x400_0000 * d <= x + 0x200_0000
  {
    r := Carry(s, i, 0x5000_0000_0000_0000 + n * 0x800_0000_0000);
  }

  method CarryFirst(h: Limbs) returns (r: Limbs)
    requires Small(h, 0x5000_0000_0000_0000)
    ensures r == ChainCarried(Long, h, 6)
    ensures -0x200_0000 <= r[0] <= 0x200_0000 && -0x100_0000 <= r[1] <= 0x100_0000
    ensures -0x200_0000 <= r[2] <= 0x200_0000 && -0x200_0000 <= r[4] <= 0x200_0000
    ensures -0x100_0000 <= r[5] <= 0x100_0000 && -0x200_0000 <= r[6] <= 0x200_0000
  {
    r := ChainCarry(Long, h, 0, h, 0);
    r := ChainCarry(Long, h, 1, r, 4);
    r := ChainCarry(Long, h, 2, r, 1);
    r := ChainCarry(Long, h, 3, r, 5);
    r := ChainCarry(Long, h, 4, r, 2);
    r := ChainCarry(Long, h, 5, r, 6);
  }

  method CarryMiddle(ghost h: Limbs, s: Limbs) returns (r: Limbs)
    requires Small(h, 0x5000_0000_0000_0000) && s == ChainCarried(Long, h, 6)
    requires -0x200_0000 <= s[4] <= 0x200_0000 && -0x100_0000 <= s[5] <= 0x100_0000
    ensures r == ChainCarried(Long, h, 9)
    ensures r[0] == s[0] && r[1] == s[1] && r[2] == s[2] && r[6] == s[6]
    ensures -0x100_0000 <= r[3] <= 0x100_0000 && -0x200_0000 <= r[4] <= 0x200_0000
    ensures -0x101_0000 <= r[5] <= 0x101_0000 && -0x100_0000 <= r[7] <= 0x100_0000
  {
    r := ChainCarry(Long, h, 6, s, 3);
    r := ChainCarry(Long, h, 7, r, 7);
    r := ChainCarry(Long, h, 8, r, 4);
  }

  method CarryLast(ghost h: Limbs, s: Limbs) returns (r: Limbs)
    requires Small(h, 0x5000_0000_0000_0000) && s == ChainCarried(Long, h, 9)
    requires -0x200_0000 <= s[0] <= 0x200_0000 && -0x100_0000 <= s[1] <= 0x100_0000
    ensures r == ChainCarried(Long, h, 12)
    ensures forall i :: 2 <= i < 8 ==> r[i] == s[i]
    ensures -0x200_0000 <= r[0] <= 0x200_0000 && -0x102_0000 <= r[1] <= 0x102_0000
    ensures -0x200_0000 <= r[8] <= 0x200_0000 && -0x100_0000 <= r[9] <= 0x100_0000
  {
    r := ChainCarry(Long, h, 9, s, 8);
    r := ChainCarry(Long, h, 10, r, 9);
    r := ChainCarry(Long, h, 11, r, 0);
  }

  method CarryMul(h: Limbs) returns (r: Limbs)
    requires Small(h, 0x5000_0000_0000_0000)
    ensures r == ChainCarried(Long, h, 12) && Within(r, 101)
  {
    r := CarryFirst(h);
    r := CarryMiddle(h, r);
    r := CarryLast(h, r);
    WithinFrom(r, 0x102_0000, 101);
  }

  /** Carries 9, 1, 3, 5, 7. */
  method CarryOdd(h: Limbs) returns (r: Limbs)
    requires Small(h, 0x1000_0000_0000)
    ensures r == ChainCarried(Short, h, 5)
    ensures -0x2000_0000_0000 <= r[0] <= 0x2000_0000_0000 && -0x100_0000 <= r[1] <= 0x100_0000
    ensures -0x2000_0000_0000 <= r[2] <= 0x2000_0000_0000 && -0x100_0000 <= r[3] <= 0x100_0000
    ensures -0x2000_0000_0000 <= r[4] <= 0x2000_0000_0000 && -0x100_0000 <= r[5] <= 0x100_0000
    ensures -0x2000_0000_0000 <= r[6] <= 0x2000_0000_0000 && -0x100_0000 <= r[7] <= 0x100_0000
    ensures -0x2000_0000_0000 <= r[8] <= 0x2000_0000_0000 && -0x100_0000 <= r[9] <= 0x100_0000
  {
    r := ChainCarry(Short, h, 0, h, 9);
    r := ChainCarry(Short, h, 1, r, 1);
    r := ChainCarry(Short, h, 2, r, 3);
    r := ChainCarry(Short, h, 3, r, 5);
    r := ChainCarry(Short, h, 4, r, 7);
  }

  /** The short chain: carries 9, 1, 3, 5, 7, 0, 2, 4, 6, 8. */
  method CarryShort(h: Limbs) returns (r: Limbs)
    requires Small(h, 0x1000_0000_0000)
    ensures Cong(Val(r), Val(h)) && Within(r, 110)
  {
    r := CarryOdd(h);
    r := ChainCarry(Short, h, 5, r, 0);
    r := ChainCarry(Short, h, 6, r, 2);
    r := ChainCarry(Short, h, 7, r, 4);
    r := ChainCarry(Short, h, 8, r, 6);
    r := ChainCarry(Short, h, 9, r, 8);
    WithinFrom(r, 0x110_0000, 110);
    ChainCarriedValue(Short, h, 10);
  }

  // -------------------------------------------------------------------------------------------
  // The product before carrying
  // -------------------------------------------------------------------------------------------

  /** Five limbs of radix 2^51: the even limbs of a field element, or its odd limbs. */
  type Five = s: seq<int> | |s| == 5 witness [0, 0, 0, 0, 0]

  function Val51(a: Five): int {
    a[0] + 0x8_0000_0000_0000 * (a[1] + 0x8_0000_0000_0000 * (a[2] + 0x8_0000_0000_0000 *
      (a[3] + 0x8_0000_0000_0000 * a[4])))
  }

  function Evens(h: Limbs): Five {
    [h[0], h[2], h[4], h[6], h[8]]
  }

  function Odds(h: Limbs): Five {
    [h[1], h[3], h[5], h[7], h[9]]
  }

  lemma ValSplit(h: Limbs)
    ensures Val(h) == Val51(Evens(h)) + 0x400_0000 * Val51(Odds(h))
  {
    ValExplicit(h);
  }

  function CyclicTerm(a: Five, b: Five, c: nat, i: nat): int
    requires c < 5 && i < 5
  {
    if i <= c then a[i] * b[c - i] else 19 * (a[i] * b[c - i + 5])
  }

  /** Limb c of the product of two radix-2^51 numbers, with (2^51)^5 = 19. */
  function Cyclic(a: Five, b: Five, c: nat): int
    requires c < 5
  {
    CyclicTerm(a, b, c, 0) + CyclicTerm(a, b, c, 1) + CyclicTerm(a, b, c, 2) + CyclicTerm(a, b, c, 3)
    + CyclicTerm(a, b, c, 4)
  }

  function CyclicProduct(a: Five, b: Five): Five {
    [Cyclic(a, b, 0), Cyclic(a, b, 1), Cyclic(a, b, 2), Cyclic(a, b, 3), Cyclic(a, b, 4)]
  }

  lemma ScaleVal51(x: int, b: Five)
    ensures x * Val51(b) == x * b[0] + 0x8_0000_0000_0000 * (x * b[1] + 0x8_0000_0000_0000 *
                            (x * b[2] + 0x8_0000_0000_0000 * (x * b[3] + 0x8_0000_0000_0000 * (x * b[4]))))
  {
  }

  lemma CyclicValue(a: Five, b: Five)
    ensures Cong(Val51(CyclicProduct(a, b)), Val51(a) * Val51(b))
  {
    ScaleVal51(Val51(b), a);
    ScaleVal51(a[0], b);
    ScaleVal51(a[1], b);
    ScaleVal51(a[2], b);
    ScaleVal51(a[3], b);
    ScaleVal51(a[4], b);
    var high := [a[1] * b[4] + a[2] * b[3] + a[3] * b[2] + a[4] * b[1],
                 a[2] * b[4] + a[3] * b[3] + a[4] * b[2], a[3] * b[4] + a[4] * b[3], a[4] * b[4], 0];
    CongBy(Val51(CyclicProduct(a, b)), Val51(a) * Val51(b), -Val51(high));
  }

  /** The limbs of ee + 2^52 oo + 2^26 (eo + oe). */
  function Assembled(ee: Five, oo: Five, eo: Five, oe: Five): Limbs {
    [
      ee[0] + 38 * oo[4], eo[0] + oe[0],
      ee[1] + 2 * oo[0], eo[1] + oe[1],
      ee[2] + 2 * oo[1], eo[2] + oe[2],
      ee[3] + 2 * oo[2], eo[3] + oe[3],
      ee[4] + 2 * oo[3], eo[4] + oe[4]
    ]
  }

  lemma AssembledValue(ee: Five, oo: Five, eo: Five, oe: Five)
    ensures Cong(Val(Assembled(ee, oo, eo, oe)),
                 Val51(ee) + 0x10_0000_0000_0000 * Val51(oo) + 0x400_0000 * (Val51(eo) + Val51(oe)))
  {
    var h := Assembled(ee, oo, eo, oe);
    ValSplit(h);
    assert Val51(Odds(h)) == Val51(eo) + Val51(oe);
    assert Val51(Evens(h)) == Val51(ee) + 0x10_0000_0000_0000 * Val51(oo) - P * (2 * oo[4]);
    CongBy(Val(h), Val51(ee) + 0x10_0000_0000_0000 * Val51(oo) + 0x400_0000 * (Val51(eo) + Val51(oe)), -2 * oo[4]);
  }

  /** The limbs of the product f g before any carry. */
  function Product(f: Limbs, g: Limbs): Limbs {
    Assembled(CyclicProduct(Evens(f), Evens(g)), CyclicProduct(Odds(f), Odds(g)),
              CyclicProduct(Evens(f), Odds(g)), CyclicProduct(Odds(f), Evens(g)))
  }

  lemma Foil(h: int, a: int, b: int, c: int, d: int, ac: int, bd: int, ad: int, bc: int)
    requires Cong(ac, a * c) && Cong(bd, b * d) && Cong(ad, a * d) && Cong(bc, b * c)
    requires Cong(h, ac + 0x10_0000_0000_0000 * bd + 0x400_0000 * (ad + bc))
    ensures Cong(h, (a + 0x400_0000 * b) * (c + 0x400_0000 * d))
  {
    CongScale(0x10_0000_0000_0000, bd, b * d);
    CongAdd(ad, a * d, bc, b * c);
    CongScale(0x400_0000, ad + bc, a * d + b * c);
    CongAdd(ac, a * c, 0x10_0000_0000_0000 * bd, 0x10_0000_0000_0000 * (b * d));
    CongAdd(ac + 0x10_0000_0000_0000 * bd, a * c + 0x10_0000_0000_0000 * (b * d),
            0x400_0000 * (ad + bc), 0x400_0000 * (a * d + b * c));
    var r := a * c + 0x10_0000_0000_0000 * (b * d) + 0x400_0000 * (a * d + b * c);
    assert (a + 0x400_0000 * b) * (c + 0x400_0000 * d) == r;
    CongTrans(h, ac + 0x10_0000_0000_0000 * bd + 0x400_0000 * (ad + bc), r);
  }

  lemma AssembledProduct(a: int, b: int, c: int, d: int, ee: Five, oo: Five, eo: Five, oe: Five)
    requires Cong(Val51(ee), a * c) && Cong(Val51(oo), b * d) && Cong(Val51(eo), a * d) && Cong(Val51(oe), b * c)
    ensures Cong(Val(Assembled(ee, oo, eo, oe)), (a + 0x400_0000 * b) * (c + 0x400_0000 * d))
  {
    AssembledValue(ee, oo, eo, oe);
    Foil(Val(Assembled(ee, oo, eo, oe)), a, b, c, d, Val51(ee), Val51(oo), Val51(eo), Val51(oe));
  }

  lemma ProductValue(f: Limbs, g: Limbs)
    ensures Cong(Val(Product(f, g)), Val(f) * Val(g))
  {
    CyclicValue(Evens(f), Evens(g));
    CyclicValue(Odds(f), Odds(g));
    CyclicValue(Evens(f), Odds(g));
    CyclicValue(Odds(f), Evens(g));
    AssembledProduct(Val51(Evens(f)), Val51(Odds(f)), Val51(Evens(g)), Val51(Odds(g)),
                     CyclicProduct(Evens(f), Evens(g)), CyclicProduct(Odds(f), Odds(g)),
                     CyclicProduct(Evens(f), Odds(g)), CyclicProduct(Odds(f), Evens(g)));
    ValSplit(f);
    ValSplit(g);
  }

  /** The reduced limbs of f g that fe_mul computes. */
  ghost function MulLimbs(f: Limbs, g: Limbs): Limbs
    requires Small(Product(f, g), 0x5000_0000_0000_0000)
  {
    ChainCarried(Long, Product(f, g), 12)
  }

  lemma MulLimbsValue(f: Limbs, g: Limbs)
    requires Small(Product(f, g), 0x5000_0000_0000_0000)
    ensures Cong(Val(MulLimbs(f, g)), Val(f) * Val(g))
  {
    ChainCarriedValue(Long, Product(f, g), 12);
    ProductValue(f, g);
    CongTrans(Val(MulLimbs(f, g)), Val(Product(f, g)), Val(f) * Val(g));
  }

  // -------------------------------------------------------------------------------------------
  // fe_mul: one method a limb, in the order of the C expressions
  // -------------------------------------------------------------------------------------------

  method MulLimb0(f: Limbs, g: Limbs) returns (h0: int)
    requires Within(f, 330) && Within(g, 330)
    ensures h0 == Cyclic(Evens(f), Evens(g), 0) + 38 * Cyclic(Odds(f), Odds(g), 4)
    ensures -0x5000_0000_0000_0000 <= h0 <= 0x5000_0000_0000_0000
  {
    h0 := Mul(f[0], g[0]) + Mul(2 * f[1], 19 * g[9]) + Mul(f[2], 19 * g[8]) + Mul(2 * f[3], 19 * g[7])
          + Mul(f[4], 19 * g[6]) + Mul(2 * f[5], 19 * g[5]) + Mul(f[6], 19 * g[4]) + Mul(2 * f[7], 19 * g[3])
          + Mul(f[8], 19 * g[2]) + Mul(2 * f[9], 19 * g[1]);
  }

  method MulLimb1(f: Limbs, g: Limbs) returns (h1: int)
    requires Within(f, 330) && Within(g, 330)
    ensures h1 == Cyclic(Evens(f), Odds(g), 0) + Cyclic(Odds(f), Evens(g), 0)
    ensures -0x5000_0000_0000_0000 <= h1 <= 0x5000_0000_0000_0000
  {
    h1 := Mul(f[0], g[1]) + Mul(f[1], g[0]) + Mul(f[2], 19 * g[9]) + Mul(f[3], 19 * g[8]) + Mul(f[4], 19 * g[7])
          + Mul(f[5], 19 * g[6]) + Mul(f[6], 19 * g[5]) + Mul(f[7], 19 * g[4]) + Mul(f[8], 19 * g[3])
          + Mul(f[9], 19 * g[2]);
  }

  method MulLimb2(f: Limbs, g: Limbs) returns (h2: int)
    requires Within(f, 330) && Within(g, 330)
    ensures h2 == Cyclic(Evens(f), Evens(g), 1) + 2 * Cyclic(Odds(f), Odds(g), 0)
    ensures -0x5000_0000_0000_0000 <= h2 <= 0x5000_0000_0000_0000
  {
    h2 := Mul(f[0], g[2]) + Mul(2 * f[1], g[1]) + Mul(f[2], g[0]) + Mul(2 * f[3], 19 * g[9])
          + Mul(f[4], 19 * g[8]) + Mul(2 * f[5], 19 * g[7]) + Mul(f[6], 19 * g[6]) + Mul(2 * f[7], 19 * g[5])
          + Mul(f[8], 19 * g[4]) + Mul(2 * f[9], 19 * g[3]);
  }

  method MulLimb3(f: Limbs, g: Limbs) returns (h3: int)
    requires Within(f, 330) && Within(g, 330)
    ensures h3 == Cyclic(Evens(f), Odds(g), 1) + Cyclic(Odds(f), Evens(g), 1)
    ensures -0x5000_0000_0000_0000 <= h3 <= 0x5000_0000_0000_0000
  {
    h3 := Mul(f[0], g[3]) + Mul(f[1], g[2]) + Mul(f[2], g[1]) + Mul(f[3], g[0]) + Mul(f[4], 19 * g[9])
          + Mul(f[5], 19 * g[8]) + Mul(f[6], 19 * g[7]) + Mul(f[7], 19 * g[6]) + Mul(f[8], 19 * g[5])
          + Mul(f[9], 19 * g[4]);
  }

  method MulLimb4(f: Limbs, g: Limbs) returns (h4: int)
    requires Within(f, 330) && Within(g, 330)
    ensures h4 == Cyclic(Evens(f), Evens(g), 2) + 2 * Cyclic(Odds(f), Odds(g), 1)
    ensures -0x5000_0000_0000_0000 <= h4 <= 0x5000_0000_0000_0000
  {
    h4 := Mul(f[0], g[4]) + Mul(2 * f[1], g[3]) + Mul(f[2], g[2]) + Mul(2 * f[3], g[1]) + Mul(f[4], g[0])
          + Mul(2 * f[5], 19 * g[9]) + Mul(f[6], 19 * g[8]) + Mul(2 * f[7], 19 * g[7]) + Mul(f[8], 19 * g[6])
          + Mul(2 * f[9], 19 * g[5]);
  }

  method MulLimb5(f: Limbs, g: Limbs) returns (h5: int)
    requires Within(f, 330) && Within(g, 330)
    ensures h5 == Cyclic(Evens(f), Odds(g), 2) + Cyclic(Odds(f), Evens(g), 2)
    ensures -0x5000_0000_0000_0000 <= h5 <= 0x5000_0000_0000_0000
  {
    h5 := Mul(f[0], g[5]) + Mul(f[1], g[4]) + Mul(f[2], g[3]) + Mul(f[3], g[2]) + Mul(f[4], g[1])
          + Mul(f[5], g[0]) + Mul(f[6], 19 * g[9]) + Mul(f[7], 19 * g[8]) + Mul(f[8], 19 * g[7])
          + Mul(f[9], 19 * g[6]);
  }

  method MulLimb6(f: Limbs, g: Limbs) returns (h6: int)
    requires Within(f, 330) && Within(g, 330)
    ensures h6 == Cyclic(Evens(f), Evens(g), 3) + 2 * Cyclic(Odds(f), Odds(g), 2)
    ensures -0x5000_0000_0000_0000 <= h6 <= 0x5000_0000_0000_0000
  {
    h6 := Mul(f[0], g[6]) + Mul(2 * f[1], g[5]) + Mul(f[2], g[4]) + Mul(2 * f[3], g[3]) + Mul(f[4], g[2])
          + Mul(2 * f[5], g[1]) + Mul(f[6], g[0]) + Mul(2 * f[7], 19 * g[9]) + Mul(f[8], 19 * g[8])
          + Mul(2 * f[9], 19 * g[7]);
  }

  method MulLimb7(f: Limbs, g: Limbs) returns (h7: int)
    requires Within(f, 330) && Within(g, 330)
    ensures h7 == Cyclic(Evens(f), Odds(g), 3) + Cyclic(Odds(f), Evens(g), 3)
    ensures -0x5000_0000_0000_0000 <= h7 <= 0x5000_0000_0000_0000
  {
    h7 := Mul(f[0], g[7]) + Mul(f[1], g[6]) + Mul(f[2], g[5]) + Mul(f[3], g[4]) + Mul(f[4], g[3])
          + Mul(f[5], g[2]) + Mul(f[6], g[1]) + Mul(f[7], g[0]) + Mul(f[8], 19 * g[9]) + Mul(f[9], 19 * g[8]);
  }

  method MulLimb8(f: Limbs, g: Limbs) returns (h8: int)
    requires Within(f, 330) && Within(g, 330)
    ensures h8 == Cyclic(Evens(f), Evens(g), 4) + 2 * Cyclic(Odds(f), Odds(g), 3)
    ensures -0x5000_0000_0000_0000 <= h8 <= 0x5000_0000_0000_0000
  {
    h8 := Mul(f[0], g[8]) + Mul(2 * f[1], g[7]) + Mul(f[2], g[6]) + Mul(2 * f[3], g[5]) + Mul(f[4], g[4])
          + Mul(2 * f[5], g[3]) + Mul(f[6], g[2]) + Mul(2 * f[7], g[1]) + Mul(f[8], g[0])
          + Mul(2 * f[9], 19 * g[9]);
  }

  method MulLimb9(f: Limbs, g: Limbs) returns (h9: int)
    requires Within(f, 330) && Within(g, 330)
    ensures h9 == Cyclic(Evens(f), Odds(g), 4) + Cyclic(Odds(f), Evens(g), 4)
    ensures -0x5000_0000_0000_0000 <= h9 <= 0x5000_0000_0000_0000
  {
    h9 := Mul(f[0], g[9]) + Mul(f[1], g[8]) + Mul(f[2], g[7]) + Mul(f[3], g[6]) + Mul(f[4], g[5])
          + Mul(f[5], g[4]) + Mul(f[6], g[3]) + Mul(f[7], g[2]) + Mul(f[8], g[1]) + Mul(f[9], g[0]);
  }

  method Multiply(f: Limbs, g: Limbs) returns (r: Limbs)
    requires Within(f, 330) && Within(g, 330)
    ensures Small(Product(f, g), 0x5000_0000_0000_0000) && r == MulLimbs(f, g) && Within(r, 101)
  {
    var h0 := MulLimb0(f, g);
    var h1 := MulLimb1(f, g);
    var h2 := MulLimb2(f, g);
    var h3 := MulLimb3(f, g);
    var h4 := MulLimb4(f, g);
    var h5 := MulLimb5(f, g);
    var h6 := MulLimb6(f, g);
    var h7 := MulLimb7(f, g);
    var h8 := MulLimb8(f, g);
    var h9 := MulLimb9(f, g);
    r := CarryMul([h0, h1, h2, h3, h4, h5, h6, h7, h8, h9]);
  }

  // -------------------------------------------------------------------------------------------
  // fe_sq and fe_sq2: the symmetric products are computed once
  // -------------------------------------------------------------------------------------------

  method SqLimb0(f: Limbs) returns (h0: int)
    requires Within(f, 330)
    ensures h0 == Cyclic(Evens(f), Evens(f), 0) + 38 * Cyclic(Odds(f), Odds(f), 4)
    ensures -0x2800_0000_0000_0000 <= h0 <= 0x2800_0000_0000_0000
  {
    h0 := Mul(f[0], f[0]) + Mul(2 * f[1], 38 * f[9]) + Mul(2 * f[2], 19 * f[8]) + Mul(2 * f[3], 38 * f[7])
          + Mul(2 * f[4], 19 * f[6]) + Mul(f[5], 38 * f[5]);
  }

  method SqLimb1(f: Limbs) returns (h1: int)
    requires Within(f, 330)
    ensures h1 == Cyclic(Evens(f), Odds(f), 0) + Cyclic(Odds(f), Evens(f), 0)
    ensures -0x2800_0000_0000_0000 <= h1 <= 0x2800_0000_0000_0000
  {
    h1 := Mul(2 * f[0], f[1]) + Mul(f[2], 38 * f[9]) + Mul(2 * f[3], 19 * f[8]) + Mul(f[4], 38 * f[7])
          + Mul(2 * f[5], 19 * f[6]);
  }

  method SqLimb2(f: Limbs) returns (h2: int)
    requires Within(f, 330)
    ensures h2 == Cyclic(Evens(f), Evens(f), 1) + 2 * Cyclic(Odds(f), Odds(f), 0)
    ensures -0x2800_0000_0000_0000 <= h2 <= 0x2800_0000_0000_0000
  {
    h2 := Mul(2 * f[0], f[2]) + Mul(2 * f[1], f[1]) + Mul(2 * f[3], 38 * f[9]) + Mul(2 * f[4], 19 * f[8])
          + Mul(2 * f[5], 38 * f[7]) + Mul(f[6], 19 * f[6]);
  }

  method SqLimb3(f: Limbs) returns (h3: int)
    requires Within(f, 330)
    ensures h3 == Cyclic(Evens(f), Odds(f), 1) + Cyclic(Odds(f), Evens(f), 1)
    ensures -0x2800_0000_0000_0000 <= h3 <= 0x2800_0000_0000_0000
  {
    h3 := Mul(2 * f[0], f[3]) + Mul(2 * f[1], f[2]) + Mul(f[4], 38 * f[9]) + Mul(2 * f[5], 19 * f[8])
          + Mul(f[6], 38 * f[7]);
  }

  method SqLimb4(f: Limbs) returns (h4: int)
    requires Within(f, 330)
    ensures h4 == Cyclic(Evens(f), Evens(f), 2) + 2 * Cyclic(Odds(f), Odds(f), 1)
    ensures -0x2800_0000_0000_0000 <= h4 <= 0x2800_0000_0000_0000
  {
    h4 := Mul(2 * f[0], f[4]) + Mul(2 * f[1], 2 * f[3]) + Mul(f[2], f[2]) + Mul(2 * f[5], 38 * f[9])
          + Mul(2 * f[6], 19 * f[8]) + Mul(f[7], 38 * f[7]);
  }

  method SqLimb5(f: Limbs) returns (h5: int)
    requires Within(f, 330)
    ensures h5 == Cyclic(Evens(f), Odds(f), 2) + Cyclic(Odds(f), Evens(f), 2)
    ensures -0x2800_0000_0000_0000 <= h5 <= 0x2800_0000_0000_0000
  {
    h5 := Mul(2 * f[0], f[5]) + Mul(2 * f[1], f[4]) + Mul(2 * f[2], f[3]) + Mul(f[6], 38 * f[9])
          + Mul(2 * f[7], 19 * f[8]);
  }

  method SqLimb6(f: Limbs) returns (h6: int)
    requires Within(f, 330)
    ensures h6 == Cyclic(Evens(f), Evens(f), 3) + 2 * Cyclic(Odds(f), Odds(f), 2)
    ensures -0x2800_0000_0000_0000 <= h6 <= 0x2800_0000_0000_0000
  {
    h6 := Mul(2 * f[0], f[6]) + Mul(2 * f[1], 2 * f[5]) + Mul(2 * f[2], f[4]) + Mul(2 * f[3], f[3])
          + Mul(2 * f[7], 38 * f[9]) + Mul(f[8], 19 * f[8]);
  }

  method SqLimb7(f: Limbs) returns (h7: int)
    requires Within(f, 330)
    ensures h7 == Cyclic(Evens(f), Odds(f), 3) + Cyclic(Odds(f), Evens(f), 3)
    ensures -0x2800_0000_0000_0000 <= h7 <= 0x2800_0000_0000_0000
  {
    h7 := Mul(2 * f[0], f[7]) + Mul(2 * f[1], f[6]) + Mul(2 * f[2], f[5]) + Mul(2 * f[3], f[4])
          + Mul(f[8], 38 * f[9]);
  }

  method SqLimb8(f: Limbs) returns (h8: int)
    requires Within(f, 330)
    ensures h8 == Cyclic(Evens(f), Evens(f), 4) + 2 * Cyclic(Odds(f), Odds(f), 3)
    ensures -0x2800_0000_0000_0000 <= h8 <= 0x2800_0000_0000_0000
  {
    h8 := Mul(2 * f[0], f[8]) + Mul(2 * f[1], 2 * f[7]) + Mul(2 * f[2], f[6]) + Mul(2 * f[3], 2 * f[5])
          + Mul(f[4], f[4]) + Mul(f[9], 38 * f[9]);
  }

  method SqLimb9(f: Limbs) returns (h9: int)
    requires Within(f, 330)
    ensures h9 == Cyclic(Evens(f), Odds(f), 4) + Cyclic(Odds(f), Evens(f), 4)
    ensures -0x2800_0000_0000_0000 <= h9 <= 0x2800_0000_0000_0000
  {
    h9 := Mul(2 * f[0], f[9]) + Mul(2 * f[1], f[8]) + Mul(2 * f[2], f[7]) + Mul(2 * f[3], f[6])
          + Mul(2 * f[4], f[5]);
  }

  method SquareLimbs(f: Limbs) returns (h: Limbs)
    requires Within(f, 330)
    ensures h == Product(f, f) && Small(h, 0x2800_0000_0000_0000)
  {
    var h0 := SqLimb0(f);
    var h1 := SqLimb1(f);
    var h2 := SqLimb2(f);
    var h3 := SqLimb3(f);
    var h4 := SqLimb4(f);
    var h5 := SqLimb5(f);
    var h6 := SqLimb6(f);
    var h7 := SqLimb7(f);
    var h8 := SqLimb8(f);
    var h9 := SqLimb9(f);
    h := [h0, h1, h2, h3, h4, h5, h6, h7, h8, h9];
  }

  /** fe_sq computes the limbs of fe_mul(f, f). */
  method Square(f: Limbs) returns (r: Limbs)
    requires Within(f, 330)
    ensures Small(Product(f, f), 0x5000_0000_0000_0000) && r == MulLimbs(f, f) && Within(r, 101)
  {
    var h := SquareLimbs(f);
    r := CarryMul(h);
  }

  method DoubledSquare(f: Limbs) returns (d: Limbs)
    requires Within(f, 330)
    ensures Small(d, 0x5000_0000_0000_0000) && Cong(Val(d), 2 * (Val(f) * Val(f)))
  {
    var h := SquareLimbs(f);
    d := seq(10, i requires 0 <= i < 10 => I64(h[i] + h[i]));
    ValDouble(h, d, 0);
    ProductValue(f, f);
    CongScale(2, Val(h), Val(f) * Val(f));
  }

  method SquareTwice(f: Limbs) returns (r: Limbs)
    requires Within(f, 330)
    ensures Within(r, 101) && Cong(Val(r), 2 * (Val(f) * Val(f)))
  {
    var d := DoubledSquare(f);
    r := CarryMul(d);
    ChainCarriedValue(Long, d, 12);
    CongTrans(Val(r), Val(d), 2 * (Val(f) * Val(f)));
  }

  lemma {:induction false} ValDouble(h: Limbs, d: Limbs, i: nat)
    requires i <= 10 && forall k :: 0 <= k < 10 ==> d[k] == h[k] + h[k]
    ensures ValFrom(d, i) == 2 * ValFrom(h, i)
    decreases 10 - i
  {
    if i < 10 {
      ValDouble(h, d, i + 1);
    }
  }
}
