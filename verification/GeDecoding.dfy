/** ge_frombytes_negate_vartime (keypair/ge.c): the point whose encoding is given, negated. */
module GeDecoding {
  import opened Bits
  import opened Bytes
  import opened PrimeField
  import opened PrimeModulus
  import opened FieldElement
  import opened FieldOps
  import opened FieldBytes
  import opened FieldPower
  import opened EdwardsAlgebra
  import opened EdwardsComplete
  import opened CurveConstants
  import opened CurveGroup
  import opened PointForms
  import opened SquareRoots
  import opened Ge
  import opened GeEncoding

  const D_LIMBS: Limbs := [-10913610, 13857413, -15372611, 6949391, 114729, -8787816, -6275908, -3247719, -18696448,
                           -12055116]

  const SQRTM1_LIMBS: Limbs := [-32595792, -7943725, 9377950, 3500415, 12389472, -272473, -25146209, -2005654, 326686,
                                11406482]

  lemma DLimbsValue()
    ensures Cong(Val(D_LIMBS), D_RESIDUE)
  {
    CongMod(Val(D_LIMBS), D_RESIDUE);
    ValExplicit(D_LIMBS);
  }

  lemma DLimbs()
    ensures Within(D_LIMBS, 110) && Cong(Val(D_LIMBS), D())
  {
    DLimbsValue();
    DResidue();
    DIs(D_RESIDUE);
    CongTrans(Val(D_LIMBS), D_RESIDUE, D());
  }

  lemma SqrtM1Limbs()
    ensures Within(SQRTM1_LIMBS, 110) && Cong(Val(SQRTM1_LIMBS) * Val(SQRTM1_LIMBS), -1)
  {
    ValExplicit(SQRTM1_LIMBS);
    assert Val(SQRTM1_LIMBS) == SQRT_M1;
    MinusOneSquare();
  }

  // -------------------------------------------------------------------------------------------
  // x from y
  // -------------------------------------------------------------------------------------------

  /** u/v = x^2 says that (x, y) is on the curve, for u = y^2 - 1 and v = d y^2 + 1. */
  lemma RootOnCurve(d: int, x: int, y: int, u: int, v: int)
    requires Cong(u, y * y - 1) && Cong(v, d * (y * y) + 1)
    ensures Cong(v * (x * x), u) <==> Curve(d, x, y)
  {
    CongScale(x * x, v, d * (y * y) + 1);
    ProductOfSquares(x, y, d);
    assert (d * (y * y) + 1) * (x * x) == d * ((x * y) * (x * y)) + x * x by {
      assert (d * (y * y) + 1) * (x * x) == (d * (y * y)) * (x * x) + x * x;
    }
    Shifted(v * (x * x), u, d * ((x * y) * (x * y)), x * x, y * y);
  }

  lemma Shifted(vx: int, u: int, e: int, x: int, y: int)
    requires Cong(vx, e + x) && Cong(u, y - 1)
    ensures Cong(vx, u) <==> Cong(y - x, 1 + e)
  {
    var k := Witness(vx, e + x);
    var l := Witness(u, y - 1);
    if Cong(vx, u) {
      var n := Witness(vx, u);
      CongBy(y - x, 1 + e, k - l - n);
    }
    if Cong(y - x, 1 + e) {
      var n := Witness(y - x, 1 + e);
      CongBy(vx, u, k - l - n);
    }
  }

  /** The candidate root: x = u v^3 (u v^7)^((p - 5)/8), and v x^2. */
  method Candidate(u: Limbs, v: Limbs) returns (x: Limbs, vxx: Limbs, ghost c: int, ghost t: int, ghost w: int)
    requires Within(u, 102) && Within(v, 102)
    ensures Within(x, 101) && Within(vxx, 101)
    ensures Cong(c, (Val(v) * Val(v)) * Val(v)) && Cong(t, ((c * c) * Val(v)) * Val(u)) && Cong(w, Power.Pow(t, E))
    ensures Cong(Val(x), (w * c) * Val(u)) && Cong(Val(vxx), Val(v) * (Val(x) * Val(x)))
  {
    var v3 := FeSq(v, 102);
    ghost var vv := Val(v3);
    v3 := FeMul(v3, v, 101, 102);
    c := Val(v3);
    Chain(c, vv, Val(v) * Val(v), Val(v));
    x := FeSq(v3, 101);
    ghost var cc := Val(x);
    x := FeMul(x, v, 101, 102);
    ghost var ccv := Val(x);
    Chain(ccv, cc, c * c, Val(v));
    x := FeMul(x, u, 101, 102);
    t := Val(x);
    Chain(t, ccv, (c * c) * Val(v), Val(u));
    x := FePow22523(x, 101);
    w := Val(x);
    x := FeMul(x, v3, 101, 101);
    ghost var wc := Val(x);
    x := FeMul(x, u, 101, 102);
    Chain(Val(x), wc, w * c, Val(u));
    vxx := FeSq(x, 101);
    ghost var xx := Val(vxx);
    vxx := FeMul(vxx, v, 101, 102);
    Chain(Val(vxx), xx, Val(x) * Val(x), Val(v));
  }

  lemma Chain(r: int, a: int, b: int, f: int)
    requires Cong(r, a * f) && Cong(a, b)
    ensures Cong(r, b * f)
  {
    CongScale(f, a, b);
    CongTrans(r, f * a, f * b);
  }

  lemma DifferenceZero(a: int, b: int)
    ensures Cong(a - b, 0) <==> Cong(a, b)
    ensures Cong(a + b, 0) <==> Cong(a, -b)
  {
    CongIs(a - b, 0);
    CongIs(a, b);
    CongIs(a + b, 0);
    CongIs(a, -b);
  }

  /** x sqrt(-1) is a root when v x^2 = -u. */
  lemma TurnRoot(x: int, v: int, u: int, vxx: int, i: int, y: int)
    requires Cong(i * i, -1) && Cong(vxx, v * (x * x)) && Cong(vxx, -u) && Cong(y, x * i)
    ensures Cong(v * (y * y), u)
  {
    CongMul(y, x * i, y, x * i);
    CongScale(v, y * y, (x * i) * (x * i));
    Power.Rearrange(x, i, x, i);
    assert v * ((x * x) * (i * i)) == (v * (x * x)) * (i * i);
    CongSym(vxx, v * (x * x));
    CongTrans(v * (x * x), vxx, -u);
    CongMul(v * (x * x), -u, i * i, -1);
    CongTrans(v * (y * y), (v * (x * x)) * (i * i), u);
  }

  /** A square root of u/v, or the answer that there is none. */
  method Root(u: Limbs, v: Limbs) returns (ok: bool, x: Limbs)
    requires Within(u, 102) && Within(v, 102)
    ensures Within(x, 101)
    ensures ok ==> Cong(Val(v) * (Val(x) * Val(x)), Val(u))
    ensures !ok ==> forall r :: !IsRoot(Val(u), Val(v), r)
  {
    var vxx;
    ghost var c, t, w;
    x, vxx, c, t, w := Candidate(u, v);
    forall r | IsRoot(Val(u), Val(v), r)
      ensures Cong(Val(vxx), Val(u)) || Cong(Val(vxx), -Val(u))
    {
      RootExists(Val(u), Val(v), c, t, w, Val(x), Val(vxx), r);
    }
    var check := FeSub(vxx, u, 101, 102);
    DifferenceZero(Val(vxx), Val(u));
    WithinMonotone(check, 203, 220);
    var nonzero := FeIsNonzero(check);
    if nonzero != 0 {
      check := FeAdd(vxx, u, 101, 102);
      WithinMonotone(check, 203, 220);
      nonzero := FeIsNonzero(check);
      if nonzero != 0 {
        return false, x;
      }
      SqrtM1Limbs();
      ghost var was := Val(x);
      x := FeMul(x, SQRTM1_LIMBS, 101, 110);
      TurnRoot(was, Val(v), Val(u), Val(vxx), Val(SQRTM1_LIMBS), Val(x));
    } else {
      CongSym(Val(vxx), Val(v) * (Val(x) * Val(x)));
      CongTrans(Val(v) * (Val(x) * Val(x)), Val(vxx), Val(u));
    }
    ok := true;
  }

  ghost predicate IsRoot(u: int, v: int, r: int) {
    Cong(u, v * (r * r))
  }

  // -------------------------------------------------------------------------------------------
  // Decoding
  // -------------------------------------------------------------------------------------------

  /** The y coordinate that 32 bytes stand for: their low 255 bits, reduced. */
  function DecodedY(s: seq<Byte>): int {
    (LE(s) % TWO_255) % P
  }

  lemma TopBit(s: seq<Byte>)
    requires |s| == 32
    ensures s[31] / 128 == LE(s) / TWO_255
  {
    TopByte(s);
    LowBound(s[..31]);
  }

  /** Curve membership depends on residues only. */
  lemma CurveResidues(d: int, x: int, y: int)
    requires Curve(d, x, y)
    ensures Curve(d, x % P, y % P)
  {
    var a, b := x % P, y % P;
    CongSelf(x);
    CongSelf(y);
    CongMul(a, x, a, x);
    CongMul(b, y, b, y);
    CongAdd(b * b, y * y, a * a, x * x);
    CongMul(a, x, b, y);
    CongMul(a * b, x * y, a * b, x * y);
    CongScale(d, (a * b) * (a * b), (x * y) * (x * y));
    CongSelf(1);
    CongAdd(1, 1, d * ((a * b) * (a * b)), d * ((x * y) * (x * y)));
    CongSym(1 + d * ((a * b) * (a * b)), 1 + d * ((x * y) * (x * y)));
    CongTrans(b * b - a * a, y * y - x * x, 1 + d * ((x * y) * (x * y)));
    CongTrans(b * b - a * a, 1 + d * ((x * y) * (x * y)), 1 + d * ((a * b) * (a * b)));
  }

  /** Residues in place of the integers that u and v are computed from. */
  lemma CurveY(d: int, dl: int, y: int, u: int, v: int, yy: int, dyy: int)
    requires Cong(dl, d) && Cong(yy, y * y) && Cong(dyy, yy * dl) && u == yy - 1 && v == dyy + 1
    ensures Cong(u, y * y - 1) && Cong(v, d * (y * y) + 1)
  {
    CongMul(yy, y * y, dl, d);
    CongTrans(dyy, yy * dl, (y * y) * d);
    Combine1(u, y * y - 1, 1, yy, y * y);
    Combine1(v, d * (y * y) + 1, 1, dyy, d * (y * y));
  }

  lemma NoPoint(y: int, q: Point, u: int, v: int)
    requires OnCurve(q) && Cong(y, q.y) && Cong(u, y * y - 1) && Cong(v, D() * (y * y) + 1)
    ensures IsRoot(u, v, q.x)
  {
    OnCurveIs(q);
    CongMul(y, q.y, y, q.y);
    CongScale(D(), y * y, q.y * q.y);
    Combine1(y * y - 1, q.y * q.y - 1, 1, y * y, q.y * q.y);
    CongTrans(u, y * y - 1, q.y * q.y - 1);
    Combine1(D() * (y * y) + 1, D() * (q.y * q.y) + 1, 1, D() * (y * y), D() * (q.y * q.y));
    CongTrans(v, D() * (y * y) + 1, D() * (q.y * q.y) + 1);
    RootOnCurve(D(), q.x, q.y, u, v);
    CongSym(v * (q.x * q.x), u);
  }

  /** Extended coordinates of the point with Z = 1 and T = X Y. */
  lemma AffineExtended(x: int, y: int, t: int, p: Point)
    requires Cong(x, p.x) && Cong(y, p.y) && Cong(t, x * y)
    ensures Extended(x, y, 1, t, p)
  {
    CongMod(1, 0);
    CongMul(x, p.x, y, p.y);
    CongTrans(t, x * y, p.x * p.y);
  }

  lemma NegativeParity(x: int)
    requires !Cong(x, 0)
    ensures (-x % P) % 2 != (x % P) % 2
  {
    CongMod(x, 0);
    assert -x % P == P - x % P by {
      assert -x == P * (-1 - x / P) + (P - x % P);
      DivModUnique(-x, P, -1 - x / P, P - x % P);
    }
  }

  /** The root with the parity opposite to the sign. */
  method Negated(x: Limbs, sign: nat) returns (r: Limbs)
    requires Within(x, 101) && sign <= 1
    ensures Within(r, 101) && (Val(r) == Val(x) || Val(r) == -Val(x))
    ensures !Cong(Val(x), 0) ==> (Val(r) % P) % 2 != sign
  {
    WithinMonotone(x, 101, 220);
    var negative := FeIsNegative(x);
    r := x;
    if negative == sign {
      r := FeNeg(x, 101);
      if !Cong(Val(x), 0) {
        NegativeParity(Val(x));
      }
    }
  }

  lemma NegativeRoots(x: int, r: int)
    requires r == x || r == -x
    ensures r * r == x * x && (Cong(r, 0) <==> Cong(x, 0))
  {
    if Cong(x, 0) {
      CongScale(-1, x, 0);
    }
    if Cong(r, 0) {
      CongScale(-1, r, 0);
    }
  }

  /** u = y^2 - 1 and v = d y^2 + 1. */
  method Fraction(y: Limbs, one: Limbs) returns (u: Limbs, v: Limbs)
    requires Within(y, 110) && Within(one, 1) && Val(one) == 1
    ensures Within(u, 102) && Within(v, 102)
    ensures Cong(Val(u), Val(y) * Val(y) - 1) && Cong(Val(v), D() * (Val(y) * Val(y)) + 1)
  {
    DLimbs();
    u := FeSq(y, 110);
    v := FeMul(u, D_LIMBS, 101, 110);
    CurveY(D(), Val(D_LIMBS), Val(y), Val(u) - 1, Val(v) + 1, Val(u), Val(v));
    u := FeSub(u, one, 101, 1);
    v := FeAdd(v, one, 101, 1);
  }

  lemma NoPoints(y: int, u: int, v: int)
    requires Cong(u, y * y - 1) && Cong(v, D() * (y * y) + 1) && forall r :: !IsRoot(u, v, r)
    ensures forall q :: OnCurve(q) ==> q.y != y % P
  {
    forall q | OnCurve(q)
      ensures q.y != y % P
    {
      if q.y == y % P {
        CongSelf(y);
        NoPoint(y, q, u, v);
      }
    }
  }

  /** The point with a given root x, after the choice of its sign. */
  lemma Chosen(root: int, x: int, y: int, t: int, u: int, v: int, sign: nat) returns (p: Point)
    requires Cong(u, y * y - 1) && Cong(v, D() * (y * y) + 1) && Cong(v * (root * root), u)
    requires (x == root || x == -root) && (!Cong(root, 0) ==> (x % P) % 2 != sign) && Cong(t, x * y)
    ensures OnCurve(p) && Extended(x, y, 1, t, p) && p.y == y % P && (p.x != 0 ==> p.x % 2 != sign)
  {
    p := Point(x % P, y % P);
    NegativeRoots(root, x);
    RootOnCurve(D(), x, y, u, v);
    CurveResidues(D(), x, y);
    OnCurveIs(p);
    CongSelf(x);
    CongSelf(y);
    CongMod(x, 0);
    AffineExtended(x, y, t, p);
  }

  /** Fails, with -1, exactly when no point of the curve has the encoded y; otherwise h is a point with
      that y, whose x has the parity opposite to the encoded one unless it is zero. */
  method GeFromBytesNegateVartime(h: GeP3, s: seq<Byte>) returns (ret: int, ghost p: Point)
    requires |s| == 32
    modifies h
    ensures ret == 0 || ret == -1
    ensures ret == 0 ==> IsP3(h, p) && p.y == DecodedY(s) && (p.x != 0 ==> p.x % 2 != LE(s) / TWO_255)
    ensures ret == -1 ==> forall q :: OnCurve(q) ==> q.y != DecodedY(s)
  {
    var y := FeFromBytes(s);
    var one := FeConst(1);
    CongMod(Val(y), LE(s) % TWO_255);
    var u, v := Fraction(y, one);
    var ok, root := Root(u, v);
    if !ok {
      NoPoints(Val(y), Val(u), Val(v));
      h.X, h.Y, h.Z := root, y, one;
      return -1, ZERO;
    }
    TopBit(s);
    var x := Negated(root, s[31] / 128);
    var t := FeMul(x, y, 101, 110);
    p := Chosen(Val(root), Val(x), Val(y), Val(t), Val(u), Val(v), s[31] / 128);
    WithinMonotone(one, 1, 110);
    WithinMonotone(x, 101, 110);
    WithinMonotone(t, 101, 110);
    h.X, h.Y, h.Z, h.T := x, y, one, t;
    ret := 0;
  }

  // -------------------------------------------------------------------------------------------
  // Decoding inverts encoding
  // -------------------------------------------------------------------------------------------

  lemma ZeroFactor(d: int, y: int)
    requires Cong(y, 0)
    ensures Cong(d * (y * y), 0)
  {
    CongMul(y, 0, y, 0);
    CongScale(d, y * y, 0);
  }

  lemma MinusOneRatio(d: int, i: int, y: int)
    requires Cong(i * i, -1) && Cong(d * (y * y) + 1, 0)
    ensures Ratio(d, i, y)
  {
    Combine1(-1, d * (y * y), -1, d * (y * y) + 1, 0);
    CongTrans(i * i, -1, d * (y * y));
  }

  lemma DenominatorNonzero(d: int, i: int, y: int)
    requires NonSquare(d) && Cong(i * i, -1)
    ensures !Cong(d * (y * y) + 1, 0)
  {
    CongMod(1, 0);
    if Cong(d * (y * y) + 1, 0) {
      MinusOneRatio(d, i, y);
      ZeroFactor(d, y);
      CongAdd(d * (y * y) + 1, 0, d * (y * y), 0);
    }
  }

  lemma SquareDifference(x: int, r: int)
    requires Cong(x * x, r * r)
    ensures Cong(x - r, 0) || Cong(x + r, 0)
  {
    assert (x - r) * (x + r) == x * x - r * r;
    Combine1((x - r) * (x + r), 0, 1, x * x, r * r);
    NoZeroDivisors(x - r, x + r);
  }

  lemma SmallResidues(x: int, r: int)
    requires 0 <= x < P && 0 <= r < P && (Cong(x - r, 0) || Cong(x + r, 0))
    ensures x == r || x + r == P || x + r == 0
  {
    CongIs(x - r, 0);
    CongIs(x + r, 0);
  }

  lemma DenominatorY(y: int)
    ensures !Cong(D() * (y * y) + 1, 0)
  {
    DNonSquare();
    MinusOneSquare();
    DenominatorNonzero(D(), SQRT_M1, y);
  }

  lemma SameRoots(d: int, x: int, r: int, y: int)
    requires Curve(d, x, y) && Curve(d, r, y) && !Cong(d * (y * y) + 1, 0)
    ensures Cong(x - r, 0) || Cong(x + r, 0)
  {
    var u, v := y * y - 1, d * (y * y) + 1;
    CongSelf(u);
    CongSelf(v);
    RootOnCurve(d, x, y, u, v);
    RootOnCurve(d, r, y, u, v);
    SameQuotient(v, x * x, r * r, u);
    SquareDifference(x, r);
  }

  /** Two points with the same y are equal or opposite. */
  lemma SameY(p: Point, q: Point)
    requires OnCurve(p) && OnCurve(q) && p.y == q.y
    ensures p.x == q.x || p == Neg(q)
  {
    OnCurveIs(p);
    OnCurveIs(q);
    DenominatorY(q.y);
    SameRoots(D(), p.x, q.x, q.y);
    SmallResidues(p.x, q.x);
    if p.x != q.x {
      NegResidue(p.x, q.x);
    }
  }

  lemma NegResidue(x: int, r: int)
    requires 0 <= x < P && 0 <= r < P && (x + r == P || x + r == 0)
    ensures x == -r % P
  {
  }
}
