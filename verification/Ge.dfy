/** The group element operations of keypair/ge.c: each computes on limbs what its name says about the
    points that its operands represent, and keeps every product operand within 1.65 * 2^26. */
module Ge {
  import opened PrimeField
  import opened PrimeModulus
  import opened FieldElement
  import opened FieldOps
  import opened CurveConstants
  import opened CurveGroup
  import opened PointForms

  class GeP2 {
    var X: Limbs
    var Y: Limbs
    var Z: Limbs

    constructor () {
    }
  }

  class GeP3 {
    var X: Limbs
    var Y: Limbs
    var Z: Limbs
    var T: Limbs

    constructor () {
    }
  }

  class GeP1P1 {
    var X: Limbs
    var Y: Limbs
    var Z: Limbs
    var T: Limbs

    constructor () {
    }
  }

  class GePrecomp {
    var yPlusX: Limbs
    var yMinusX: Limbs
    var xy2d: Limbs

    constructor () {
    }
  }

  class GeCached {
    var YPlusX: Limbs
    var YMinusX: Limbs
    var Z: Limbs
    var T2d: Limbs

    constructor () {
    }
  }

  // -------------------------------------------------------------------------------------------
  // What the structures represent
  // -------------------------------------------------------------------------------------------

  ghost predicate IsP2(r: GeP2, p: Point)
    reads r
  {
    && Within(r.X, 110) && Within(r.Y, 110) && Within(r.Z, 110)
    && OnCurve(p) && Projective(Val(r.X), Val(r.Y), Val(r.Z), p)
  }

  ghost predicate IsP3(r: GeP3, p: Point)
    reads r
  {
    && Within(r.X, 110) && Within(r.Y, 110) && Within(r.Z, 110) && Within(r.T, 110)
    && OnCurve(p) && Extended(Val(r.X), Val(r.Y), Val(r.Z), Val(r.T), p)
  }

  ghost predicate IsP1P1(r: GeP1P1, p: Point)
    reads r
  {
    && Within(r.X, 330) && Within(r.Y, 330) && Within(r.Z, 330) && Within(r.T, 330)
    && OnCurve(p) && Completed(Val(r.X), Val(r.Y), Val(r.Z), Val(r.T), p)
  }

  ghost predicate IsCached(r: GeCached, p: Point)
    reads r
  {
    && Within(r.YPlusX, 220) && Within(r.YMinusX, 220) && Within(r.Z, 110) && Within(r.T2d, 110)
    && OnCurve(p) && Cached(Val(r.YPlusX), Val(r.YMinusX), Val(r.Z), Val(r.T2d), p)
  }

  ghost predicate IsPrecomp(r: GePrecomp, p: Point)
    reads r
  {
    && Within(r.yPlusX, 110) && Within(r.yMinusX, 110) && Within(r.xy2d, 110)
    && OnCurve(p) && Cached(Val(r.yPlusX), Val(r.yMinusX), 1, Val(r.xy2d), p)
  }

  // -------------------------------------------------------------------------------------------
  // Addition and subtraction
  // -------------------------------------------------------------------------------------------

  lemma Widen(x: Limbs, y: Limbs, z: Limbs, t: Limbs, c: int, d: int)
    requires Within(x, c) && Within(y, 202) && Within(z, d) && Within(t, d) && c <= 330 && d <= 330
    ensures Within(x, 330) && Within(y, 330) && Within(z, 330) && Within(t, 330)
  {
    WithinMonotone(x, c, 330);
    WithinMonotone(y, 202, 330);
    WithinMonotone(z, d, 330);
    WithinMonotone(t, d, 330);
  }

  method GeAdd(r: GeP1P1, p: GeP3, q: GeCached, ghost a: Point, ghost b: Point)
    requires IsP3(p, a) && IsCached(q, b)
    modifies r
    ensures IsP1P1(r, Add(a, b))
  {
    var x := FeAdd(p.Y, p.X, 110, 110);
    var y := FeSub(p.Y, p.X, 110, 110);
    var z := FeMul(x, q.YPlusX, 220, 220);
    y := FeMul(y, q.YMinusX, 220, 220);
    var t := FeMul(q.T2d, p.T, 110, 110);
    x := FeMul(p.Z, q.Z, 110, 110);
    AddForm(Val(p.X), Val(p.Y), Val(p.Z), Val(p.T), a, Val(q.YPlusX), Val(q.YMinusX), Val(q.Z), Val(q.T2d), b,
            Val(z), Val(y), Val(t), Val(x));
    var t0 := FeAdd(x, x, 101, 101);
    x := FeSub(z, y, 101, 101);
    y := FeAdd(z, y, 101, 101);
    z := FeAdd(t0, t, 202, 101);
    t := FeSub(t0, t, 202, 101);
    AddCloses(a, b);
    Widen(x, y, z, t, 202, 303);
    r.X, r.Y, r.Z, r.T := x, y, z, t;
  }

  method GeSub(r: GeP1P1, p: GeP3, q: GeCached, ghost a: Point, ghost b: Point)
    requires IsP3(p, a) && IsCached(q, b)
    modifies r
    ensures IsP1P1(r, Add(a, Neg(b)))
  {
    NegOnCurve(b);
    NegCached(Val(q.YPlusX), Val(q.YMinusX), Val(q.Z), Val(q.T2d), b);
    var x := FeAdd(p.Y, p.X, 110, 110);
    var y := FeSub(p.Y, p.X, 110, 110);
    var z := FeMul(x, q.YMinusX, 220, 220);
    y := FeMul(y, q.YPlusX, 220, 220);
    var t := FeMul(q.T2d, p.T, 110, 110);
    x := FeMul(p.Z, q.Z, 110, 110);
    NegatedProduct(Val(t), Val(q.T2d), Val(p.T));
    AddForm(Val(p.X), Val(p.Y), Val(p.Z), Val(p.T), a, Val(q.YMinusX), Val(q.YPlusX), Val(q.Z), -Val(q.T2d), Neg(b),
            Val(z), Val(y), -Val(t), Val(x));
    var t0 := FeAdd(x, x, 101, 101);
    x := FeSub(z, y, 101, 101);
    y := FeAdd(z, y, 101, 101);
    z := FeSub(t0, t, 202, 101);
    t := FeAdd(t0, t, 202, 101);
    AddCloses(a, Neg(b));
    Widen(x, y, z, t, 202, 303);
    r.X, r.Y, r.Z, r.T := x, y, z, t;
  }

  lemma NegatedProduct(c: int, u: int, v: int)
    requires Cong(c, u * v)
    ensures Cong(-c, -u * v)
  {
    CongScale(-1, c, u * v);
    assert -1 * (u * v) == -u * v;
  }

  method GeMadd(r: GeP1P1, p: GeP3, q: GePrecomp, ghost a: Point, ghost b: Point)
    requires IsP3(p, a) && IsPrecomp(q, b)
    modifies r
    ensures IsP1P1(r, Add(a, b))
  {
    var x := FeAdd(p.Y, p.X, 110, 110);
    var y := FeSub(p.Y, p.X, 110, 110);
    var z := FeMul(x, q.yPlusX, 220, 110);
    y := FeMul(y, q.yMinusX, 220, 110);
    var t := FeMul(q.xy2d, p.T, 110, 110);
    CongSelf(Val(p.Z));
    AddForm(Val(p.X), Val(p.Y), Val(p.Z), Val(p.T), a, Val(q.yPlusX), Val(q.yMinusX), 1, Val(q.xy2d), b,
            Val(z), Val(y), Val(t), Val(p.Z));
    var t0 := FeAdd(p.Z, p.Z, 110, 110);
    x := FeSub(z, y, 101, 101);
    y := FeAdd(z, y, 101, 101);
    z := FeAdd(t0, t, 220, 101);
    t := FeSub(t0, t, 220, 101);
    AddCloses(a, b);
    Widen(x, y, z, t, 202, 321);
    r.X, r.Y, r.Z, r.T := x, y, z, t;
  }

  method GeMsub(r: GeP1P1, p: GeP3, q: GePrecomp, ghost a: Point, ghost b: Point)
    requires IsP3(p, a) && IsPrecomp(q, b)
    modifies r
    ensures IsP1P1(r, Add(a, Neg(b)))
  {
    NegOnCurve(b);
    NegCached(Val(q.yPlusX), Val(q.yMinusX), 1, Val(q.xy2d), b);
    var x := FeAdd(p.Y, p.X, 110, 110);
    var y := FeSub(p.Y, p.X, 110, 110);
    var z := FeMul(x, q.yMinusX, 220, 110);
    y := FeMul(y, q.yPlusX, 220, 110);
    var t := FeMul(q.xy2d, p.T, 110, 110);
    NegatedProduct(Val(t), Val(q.xy2d), Val(p.T));
    CongSelf(Val(p.Z));
    AddForm(Val(p.X), Val(p.Y), Val(p.Z), Val(p.T), a, Val(q.yMinusX), Val(q.yPlusX), 1, -Val(q.xy2d), Neg(b),
            Val(z), Val(y), -Val(t), Val(p.Z));
    var t0 := FeAdd(p.Z, p.Z, 110, 110);
    x := FeSub(z, y, 101, 101);
    y := FeAdd(z, y, 101, 101);
    z := FeSub(t0, t, 220, 101);
    t := FeAdd(t0, t, 220, 101);
    AddCloses(a, Neg(b));
    Widen(x, y, z, t, 202, 321);
    r.X, r.Y, r.Z, r.T := x, y, z, t;
  }

  // -------------------------------------------------------------------------------------------
  // Doubling
  // -------------------------------------------------------------------------------------------

  method GeP2Dbl(r: GeP1P1, p: GeP2, ghost a: Point)
    requires IsP2(p, a)
    modifies r
    ensures IsP1P1(r, Add(a, a))
  {
    var x := FeSq(p.X, 110);
    var z := FeSq(p.Y, 110);
    var t := FeSq2(p.Z, 110);
    var y := FeAdd(p.X, p.Y, 110, 110);
    var t0 := FeSq(y, 220);
    DoubleForm(Val(p.X), Val(p.Y), Val(p.Z), a, Val(x), Val(z), Val(t), Val(t0));
    y := FeAdd(z, x, 101, 101);
    z := FeSub(z, x, 101, 101);
    x := FeSub(t0, y, 101, 202);
    t := FeSub(t, z, 101, 202);
    AddCloses(a, a);
    WithinMonotone(z, 202, 303);
    Widen(x, y, z, t, 303, 303);
    r.X, r.Y, r.Z, r.T := x, y, z, t;
  }

  method GeP3Dbl(r: GeP1P1, p: GeP3, ghost a: Point)
    requires IsP3(p, a)
    modifies r
    ensures IsP1P1(r, Add(a, a))
  {
    var q := new GeP2();
    GeP3ToP2(q, p, a);
    GeP2Dbl(r, q, a);
  }

  // -------------------------------------------------------------------------------------------
  // Conversions and the neutral element
  // -------------------------------------------------------------------------------------------

  lemma Narrow(x: Limbs, y: Limbs, z: Limbs)
    requires Within(x, 101) && Within(y, 101) && Within(z, 101)
    ensures Within(x, 110) && Within(y, 110) && Within(z, 110)
  {
    WithinMonotone(x, 101, 110);
    WithinMonotone(y, 101, 110);
    WithinMonotone(z, 101, 110);
  }

  method GeP1P1ToP2(r: GeP2, p: GeP1P1, ghost a: Point)
    requires IsP1P1(p, a)
    modifies r
    ensures IsP2(r, a)
  {
    var x := FeMul(p.X, p.T, 330, 330);
    var y := FeMul(p.Y, p.Z, 330, 330);
    var z := FeMul(p.Z, p.T, 330, 330);
    CompletedToProjective(Val(p.X), Val(p.Y), Val(p.Z), Val(p.T), a, Val(x), Val(y), Val(z));
    Narrow(x, y, z);
    r.X, r.Y, r.Z := x, y, z;
  }

  method GeP1P1ToP3(r: GeP3, p: GeP1P1, ghost a: Point)
    requires IsP1P1(p, a)
    modifies r
    ensures IsP3(r, a)
  {
    var x := FeMul(p.X, p.T, 330, 330);
    var y := FeMul(p.Y, p.Z, 330, 330);
    var z := FeMul(p.Z, p.T, 330, 330);
    var t := FeMul(p.X, p.Y, 330, 330);
    CompletedToExtended(Val(p.X), Val(p.Y), Val(p.Z), Val(p.T), a, Val(x), Val(y), Val(z), Val(t));
    Narrow(x, y, z);
    WithinMonotone(t, 101, 110);
    r.X, r.Y, r.Z, r.T := x, y, z, t;
  }

  method GeP3ToP2(r: GeP2, p: GeP3, ghost a: Point)
    requires IsP3(p, a)
    modifies r
    ensures IsP2(r, a)
  {
    r.X, r.Y, r.Z := p.X, p.Y, p.Z;
  }

  const D2_LIMBS: Limbs := [-21827239, -5839606, -30745221, 13898782, 229458, 15978800, -12551817, -6495438, 29715968,
                            9444199]

  lemma D2LimbsValue()
    ensures Cong(Val(D2_LIMBS), 2 * D_RESIDUE)
  {
    CongMod(Val(D2_LIMBS), 2 * D_RESIDUE);
    ValExplicit(D2_LIMBS);
  }

  /** The table constant d2 is 2d. */
  lemma D2Limbs()
    ensures Within(D2_LIMBS, 110) && Cong(Val(D2_LIMBS), 2 * D())
  {
    D2LimbsValue();
    DResidue();
    DIs(D_RESIDUE);
    CongScale(2, D_RESIDUE, D());
    CongTrans(Val(D2_LIMBS), 2 * D_RESIDUE, 2 * D());
  }

  method GeP3ToCached(r: GeCached, p: GeP3, ghost a: Point)
    requires IsP3(p, a)
    modifies r
    ensures IsCached(r, a)
  {
    D2Limbs();
    var plus := FeAdd(p.Y, p.X, 110, 110);
    var minus := FeSub(p.Y, p.X, 110, 110);
    var t := FeMul(p.T, D2_LIMBS, 110, 110);
    ExtendedToCached(Val(p.X), Val(p.Y), Val(p.Z), Val(p.T), a, Val(t), Val(D2_LIMBS));
    WithinMonotone(t, 101, 110);
    r.YPlusX, r.YMinusX, r.Z, r.T2d := plus, minus, p.Z, t;
  }

  method GeP2Zero(h: GeP2)
    modifies h
    ensures IsP2(h, ZERO)
  {
    var zero := FeConst(0);
    var one := FeConst(1);
    ZeroForms();
    ZeroOnCurve();
    WithinMonotone(zero, 1, 110);
    WithinMonotone(one, 1, 110);
    h.X, h.Y, h.Z := zero, one, one;
  }

  method GeP3Zero(h: GeP3)
    modifies h
    ensures IsP3(h, ZERO)
  {
    var zero := FeConst(0);
    var one := FeConst(1);
    ZeroForms();
    ZeroOnCurve();
    WithinMonotone(zero, 1, 110);
    WithinMonotone(one, 1, 110);
    h.X, h.Y, h.Z, h.T := zero, one, one, zero;
  }
}
