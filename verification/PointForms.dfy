/** The coordinate systems of keypair/ge.h and the formulas that connect them, on integers up to
    congruence. */
module PointForms {
  import opened Power
  import opened PrimeField
  import opened PrimeModulus
  import opened EdwardsAlgebra
  import opened EdwardsComplete
  import opened EdwardsCurve
  import opened CurveConstants
  import opened CurveGroup

  /** ge_p2: x = X/Z, y = Y/Z. */
  ghost predicate Projective(x: int, y: int, z: int, p: Point) {
    !Cong(z, 0) && Cong(x, p.x * z) && Cong(y, p.y * z)
  }

  /** ge_p3: projective, with T = xy Z. */
  ghost predicate Extended(x: int, y: int, z: int, t: int, p: Point) {
    Projective(x, y, z, p) && Cong(t, (p.x * p.y) * z)
  }

  /** ge_p1p1: x = X/Z, y = Y/T. */
  ghost predicate Completed(x: int, y: int, z: int, t: int, p: Point) {
    !Cong(z, 0) && !Cong(t, 0) && Cong(x, p.x * z) && Cong(y, p.y * t)
  }

  /** ge_cached: (y + x, y - x, 1, 2dxy) times Z; with Z = 1, ge_precomp. */
  ghost predicate Cached(plus: int, minus: int, z: int, t2d: int, p: Point) {
    !Cong(z, 0) && Cong(plus, (p.y + p.x) * z) && Cong(minus, (p.y - p.x) * z)
    && Cong(t2d, (2 * (D() * (p.x * p.y))) * z)
  }

  // -------------------------------------------------------------------------------------------
  // Addition
  // -------------------------------------------------------------------------------------------

  lemma Factor(u: int, a: int, z: int, v: int, b: int, w: int)
    requires Cong(u, a * z) && Cong(v, b * w)
    ensures Cong(u * v, (a * b) * (z * w))
  {
    CongMul(u, a * z, v, b * w);
    Rearrange(a, z, b, w);
  }

  lemma ProductForm(c: int, u: int, a: int, z: int, v: int, b: int, w: int)
    requires Cong(c, u * v) && Cong(u, a * z) && Cong(v, b * w)
    ensures Cong(c, (a * b) * (z * w))
  {
    Factor(u, a, z, v, b, w);
    CongTrans(c, u * v, (a * b) * (z * w));
  }

  lemma SumOf(u: int, a: int, v: int, b: int, z: int)
    requires Cong(u, a * z) && Cong(v, b * z)
    ensures Cong(u + v, (a + b) * z) && Cong(u - v, (a - b) * z)
  {
    CongAdd(u, a * z, v, b * z);
  }

  lemma Products(x1: int, y1: int, x2: int, y2: int)
    ensures (y1 + x1) * (y2 + x2) - (y1 - x1) * (y2 - x2) == 2 * SumX(x1, y1, x2, y2)
    ensures (y1 + x1) * (y2 + x2) + (y1 - x1) * (y2 - x2) == 2 * SumY(x1, y1, x2, y2)
  {
  }

  lemma TwiceMixed(d: int, x1: int, y1: int, x2: int, y2: int)
    ensures (2 * (d * (x2 * y2))) * (x1 * y1) == 2 * Mixed(d, x1, y1, x2, y2)
  {
  }

  /** A quotient x/z whose terms share the factor w. */
  lemma OneCoordinate(x: int, z: int, w: int, s: int, f: int, p: int)
    requires !Cong(w, 0) && !Cong(f, 0)
    requires Cong(x, s * w) && Cong(z, f * w) && Cong(p * f, s)
    ensures !Cong(z, 0) && Cong(x, p * z)
  {
    Nonzero(f, w);
    if Cong(z, 0) {
      CongSym(z, f * w);
      CongTrans(f * w, z, 0);
    }
    CongScale(p, z, f * w);
    CongScale(w, p * f, s);
    assert p * (f * w) == w * (p * f);
    CongTrans(p * z, w * (p * f), w * s);
    CongSym(p * z, w * s);
    CongTrans(x, s * w, p * z);
  }

  /** The coordinates of a completed point are the numerators and denominators of a sum, times w. */
  lemma CompletedSum(x: int, y: int, z: int, t: int, w: int, p: Point, q: Point)
    requires OnCurve(p) && OnCurve(q) && !Cong(w, 0)
    requires Cong(x, SumX(p.x, p.y, q.x, q.y) * w) && Cong(y, SumY(p.x, p.y, q.x, q.y) * w)
    requires Cong(z, (1 + Mixed(D(), p.x, p.y, q.x, q.y)) * w) && Cong(t, (1 - Mixed(D(), p.x, p.y, q.x, q.y)) * w)
    ensures Completed(x, y, z, t, Add(p, q))
  {
    AddCloses(p, q);
    SumIs(D(), p.x, p.y, q.x, q.y, Add(p, q).x, Add(p, q).y);
    OneCoordinate(x, z, w, SumX(p.x, p.y, q.x, q.y), 1 + Mixed(D(), p.x, p.y, q.x, q.y), Add(p, q).x);
    OneCoordinate(y, t, w, SumY(p.x, p.y, q.x, q.y), 1 - Mixed(D(), p.x, p.y, q.x, q.y), Add(p, q).y);
  }

  lemma AddProducts(x1: int, y1: int, z1: int, t1: int, p: Point, plus: int, minus: int, z2: int, t2d: int, q: Point,
                    a: int, b: int, c: int)
    requires Extended(x1, y1, z1, t1, p) && Cached(plus, minus, z2, t2d, q)
    requires Cong(a, (y1 + x1) * plus) && Cong(b, (y1 - x1) * minus) && Cong(c, t2d * t1)
    ensures Cong(a, ((p.y + p.x) * (q.y + q.x)) * (z1 * z2)) && Cong(b, ((p.y - p.x) * (q.y - q.x)) * (z1 * z2))
    ensures Cong(c, (2 * Mixed(D(), p.x, p.y, q.x, q.y)) * (z1 * z2))
  {
    SumOf(y1, p.y, x1, p.x, z1);
    ProductForm(a, y1 + x1, p.y + p.x, z1, plus, q.y + q.x, z2);
    ProductForm(b, y1 - x1, p.y - p.x, z1, minus, q.y - q.x, z2);
    ProductForm(c, t2d, 2 * (D() * (q.x * q.y)), z2, t1, p.x * p.y, z1);
    TwiceMixed(D(), p.x, p.y, q.x, q.y);
    Commute(z1, z2);
  }

  lemma Commute(a: int, b: int)
    ensures a * b == b * a
  {
  }

  lemma Doubled(s: int, w: int)
    ensures (2 * s) * w == s * (2 * w)
  {
  }

  lemma DoubledSums(u: int, v: int, s: int, w: int)
    requires Cong(u, 2 * w) && Cong(v, (2 * s) * w)
    ensures Cong(u + v, (1 + s) * (2 * w)) && Cong(u - v, (1 - s) * (2 * w))
  {
    Doubled(s, w);
    SumOf(u, 1, v, s, 2 * w);
  }

  /** What ge_add and ge_madd compute: A and B from the sums and differences, C from T, and ZZ = Z1 Z2. */
  lemma AddForm(x1: int, y1: int, z1: int, t1: int, p: Point, plus: int, minus: int, z2: int, t2d: int, q: Point,
                a: int, b: int, c: int, zz: int)
    requires OnCurve(p) && OnCurve(q)
    requires Extended(x1, y1, z1, t1, p) && Cached(plus, minus, z2, t2d, q)
    requires Cong(a, (y1 + x1) * plus) && Cong(b, (y1 - x1) * minus) && Cong(c, t2d * t1) && Cong(zz, z1 * z2)
    ensures Completed(a - b, a + b, 2 * zz + c, 2 * zz - c, Add(p, q))
  {
    var w := z1 * z2;
    AddProducts(x1, y1, z1, t1, p, plus, minus, z2, t2d, q, a, b, c);
    SumOf(a, (p.y + p.x) * (q.y + q.x), b, (p.y - p.x) * (q.y - q.x), w);
    Products(p.x, p.y, q.x, q.y);
    Doubled(SumX(p.x, p.y, q.x, q.y), w);
    Doubled(SumY(p.x, p.y, q.x, q.y), w);
    CongScale(2, zz, w);
    DoubledSums(2 * zz, c, Mixed(D(), p.x, p.y, q.x, q.y), w);
    Nonzero(z1, z2);
    TwoNonzero(w);
    CompletedSum(a - b, a + b, 2 * zz + c, 2 * zz - c, 2 * w, p, q);
  }

  lemma TwoNonzero(w: int)
    requires !Cong(w, 0)
    ensures !Cong(2 * w, 0)
  {
    if Cong(2 * w, 0) {
      Halve(w);
    }
  }

  lemma ScaleRight(z: int, a: int, b: int)
    requires Cong(a, b)
    ensures Cong(a * z, b * z)
  {
    CongScale(z, a, b);
  }

  lemma NegSums(x: int, y: int, n: int, z: int)
    requires Cong(n, -x)
    ensures Cong((y - x) * z, (y + n) * z) && Cong((y + x) * z, (y - n) * z)
  {
    CongSelf(y);
    CongAdd(y, y, n, -x);
    CongSym(y + n, y - x);
    CongSym(y - n, y + x);
    ScaleRight(z, y - x, y + n);
    ScaleRight(z, y + x, y - n);
  }

  lemma NegProduct(k: int, y: int, x: int, n: int, z: int)
    requires Cong(n, -x)
    ensures Cong(-((2 * (k * (x * y))) * z), (2 * (k * (n * y))) * z)
  {
    CongSym(n, -x);
    CongScale(2 * ((k * y) * z), -x, n);
    NegMonomials(k, y, x, n, z);
  }

  lemma NegMonomials(k: int, y: int, x: int, n: int, z: int)
    ensures -((2 * (k * (x * y))) * z) == (2 * ((k * y) * z)) * -x && (2 * (k * (n * y))) * z == (2 * ((k * y) * z)) * n
  {
  }

  /** The cached form of -q: the first two coordinates swapped, the last one negated. */
  lemma NegCached(plus: int, minus: int, z: int, t2d: int, q: Point)
    requires Cached(plus, minus, z, t2d, q)
    ensures Cached(minus, plus, z, -t2d, Neg(q))
  {
    var n := Neg(q).x;
    CongSelf(-q.x);
    NegSums(q.x, q.y, n, z);
    CongTrans(minus, (q.y - q.x) * z, (q.y + n) * z);
    CongTrans(plus, (q.y + q.x) * z, (q.y - n) * z);
    NegProduct(D(), q.y, q.x, n, z);
    CongScale(-1, t2d, (2 * (D() * (q.x * q.y))) * z);
    CongTrans(-t2d, -((2 * (D() * (q.x * q.y))) * z), (2 * (D() * (n * q.y))) * z);
  }

  // -------------------------------------------------------------------------------------------
  // Doubling
  // -------------------------------------------------------------------------------------------

  lemma SquareOfBoth(x: int, y: int)
    ensures (x + y) * (x + y) - (y * y + x * x) == SumX(x, y, x, y) && y * y + x * x == SumY(x, y, x, y)
  {
  }

  lemma DoubleProducts(x: int, y: int, z: int, p: Point, xx: int, yy: int, ss: int)
    requires Projective(x, y, z, p)
    requires Cong(xx, x * x) && Cong(yy, y * y) && Cong(ss, (x + y) * (x + y))
    ensures Cong(xx, (p.x * p.x) * (z * z)) && Cong(yy, (p.y * p.y) * (z * z))
    ensures Cong(ss, ((p.x + p.y) * (p.x + p.y)) * (z * z))
  {
    ProductForm(xx, x, p.x, z, x, p.x, z);
    ProductForm(yy, y, p.y, z, y, p.y, z);
    SumOf(x, p.x, y, p.y, z);
    ProductForm(ss, x + y, p.x + p.y, z, x + y, p.x + p.y, z);
  }

  lemma DoubleDenominators(difference: int, k: int, e: int, zz2: int, w: int)
    requires Cong(difference, k * w) && Cong(k, 1 + e) && Cong(zz2, 2 * w)
    ensures Cong(difference, (1 + e) * w) && Cong(zz2 - difference, (1 - e) * w)
  {
    CongScale(w, k, 1 + e);
    CongTrans(difference, k * w, (1 + e) * w);
    SumOf(zz2, 2, difference, 1 + e, w);
  }

  /** What ge_p2_dbl computes from X^2, Y^2, 2 Z^2 and (X + Y)^2. */
  lemma DoubleForm(x: int, y: int, z: int, p: Point, xx: int, yy: int, zz2: int, ss: int)
    requires OnCurve(p) && Projective(x, y, z, p)
    requires Cong(xx, x * x) && Cong(yy, y * y) && Cong(zz2, 2 * (z * z)) && Cong(ss, (x + y) * (x + y))
    ensures Completed(ss - (yy + xx), yy + xx, yy - xx, zz2 - (yy - xx), Add(p, p))
  {
    OnCurveIs(p);
    DoubleProducts(x, y, z, p, xx, yy, ss);
    SumOf(yy, p.y * p.y, xx, p.x * p.x, z * z);
    SumOf(ss, (p.x + p.y) * (p.x + p.y), yy + xx, p.y * p.y + p.x * p.x, z * z);
    SquareOfBoth(p.x, p.y);
    DoubleDenominators(yy - xx, p.y * p.y - p.x * p.x, Mixed(D(), p.x, p.y, p.x, p.y), zz2, z * z);
    Nonzero(z, z);
    CompletedSum(ss - (yy + xx), yy + xx, yy - xx, zz2 - (yy - xx), z * z, p, p);
  }

  // -------------------------------------------------------------------------------------------
  // Conversions
  // -------------------------------------------------------------------------------------------

  /** ge_p1p1_to_p3: X T, Y Z, Z T and X Y. */
  lemma CompletedToExtended(x: int, y: int, z: int, t: int, p: Point, x3: int, y3: int, z3: int, t3: int)
    requires Completed(x, y, z, t, p)
    requires Cong(x3, x * t) && Cong(y3, y * z) && Cong(z3, z * t) && Cong(t3, x * y)
    ensures Extended(x3, y3, z3, t3, p)
  {
    CompletedToProjective(x, y, z, t, p, x3, y3, z3);
    ProductForm(t3, x, p.x, z, y, p.y, t);
    CongSym(z3, z * t);
    CongScale(p.x * p.y, z * t, z3);
    CongTrans(t3, (p.x * p.y) * (z * t), (p.x * p.y) * z3);
  }

  lemma ScaleThrough(x3: int, x: int, a: int, z: int, t: int, z3: int)
    requires Cong(x3, x * t) && Cong(x, a * z) && Cong(z3, z * t)
    ensures Cong(x3, a * z3)
  {
    CongScale(t, x, a * z);
    Shift(a, z, t);
    CongTrans(x3, t * x, a * (z * t));
    CongSym(z3, z * t);
    CongScale(a, z * t, z3);
    CongTrans(x3, a * (z * t), a * z3);
  }

  lemma Shift(a: int, z: int, t: int)
    ensures t * (a * z) == a * (z * t)
  {
  }

  lemma CompletedToProjective(x: int, y: int, z: int, t: int, p: Point, x3: int, y3: int, z3: int)
    requires Completed(x, y, z, t, p)
    requires Cong(x3, x * t) && Cong(y3, y * z) && Cong(z3, z * t)
    ensures Projective(x3, y3, z3, p)
  {
    Commute(z, t);
    ScaleThrough(x3, x, p.x, z, t, z3);
    ScaleThrough(y3, y, p.y, t, z, z3);
    Nonzero(z, t);
    if Cong(z3, 0) {
      CongSym(z3, z * t);
      CongTrans(z * t, z3, 0);
    }
  }

  /** ge_p3_to_cached. */
  lemma ExtendedToCached(x: int, y: int, z: int, t: int, p: Point, t2d: int, d2: int)
    requires Extended(x, y, z, t, p) && Cong(t2d, t * d2) && Cong(d2, 2 * D())
    ensures Cached(y + x, y - x, z, t2d, p)
  {
    SumOf(y, p.y, x, p.x, z);
    ProductForm(t2d, t, p.x * p.y, z, d2, 2 * D(), 1);
    assert (p.x * p.y) * (2 * D()) == 2 * (D() * (p.x * p.y));
  }

  lemma ZeroForms()
    ensures Projective(0, 1, 1, ZERO) && Extended(0, 1, 1, 0, ZERO) && Cached(1, 1, 1, 0, ZERO)
  {
    CongMod(1, 0);
    CongMod(0, 0);
    CongMod(1, 1);
  }

  /** X Y = Z T. */
  lemma ExtendedProduct(x: int, y: int, z: int, t: int, p: Point)
    requires Extended(x, y, z, t, p)
    ensures Cong(x * y, z * t) && Cong(x * y, (p.x * p.y) * (z * z))
  {
    CongSelf(z);
    Factor(x, p.x, z, y, p.y, z);
    Factor(z, 1, z, t, p.x * p.y, z);
    CongSym(z * t, (p.x * p.y) * (z * z));
    CongTrans(x * y, (p.x * p.y) * (z * z), z * t);
  }

  lemma ScaledSquares(a: int, b: int, w: int, d: int, s: int, k: int, m: int)
    requires Cong(a, k * w) && Cong(b, s * w) && Cong(k, 1 + d * (s * s)) && m == w * w
    ensures Cong(a * w, m + d * (b * b))
  {
    CongScale(w, a, k * w);
    CongScale(m, k, 1 + d * (s * s));
    Homogeneous(d, s, w, k);
    CongTrans(w * a, m * k, m + d * ((s * w) * (s * w)));
    CongMul(b, s * w, b, s * w);
    CongScale(d, b * b, (s * w) * (s * w));
    CongSelf(m);
    CongAdd(m, m, d * (b * b), d * ((s * w) * (s * w)));
    CongSym(m + d * (b * b), m + d * ((s * w) * (s * w)));
    CongTrans(w * a, m + d * ((s * w) * (s * w)), m + d * (b * b));
  }

  /** The homogeneous curve equation (Y^2 - X^2) Z^2 = Z^4 + d X^2 Y^2. */
  lemma ExtendedEquation(x: int, y: int, z: int, t: int, p: Point)
    requires Extended(x, y, z, t, p) && OnCurve(p)
    ensures Cong((y * y - x * x) * (z * z), (z * z) * (z * z) + D() * ((x * y) * (x * y)))
  {
    OnCurveIs(p);
    ExtendedProduct(x, y, z, t, p);
    Factor(x, p.x, z, x, p.x, z);
    Factor(y, p.y, z, y, p.y, z);
    SumOf(y * y, p.y * p.y, x * x, p.x * p.x, z * z);
    ScaledSquares(y * y - x * x, x * y, z * z, D(), p.x * p.y, p.y * p.y - p.x * p.x, (z * z) * (z * z));
  }

  lemma Homogeneous(d: int, s: int, w: int, k: int)
    ensures w * (k * w) == (w * w) * k
    ensures (w * w) * (1 + d * (s * s)) == w * w + d * ((s * w) * (s * w))
  {
    ProductOfSquares(s, w, d);
  }
}
