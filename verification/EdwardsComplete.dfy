/** Closure and completeness of the addition law: for d that is not a square, sums of points of the
    curve never divide by zero and are on the curve. */
module EdwardsComplete {
  import opened PrimeField
  import opened PrimeModulus
  import opened EdwardsAlgebra
  import opened EdwardsCurve
  import Power

  // -------------------------------------------------------------------------------------------
  // Closure
  // -------------------------------------------------------------------------------------------

  lemma PairSquares(a: int, b: int, c: int, e: int)
    ensures (c + e) * (c + e) - (a + b) * (a + b) == (c * c + e * e) - (a * a + b * b) + 2 * (c * e) - 2 * (a * b)
    ensures (c + e) * (c + e) + (a + b) * (a + b) == (c * c + e * e) + (a * a + b * b) + 2 * (c * e) + 2 * (a * b)
  {
  }

  lemma PairProducts(x1: int, y1: int, x2: int, y2: int)
    ensures (x1 * y2) * (y1 * x2) == (x1 * y1) * (x2 * y2) && (y1 * y2) * (x1 * x2) == (x1 * y1) * (x2 * y2)
    ensures (x1 * y2) * (x1 * y2) == (x1 * x1) * (y2 * y2) && (y1 * x2) * (y1 * x2) == (y1 * y1) * (x2 * x2)
    ensures (y1 * y2) * (y1 * y2) == (y1 * y1) * (y2 * y2) && (x1 * x2) * (x1 * x2) == (x1 * x1) * (x2 * x2)
  {
    Power.Rearrange(x1, y2, y1, x2);
    Power.Rearrange(y1, y2, x1, x2);
    Power.Rearrange(x1, y2, x1, y2);
    Power.Rearrange(y1, x2, y1, x2);
    Power.Rearrange(y1, y2, y1, y2);
    Power.Rearrange(x1, x2, x1, x2);
  }

  lemma PairSums(a: int, b: int, c: int, e: int)
    ensures (b - a) * (e - c) == b * e + a * c - (a * e + b * c)
    ensures (b + a) * (e + c) == b * e + a * c + (a * e + b * c)
  {
  }

  lemma SumIdentities(x1: int, y1: int, x2: int, y2: int)
    ensures SumY(x1, y1, x2, y2) * SumY(x1, y1, x2, y2) - SumX(x1, y1, x2, y2) * SumX(x1, y1, x2, y2)
            == (y1 * y1 - x1 * x1) * (y2 * y2 - x2 * x2)
    ensures SumY(x1, y1, x2, y2) * SumY(x1, y1, x2, y2) + SumX(x1, y1, x2, y2) * SumX(x1, y1, x2, y2)
            == (y1 * y1 + x1 * x1) * (y2 * y2 + x2 * x2) + 4 * ((x1 * y1) * (x2 * y2))
  {
    PairSquares(x1 * y2, y1 * x2, y1 * y2, x1 * x2);
    PairProducts(x1, y1, x2, y2);
    PairSums(x1 * x1, y1 * y1, x2 * x2, y2 * y2);
  }

  lemma SquareOfSum(x: int, y: int)
    ensures (y * y + x * x) * (y * y + x * x) == (y * y - x * x) * (y * y - x * x) + 4 * ((x * y) * (x * y))
  {
  }

  lemma WeightedSquares(xx: int, yy: int, e: int, difference: int, sum: int)
    requires yy - xx == difference && yy + xx == sum
    ensures yy * ((1 + e) * (1 + e)) - xx * ((1 - e) * (1 - e)) == difference * (1 + e * e) + 2 * (e * sum)
  {
    assert yy * ((1 + e) * (1 + e)) == yy + 2 * (e * yy) + yy * (e * e);
    assert xx * ((1 - e) * (1 - e)) == xx - 2 * (e * xx) + xx * (e * e);
    assert (yy - xx) * (1 + e * e) == yy - xx + yy * (e * e) - xx * (e * e);
    assert e * (yy + xx) == e * yy + e * xx;
  }

  lemma ProductSquare(d: int, s1: int, s2: int, u1: int, u2: int, k1: int, k2: int)
    requires u1 * u1 == k1 * k1 + 4 * (s1 * s1) && u2 * u2 == k2 * k2 + 4 * (s2 * s2)
    ensures d * ((s1 * u2 + s2 * u1) * (s1 * u2 + s2 * u1))
            == (d * (s1 * s1)) * (k2 * k2) + (d * (s2 * s2)) * (k1 * k1)
               + 8 * ((d * (s1 * s2)) * (s1 * s2)) + 2 * ((d * (s1 * s2)) * (u1 * u2))
  {
    SquareExpand(d, s1, s2, u1, u2);
    ScaleSum(d * (s1 * s1), u2 * u2, k2 * k2, s2 * s2);
    ScaleSum(d * (s2 * s2), u1 * u1, k1 * k1, s1 * s1);
    Fourth(d, s1, s2);
  }

  lemma SquareOfTwo(d: int, x: int, y: int)
    ensures d * ((x + y) * (x + y)) == d * (x * x) + d * (y * y) + 2 * (d * (x * y))
  {
  }

  lemma SquareExpand(d: int, s1: int, s2: int, u1: int, u2: int)
    ensures d * ((s1 * u2 + s2 * u1) * (s1 * u2 + s2 * u1))
            == (d * (s1 * s1)) * (u2 * u2) + (d * (s2 * s2)) * (u1 * u1) + 2 * ((d * (s1 * s2)) * (u1 * u2))
  {
    SquareOfTwo(d, s1 * u2, s2 * u1);
    Monomials(d, s1, s2, u1, u2);
  }

  lemma Monomials(d: int, s1: int, s2: int, u1: int, u2: int)
    ensures d * ((s1 * u2) * (s1 * u2)) == (d * (s1 * s1)) * (u2 * u2)
    ensures d * ((s2 * u1) * (s2 * u1)) == (d * (s2 * s2)) * (u1 * u1)
    ensures d * ((s1 * u2) * (s2 * u1)) == (d * (s1 * s2)) * (u1 * u2)
  {
  }

  lemma ScaleSum(a: int, b: int, c: int, e: int)
    requires b == c + 4 * e
    ensures a * b == a * c + 4 * (a * e)
  {
  }

  lemma Fourth(d: int, s1: int, s2: int)
    ensures (d * (s1 * s1)) * (s2 * s2) == (d * (s1 * s2)) * (s1 * s2)
    ensures (d * (s2 * s2)) * (s1 * s1) == (d * (s1 * s2)) * (s1 * s2)
    ensures (d * (s1 * s1)) * (d * (s2 * s2)) == (d * (s1 * s2)) * (d * (s1 * s2))
  {
  }

  lemma ReplaceTwo(c: int, a: int, p: int, r: int, b: int, q: int, t: int)
    requires Cong(p, r) && Cong(q, t)
    ensures Cong(c + a * r + b * t, c + a * p + b * q)
  {
    CongSym(p, r);
    CongSym(q, t);
    CongScale(a, r, p);
    CongScale(b, t, q);
    CongAdd(a * r, a * p, b * t, b * q);
    var k := Witness(a * r + b * t, a * p + b * q);
    CongBy(c + a * r + b * t, c + a * p + b * q, k);
  }

  lemma ClosureAtoms(k1: int, k2: int, a1: int, a2: int)
    requires Cong(k1, 1 + a1) && Cong(k2, 1 + a2)
    ensures Cong((k1 * k2) * (1 + a1 * a2), (1 - a1 * a2) * (1 - a1 * a2) + a1 * (k2 * k2) + a2 * (k1 * k1))
  {
    CongMul(k1, 1 + a1, k2, 1 + a2);
    CongScale(1 + a1 * a2, k1 * k2, (1 + a1) * (1 + a2));
    CongMul(k1, 1 + a1, k1, 1 + a1);
    CongMul(k2, 1 + a2, k2, 1 + a2);
    ReplaceTwo((1 - a1 * a2) * (1 - a1 * a2), a1, k2 * k2, (1 + a2) * (1 + a2), a2, k1 * k1, (1 + a1) * (1 + a1));
    ClosureIdentity(a1, a2);
    CongTrans((1 + a1 * a2) * (k1 * k2), (1 + a1 * a2) * ((1 + a1) * (1 + a2)),
              (1 - a1 * a2) * (1 - a1 * a2) + a1 * (k2 * k2) + a2 * (k1 * k1));
  }

  lemma ClosureIdentity(a: int, b: int)
    ensures (1 + a * b) * ((1 + a) * (1 + b))
            == (1 - a * b) * (1 - a * b) + a * ((1 + b) * (1 + b)) + b * ((1 + a) * (1 + a))
  {
  }

  /** The curve equation of a/(1 + e), b/(1 - e) with denominators cleared. */
  ghost predicate ClearedCurve(d: int, a: int, b: int, e: int) {
    Cong((b * b) * ((1 + e) * (1 + e)) - (a * a) * ((1 - e) * (1 - e)),
         (1 - e * e) * (1 - e * e) + d * ((a * b) * (a * b)))
  }

  lemma SumsOnCurve(d: int, x1: int, y1: int, x2: int, y2: int)
    requires Curve(d, x1, y1) && Curve(d, x2, y2)
    ensures ClearedCurve(d, SumX(x1, y1, x2, y2), SumY(x1, y1, x2, y2), Mixed(d, x1, y1, x2, y2))
  {
    var a, b, e := SumX(x1, y1, x2, y2), SumY(x1, y1, x2, y2), Mixed(d, x1, y1, x2, y2);
    var s1, s2, k1, k2, u1, u2 := x1 * y1, x2 * y2, y1 * y1 - x1 * x1, y2 * y2 - x2 * x2, y1 * y1 + x1 * x1,
        y2 * y2 + x2 * x2;
    SumIdentities(x1, y1, x2, y2);
    WeightedSquares(a * a, b * b, e, k1 * k2, u1 * u2 + 4 * (s1 * s2));
    SquareOfSum(x1, y1);
    SquareOfSum(x2, y2);
    ProductsAB(x1, y1, x2, y2);
    ProductSquare(d, s1, s2, u1, u2, k1, k2);
    Fourth(d, s1, s2);
    ClosureAtoms(k1, k2, d * (s1 * s1), d * (s2 * s2));
    Assemble((b * b) * ((1 + e) * (1 + e)) - (a * a) * ((1 - e) * (1 - e)), (k1 * k2) * (1 + e * e), e, u1 * u2,
             s1 * s2,
             (1 - e * e) * (1 - e * e), (d * (s1 * s1)) * (k2 * k2) + (d * (s2 * s2)) * (k1 * k1),
                 d * ((a * b) * (a * b)));
  }

  lemma Assemble(left: int, k: int, e: int, u: int, s: int, c: int, z: int, r: int)
    requires left == k + 2 * (e * (u + 4 * s)) && r == z + 8 * (e * s) + 2 * (e * u) && Cong(k, c + z)
    ensures Cong(left, c + r)
  {
    assert e * (u + 4 * s) == e * u + 4 * (e * s);
    var n := Witness(k, c + z);
    CongBy(left, c + r, n);
  }

  lemma ProductOfSquares(p: int, q: int, r: int)
    ensures ((p * q) * (p * q)) * r == (p * p) * ((q * q) * r)
  {
  }

  lemma SquaredFactors(x: int, y: int, n: int, m: int)
    ensures ((n * m) * (n * m)) * (y * y) == ((y * m) * (y * m)) * (n * n)
    ensures ((n * m) * (n * m)) * (x * x) == ((x * n) * (x * n)) * (m * m)
    ensures ((n * m) * (n * m)) * ((x * y) * (x * y)) == ((x * n) * (y * m)) * ((x * n) * (y * m))
  {
    ProductOfSquares(n, m, y * y);
    ProductOfSquares(m, y, n * n);
    Power.Rearrange(n * n, m * m, y * y, 1);
    ProductOfSquares(n, m, x * x);
    ProductOfSquares(n, x, m * m);
    Power.Rearrange(x, n, y, m);
    Power.Rearrange(x * y, n * m, x * y, n * m);
  }

  lemma Distributed(w: int, a: int, b: int, d: int, c: int)
    ensures w * (a - b) == w * a - w * b && w * (1 + d * c) == w + d * (w * c)
  {
  }

  lemma ScaledCurve(d: int, x: int, y: int, n: int, m: int)
    ensures ((n * m) * (n * m)) * (y * y - x * x)
            == ((y * m) * (y * m)) * (n * n) - ((x * n) * (x * n)) * (m * m)
    ensures ((n * m) * (n * m)) * (1 + d * ((x * y) * (x * y)))
            == (n * m) * (n * m) + d * (((x * n) * (y * m)) * ((x * n) * (y * m)))
  {
    SquaredFactors(x, y, n, m);
    Distributed((n * m) * (n * m), y * y, x * x, d, (x * y) * (x * y));
  }

  lemma CongSquares(u: int, a: int, v: int, b: int, n: int, m: int)
    requires Cong(u, a) && Cong(v, b)
    ensures Cong((v * v) * n - (u * u) * m, (b * b) * n - (a * a) * m)
  {
    CongMul(u, a, u, a);
    CongMul(v, b, v, b);
    CongScale(n, v * v, b * b);
    CongScale(m, u * u, a * a);
    CongAdd(n * (v * v), n * (b * b), m * (u * u), m * (a * a));
  }

  lemma CongProductSquare(c: int, d: int, u: int, a: int, v: int, b: int)
    requires Cong(u, a) && Cong(v, b)
    ensures Cong(c + d * ((u * v) * (u * v)), c + d * ((a * b) * (a * b)))
  {
    CongMul(u, a, v, b);
    CongMul(u * v, a * b, u * v, a * b);
    CongScale(d, (u * v) * (u * v), (a * b) * (a * b));
    CongSelf(c);
    CongAdd(c, c, d * ((u * v) * (u * v)), d * ((a * b) * (a * b)));
  }

  /** The sum of two points of the curve is on the curve. */
  lemma Closed(d: int, x1: int, y1: int, x2: int, y2: int, x: int, y: int)
    requires Curve(d, x1, y1) && Curve(d, x2, y2) && Sum(d, x1, y1, x2, y2, x, y)
    ensures Curve(d, x, y)
  {
    SumIs(d, x1, y1, x2, y2, x, y);
    var a, b, e := SumX(x1, y1, x2, y2), SumY(x1, y1, x2, y2), Mixed(d, x1, y1, x2, y2);
    var n, m := 1 + e, 1 - e;
    var left, right := (b * b) * (n * n) - (a * a) * (m * m), (n * m) * (n * m) + d * ((a * b) * (a * b));
    SumsOnCurve(d, x1, y1, x2, y2);
    assert n * m == 1 - e * e;
    ScaledCurve(d, x, y, n, m);
    CongSquares(x * n, a, y * m, b, n * n, m * m);
    CongProductSquare((n * m) * (n * m), d, x * n, a, y * m, b);
    CongSym(((n * m) * (n * m)) * (1 + d * ((x * y) * (x * y))), right);
    CongTrans(((n * m) * (n * m)) * (y * y - x * x), left, right);
    CongTrans(((n * m) * (n * m)) * (y * y - x * x), right, ((n * m) * (n * m)) * (1 + d * ((x * y) * (x * y))));
    Nonzero(n, m);
    Nonzero(n * m, n * m);
    Cancel((n * m) * (n * m), y * y - x * x, 1 + d * ((x * y) * (x * y)));
  }

  // -------------------------------------------------------------------------------------------
  // Completeness
  // -------------------------------------------------------------------------------------------

  /** r^2 = d w^2. */
  ghost predicate Ratio(d: int, r: int, w: int) {
    Cong(r * r, d * (w * w))
  }

  ghost predicate NonSquare(d: int) {
    forall r, w :: Ratio(d, r, w) ==> Cong(w, 0)
  }

  lemma SquareWith(i: int, x: int, y: int, s: int, k: int, c: int)
    requires Cong(i * i, -1) && s == x * y && k == y * y - x * x && Cong(k, c)
    ensures Cong((y + i * x) * (y + i * x), c + 2 * (i * s))
  {
    assert (y + i * x) * (y + i * x) == y * y + 2 * (i * s) + (x * x) * (i * i) by {
      assert (i * x) * (i * x) == (x * x) * (i * i);
      assert y * (i * x) == i * (x * y);
    }
    CongScale(x * x, i * i, -1);
    CongSelf(y * y + 2 * (i * s));
    CongAdd(y * y + 2 * (i * s), y * y + 2 * (i * s), (x * x) * (i * i), (x * x) * -1);
    CongSelf(2 * (i * s));
    CongAdd(2 * (i * s), 2 * (i * s), k, c);
    CongTrans((y + i * x) * (y + i * x), 2 * (i * s) + k, c + 2 * (i * s));
  }

  lemma RatioMonomials(d: int, s: int, z: int, i: int, w: int)
    ensures (d * (s * s)) * (d * (z * z)) == (d * (s * z)) * (d * (s * z))
    ensures (d * (s * s)) * (i * z) == (i * s) * (d * (s * z))
    ensures d * ((s * w) * (s * w)) == (d * (s * s)) * (w * w)
  {
    Fourth(d, s, z);
    Power.Rearrange(i, s, s * z, d);
    ProductOfSquares(s, w, d);
  }

  lemma RatioSplit(a: int, b: int, c: int)
    ensures a * (1 + b + 2 * c) == a + a * b + 2 * (a * c)
  {
  }

  lemma RatioAtoms(a: int, b: int, f: int, e: int)
    requires Cong(f, e) && Cong(f * f, 1)
    ensures Cong(a + f * f + 2 * (b * f), a + 1 + 2 * (b * e))
  {
    CongScale(b, f, e);
    CongScale(2, b * f, b * e);
    CongSelf(a);
    CongAdd(a, a, f * f, 1);
    CongAdd(a + f * f, a + 1, 2 * (b * f), 2 * (b * e));
  }

  lemma UnitSquare(f: int, e: int)
    requires Cong(f, e) && (e == 1 || e == -1)
    ensures Cong(f * f, 1)
  {
    CongMul(f, e, f, e);
  }

  lemma UnitTimes(e: int, i: int, s: int)
    requires e == 1 || e == -1
    ensures (e * i) * (e * i) == i * i && i * s * e == (e * i) * s
  {
  }

  lemma RightHand(d: int, s: int, z: int, i: int, e: int, w: int)
    requires Cong(w * w, 1 + d * (z * z) + 2 * (i * z)) && Cong(d * (s * z), e) && (e == 1 || e == -1)
    ensures Cong(d * ((s * w) * (s * w)), 1 + d * (s * s) + 2 * ((e * i) * s))
  {
    var a, f := d * (s * s), d * (s * z);
    CongScale(a, w * w, 1 + d * (z * z) + 2 * (i * z));
    RatioSplit(a, d * (z * z), i * z);
    RatioMonomials(d, s, z, i, w);
    UnitSquare(f, e);
    UnitTimes(e, i, s);
    RatioAtoms(a, i * s, f, e);
    CongTrans(d * ((s * w) * (s * w)), a + f * f + 2 * ((i * s) * f), a + 1 + 2 * ((i * s) * e));
  }

  /** If d x1 x2 y1 y2 is 1 or -1, d is the ratio of two squares. */
  lemma RatioOf(d: int, i: int, x1: int, y1: int, x2: int, y2: int, e: int)
    requires Cong(i * i, -1) && Curve(d, x1, y1) && Curve(d, x2, y2)
    requires Cong(Mixed(d, x1, y1, x2, y2), e) && (e == 1 || e == -1)
    ensures Ratio(d, y1 + (e * i) * x1, (x1 * y1) * (y2 + i * x2))
  {
    var s, z := x1 * y1, x2 * y2;
    var r, w := y1 + (e * i) * x1, y2 + i * x2;
    var left := 1 + d * (s * s) + 2 * ((e * i) * s);
    UnitTimes(e, i, s);
    SquareWith(e * i, x1, y1, s, y1 * y1 - x1 * x1, 1 + d * (s * s));
    SquareWith(i, x2, y2, z, y2 * y2 - x2 * x2, 1 + d * (z * z));
    RightHand(d, s, z, i, e, w);
    CongSym(d * ((s * w) * (s * w)), left);
    CongTrans(r * r, left, d * ((s * w) * (s * w)));
  }

  lemma FactorsVanish(s: int, y: int, ix: int)
    requires Cong(s * (y + ix), 0) && Cong(s * (y - ix), 0)
    ensures Cong(s, 0) || Cong(y, 0)
  {
    NoZeroDivisors(s, y + ix);
    NoZeroDivisors(s, y - ix);
    if !Cong(s, 0) {
      CongAdd(y + ix, 0, y - ix, 0);
      assert y + ix + (y - ix) == 2 * y;
      Halve(y);
    }
  }

  lemma NegativeRoot(i: int, x: int)
    ensures -i * -i == i * i && -i * x == -(i * x)
  {
  }

  lemma MixedFactors(d: int, x1: int, y1: int, x2: int, y2: int)
    ensures Mixed(d, x1, y1, x2, y2) == (d * (x2 * y2)) * (x1 * y1)
    ensures Mixed(d, x1, y1, x2, y2) == (d * ((x1 * y1) * x2)) * y2
  {
  }

  lemma MixedZero(d: int, x1: int, y1: int, x2: int, y2: int)
    requires Cong(x1 * y1, 0) || Cong(y2, 0)
    ensures Cong(Mixed(d, x1, y1, x2, y2), 0)
  {
    MixedFactors(d, x1, y1, x2, y2);
    if Cong(x1 * y1, 0) {
      CongScale(d * (x2 * y2), x1 * y1, 0);
    } else {
      CongScale(d * ((x1 * y1) * x2), y2, 0);
    }
  }

  lemma NotUnit(d: int, i: int, x1: int, y1: int, x2: int, y2: int, e: int)
    requires NonSquare(d) && Cong(i * i, -1) && Curve(d, x1, y1) && Curve(d, x2, y2)
    requires e == 1 || e == -1
    ensures !Cong(Mixed(d, x1, y1, x2, y2), e)
  {
    var f := Mixed(d, x1, y1, x2, y2);
    if Cong(f, e) {
      RatioOf(d, i, x1, y1, x2, y2, e);
      NegativeRoot(i, x2);
      RatioOf(d, -i, x1, y1, x2, y2, e);
      FactorsVanish(x1 * y1, y2, i * x2);
      MixedZero(d, x1, y1, x2, y2);
      CongAdd(f, e, f, 0);
      ZeroNotUnit(e);
    }
  }

  /** The denominators 1 + d x1 x2 y1 y2 and 1 - d x1 x2 y1 y2 are never zero. */
  lemma Complete(d: int, i: int, x1: int, y1: int, x2: int, y2: int)
    requires NonSquare(d) && Cong(i * i, -1) && Curve(d, x1, y1) && Curve(d, x2, y2)
    ensures Regular(d, x1, y1, x2, y2)
  {
    var f := Mixed(d, x1, y1, x2, y2);
    NotUnit(d, i, x1, y1, x2, y2, 1);
    NotUnit(d, i, x1, y1, x2, y2, -1);
    if Cong(1 + f, 0) {
      Combine1(f, -1, 1, 1 + f, 0);
    }
    if Cong(1 - f, 0) {
      Combine1(f, 1, -1, 1 - f, 0);
    }
  }
}
