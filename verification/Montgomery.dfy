/** The Montgomery ladder on u = (1 + y)/(1 - y) (keypair/key_exchange.c:43-71).  A pair (X, Z) stands
    for the point (x, y) when X = l (1 + y) and Z = l (1 - y) for some l that is not zero. */
module Montgomery {
  import opened Power
  import opened PrimeField
  import opened PrimeModulus
  import opened EdwardsAlgebra
  import opened EdwardsCurve
  import opened CurveConstants
  import opened CurveGroup
  import GeDecoding

  /** (x, z) is l times (1 + y, 1 - y). */
  ghost predicate Scaled(l: int, x: int, z: int, y: int) {
    !Cong(l, 0) && Cong(x, l * (1 + y)) && Cong(z, l * (1 - y))
  }

  // -------------------------------------------------------------------------------------------
  // Doubling
  // -------------------------------------------------------------------------------------------

  lemma SumAndDifference(l: int, x: int, z: int, y: int)
    requires Cong(x, l * (1 + y)) && Cong(z, l * (1 - y))
    ensures Cong(x + z, 2 * l) && Cong(x - z, 2 * (l * y))
  {
    CongAdd(x, l * (1 + y), z, l * (1 - y));
    Expand(l, y);
  }

  lemma Expand(l: int, y: int)
    ensures l * (1 + y) == l + l * y && l * (1 - y) == l - l * y
  {
  }

  lemma Squares(l: int, x: int, z: int, y: int, aa: int, bb: int)
    requires Cong(x, l * (1 + y)) && Cong(z, l * (1 - y))
    requires Cong(aa, (x + z) * (x + z)) && Cong(bb, (x - z) * (x - z))
    ensures Cong(aa, 4 * (l * l)) && Cong(bb, 4 * ((l * l) * (y * y)))
  {
    SumAndDifference(l, x, z, y);
    CongMul(x + z, 2 * l, x + z, 2 * l);
    CongMul(x - z, 2 * (l * y), x - z, 2 * (l * y));
    CongTrans(aa, (x + z) * (x + z), (2 * l) * (2 * l));
    CongTrans(bb, (x - z) * (x - z), (2 * (l * y)) * (2 * (l * y)));
    Rearrange(l, y, l, y);
    DoubledSquare(l);
    DoubledSquare(l * y);
  }

  lemma DoubledSquare(x: int)
    ensures (2 * x) * (2 * x) == 4 * (x * x)
  {
  }

  /** The two halves of a doubling, with q = l^2, w = y^2, v = x^2, t = 121666 - 121665 y^2 and n = 2 - w + v. */
  lemma DoubleX(q: int, w: int, v: int, t: int, n: int, y2: int, aa: int, bb: int)
    requires Cong(aa, 4 * q) && Cong(bb, 4 * (q * w))
    requires Cong(n * y2, w + v) && Cong(n, 2 - w + v) && Cong(t * (1 + v), w)
    ensures Cong(aa * bb, (8 * ((q * q) * (t * n))) * (1 + y2))
  {
    CongMul(aa, 4 * q, bb, 4 * (q * w));
    CongScale(16 * (q * q), t * (1 + v), w);
    CongAdd(n, 2 - w + v, n * y2, w + v);
    CongScale((8 * (q * q)) * t, n + n * y2, 2 + 2 * v);
    DoubleXTerms(q, w, v, t, n, y2);
    CongSym((8 * ((q * q) * (t * n))) * (1 + y2), (16 * (q * q)) * (t * (1 + v)));
    CongSym((16 * (q * q)) * (t * (1 + v)), (16 * (q * q)) * w);
    CongTrans(aa * bb, (16 * (q * q)) * w, (16 * (q * q)) * (t * (1 + v)));
    CongTrans(aa * bb, (16 * (q * q)) * (t * (1 + v)), (8 * ((q * q) * (t * n))) * (1 + y2));
  }

  lemma DoubleXTerms(q: int, w: int, v: int, t: int, n: int, y2: int)
    ensures (4 * q) * (4 * (q * w)) == (16 * (q * q)) * w
    ensures ((8 * (q * q)) * t) * (n + n * y2) == (8 * ((q * q) * (t * n))) * (1 + y2)
    ensures ((8 * (q * q)) * t) * (2 + 2 * v) == (16 * (q * q)) * (t * (1 + v))
  {
    var k := q * q;
    assert (4 * q) * (4 * (q * w)) == 16 * (q * (q * w)) == 16 * (k * w);
    assert ((8 * k) * t) * (n + n * y2) == 8 * (k * (t * (n * (1 + y2)))) by {
      assert n + n * y2 == n * (1 + y2);
    }
    assert (8 * (k * (t * n))) * (1 + y2) == 8 * (k * (t * (n * (1 + y2)))) by {
      Rearrange(k, t * n, 1, 1 + y2);
    }
  }

  lemma DoubleZ(q: int, w: int, v: int, t: int, n: int, y2: int, aa: int, bb: int, f: int)
    requires Cong(aa, 4 * q) && Cong(bb, 4 * (q * w)) && Cong(f, 121666 * (aa - bb))
    requires Cong(n * y2, w + v) && Cong(n, 2 - w + v) && t == 121666 - 121665 * w
    ensures Cong((aa - bb) * (bb + f), (8 * ((q * q) * (t * n))) * (1 - y2))
  {
    CongAdd(aa, 4 * q, bb, 4 * (q * w));
    CongScale(121666, aa - bb, 4 * q - 4 * (q * w));
    CongTrans(f, 121666 * (aa - bb), 121666 * (4 * q - 4 * (q * w)));
    CongAdd(bb, 4 * (q * w), f, 121666 * (4 * q - 4 * (q * w)));
    DoubleZTerms(q, w, t, n, y2);
    CongMul(aa - bb, (4 * q) * (1 - w), bb + f, (4 * q) * t);
    CongAdd(n, 2 - w + v, n * y2, w + v);
    CongScale((8 * (q * q)) * t, n - n * y2, 2 - 2 * w);
    CongSym((8 * ((q * q) * (t * n))) * (1 - y2), ((4 * q) * (1 - w)) * ((4 * q) * t));
    CongTrans((aa - bb) * (bb + f), ((4 * q) * (1 - w)) * ((4 * q) * t), (8 * ((q * q) * (t * n))) * (1 - y2));
  }

  lemma DoubleZTerms(q: int, w: int, t: int, n: int, y2: int)
    requires t == 121666 - 121665 * w
    ensures 4 * q - 4 * (q * w) == (4 * q) * (1 - w)
    ensures 4 * (q * w) + 121666 * (4 * q - 4 * (q * w)) == (4 * q) * t
    ensures ((8 * (q * q)) * t) * (n - n * y2) == (8 * ((q * q) * (t * n))) * (1 - y2)
    ensures ((8 * (q * q)) * t) * (2 - 2 * w) == ((4 * q) * (1 - w)) * ((4 * q) * t)
  {
    DoubleXTerms(q, w, -w, t, n, -y2);
    assert q * t == 121666 * q - 121665 * (q * w);
    Rearrange(q, 1 - w, q, t);
    assert (4 * q) * (1 - w) == 4 * (q * (1 - w)) && (4 * q) * t == 4 * (q * t);
    assert (4 * (q * (1 - w))) * (4 * (q * t)) == 16 * ((q * (1 - w)) * (q * t));
  }

  /** t (1 + x^2) = y^2 on the curve, for 121666 d = -121665. */
  lemma CurveT(d: int, w: int, v: int, e: int, t: int)
    requires Cong(121666 * d, -121665) && Cong(w - v, 1 + d * e) && e == v * w && t == 121666 - 121665 * w
    ensures Cong(t * (1 + v), w)
  {
    CongScale(121666, w - v, 1 + d * e);
    CurveTTerms(d, w, v, e, t);
    Combine2(t * (1 + v), w, -1, 121666 * (w - v), 121666 * (1 + d * e), -e, 121666 * d, -121665);
  }

  lemma CurveTTerms(d: int, w: int, v: int, e: int, t: int)
    requires e == v * w && t == 121666 - 121665 * w
    ensures t * (1 + v) - w
            == -1 * (121666 * (w - v) - 121666 * (1 + d * e)) + -e * (121666 * d - -121665)
  {
    assert t * (1 + v) == t + t * v;
    assert t * v == 121666 * v - 121665 * (w * v);
    assert -e * (121666 * d - -121665) == -121666 * (d * e) - 121665 * e;
    assert w * v == e;
  }

  lemma SquareProduct(x: int, y: int)
    ensures (x * y) * (x * y) == (x * x) * (y * y)
  {
    Rearrange(x, y, x, y);
  }

  lemma TNonzero(y: int)
    ensures !Cong(121666 - 121665 * (y * y), 0)
  {
    var w, t := y * y, 121666 - 121665 * (y * y);
    GeDecoding.DenominatorY(y);
    NonzeroConstants();
    Nonzero(121666, D() * w + 1);
    ScaledDenominator(D(), w, t);
    if Cong(t, 0) {
      CongTrans(121666 * (D() * w + 1), t, 0);
    }
  }

  lemma ScaledDenominator(d: int, w: int, t: int)
    requires Cong(121666 * d, -121665) && t == 121666 - 121665 * w
    ensures Cong(121666 * (d * w + 1), t)
  {
    assert 121666 * (d * w + 1) - t == w * (121666 * d - -121665);
    Combine1(121666 * (d * w + 1), t, w, 121666 * d, -121665);
  }

  /** ge_p2_dbl on u: the X and Z that a ladder step computes for the doubled point. */
  lemma DoubleScaled(l: int, x: int, z: int, p: Point, aa: int, bb: int, f: int) returns (m: int)
    requires OnCurve(p) && Scaled(l, x, z, p.y)
    requires Cong(aa, (x + z) * (x + z)) && Cong(bb, (x - z) * (x - z)) && Cong(f, 121666 * (aa - bb))
    ensures Scaled(m, aa * bb, (aa - bb) * (bb + f), Add(p, p).y)
  {
    var w, v, t := p.y * p.y, p.x * p.x, 121666 - 121665 * (p.y * p.y);
    var n := 1 - Mixed(D(), p.x, p.y, p.x, p.y);
    DoubledPoint(p);
    Squares(l, x, z, p.y, aa, bb);
    DoubleX(l * l, w, v, t, n, Add(p, p).y, aa, bb);
    DoubleZ(l * l, w, v, t, n, Add(p, p).y, aa, bb, f);
    m := 8 * (((l * l) * (l * l)) * (t * n));
    TNonzero(p.y);
    Nonzero(l, l);
    Nonzero(l * l, l * l);
    Nonzero(t, n);
    Nonzero((l * l) * (l * l), t * n);
    EightNonzero(((l * l) * (l * l)) * (t * n));
  }

  lemma EightNonzero(x: int)
    requires !Cong(x, 0)
    ensures !Cong(8 * x, 0) && !Cong(16 * x, 0)
  {
    if Cong(8 * x, 0) {
      Halve(4 * x);
      Halve(2 * x);
      Halve(x);
    }
    if Cong(16 * x, 0) {
      Halve(8 * x);
    }
  }

  lemma DoubledPoint(p: Point)
    requires OnCurve(p)
    ensures var n := 1 - Mixed(D(), p.x, p.y, p.x, p.y);
            && !Cong(n, 0) && Cong(n * Add(p, p).y, p.y * p.y + p.x * p.x) && Cong(n, 2 - p.y * p.y + p.x * p.x)
    ensures Cong((121666 - 121665 * (p.y * p.y)) * (1 + p.x * p.x), p.y * p.y)
  {
    hide Sum, Regular, IsSum, Curve;
    OnCurveIs(p);
    AddCloses(p, p);
    DoubledCoordinates(D(), p.x, p.y, Add(p, p).x, Add(p, p).y);
  }

  lemma DoubledCoordinates(d: int, x: int, y: int, x2: int, y2: int)
    requires Curve(d, x, y) && Sum(d, x, y, x, y, x2, y2) && Cong(121666 * d, -121665)
    ensures var n := 1 - Mixed(d, x, y, x, y);
            !Cong(n, 0) && Cong(n * y2, y * y + x * x) && Cong(n, 2 - y * y + x * x)
    ensures Cong((121666 - 121665 * (y * y)) * (1 + x * x), y * y)
  {
    var e := (x * y) * (x * y);
    SumIs(d, x, y, x, y, x2, y2);
    SquareProduct(x, y);
    CurveT(d, y * y, x * x, e, 121666 - 121665 * (y * y));
    DoubledDenominator(y * y - x * x, d * e);
    Commuted(y2, 1 - Mixed(d, x, y, x, y), SumY(x, y, x, y));
  }

  lemma DoubledDenominator(k: int, m: int)
    requires Cong(k, 1 + m)
    ensures Cong(1 - m, 2 - k)
  {
    CongSym(k, 1 + m);
    Combine1(1 - m, 2 - k, -1, 1 + m, k);
  }

  lemma Commuted(a: int, b: int, c: int)
    requires Cong(a * b, c)
    ensures Cong(b * a, c)
  {
  }

  // -------------------------------------------------------------------------------------------
  // Differential addition
  // -------------------------------------------------------------------------------------------

  lemma OnePlusSquared(s: int)
    ensures (1 + s) * (1 + s) == (1 + s * s) + 2 * s && (1 - s) * (1 - s) == (1 + s * s) - 2 * s
  {
  }

  lemma CrossDifference(p: int, q: int, s: int, r: int)
    ensures (p + 2 * s) * q - p * (q - 2 * r) == 2 * (s * q + r * p)
  {
  }

  lemma CrossSum(s: int, r: int)
    ensures (s + r) * (1 + s * r) == s * (1 + r * r) + r * (1 + s * s)
  {
    assert s * (r * r) == r * (s * r) && r * (s * s) == s * (s * r);
    assert (s + r) * (1 + s * r) == s + r + s * (s * r) + r * (s * r);
  }

  lemma CoreConstant(s: int, r: int)
    ensures ((1 + s) * (1 + s)) * (r * r + 1) - (s * s + 1) * ((1 - r) * (1 - r)) == 2 * ((s + r) * (1 + s * r))
  {
    OnePlusSquared(s);
    OnePlusSquared(r);
    CrossDifference(1 + s * s, 1 + r * r, s, r);
    CrossSum(s, r);
  }

  lemma CoreLinear(s: int, d: int, r: int)
    requires r == d * s
    ensures d * ((1 + s) * (1 + s)) + (1 - r) * (1 - r) == (1 + d) * (1 + s * r)
  {
    assert d * ((1 + s) * (1 + s)) == d + 2 * r + s * r by {
      assert d * (s * s) == s * (d * s);
      assert (1 + s) * (1 + s) == 1 + 2 * s + s * s;
    }
    assert d * (s * r) == (d * s) * r;
  }

  lemma CoreIdentity(s: int, d: int, r: int, t: int)
    requires r == d * s
    ensures ((1 + s) * (1 + s)) * (r * r + d * t + 1) - (s * s - t + 1) * ((1 - r) * (1 - r))
            == ((1 + d) * (1 + s * r)) * (t + 2 * s)
  {
    var a, b := (1 + s) * (1 + s), (1 - r) * (1 - r);
    CoreConstant(s, r);
    CoreLinear(s, d, r);
    Collect(a, b, d, t, r * r + 1, s * s + 1);
    FactorS(s, d, r, 1 + s * r);
    SplitLast((1 + d) * (1 + s * r), t, s);
  }

  lemma FactorS(s: int, d: int, r: int, x: int)
    requires r == d * s
    ensures (s + r) * x == s * ((1 + d) * x)
  {
    assert s + r == s * (1 + d);
  }

  lemma Collect(a: int, b: int, d: int, t: int, q: int, p: int)
    ensures a * (q + d * t) - (p - t) * b == t * (d * a + b) + (a * q - p * b)
  {
  }

  lemma SplitLast(g: int, t: int, s: int)
    ensures g * (t + 2 * s) == t * g + 2 * (s * g)
  {
  }

  /** Half of the law: (1 + k y(P + Q)) (1 + k y(Q - P)) for k = 1 or k = -1, with s = y1 y2, m = x1 x2,
      e = d m s, and the denominators cleared. */
  lemma HalfProduct(k: int, y5: int, yr: int, e: int, s: int, m: int)
    requires (k == 1 || k == -1) && Cong(y5 * (1 - e), s + m) && Cong(yr * (1 + e), s - m)
    ensures Cong(((1 + k * y5) * (1 + k * yr)) * ((1 - e) * (1 + e)),
                 (1 + k * s) * (1 + k * s) - (m - k * e) * (m - k * e))
  {
    Numerator(k, y5, 1 - e, s + m);
    Numerator(k, yr, 1 + e, s - m);
    CongMul((1 + k * y5) * (1 - e), (1 - e) + k * (s + m), (1 + k * yr) * (1 + e), (1 + e) + k * (s - m));
    Rearrange(1 + k * y5, 1 - e, 1 + k * yr, 1 + e);
    HalfTerms(k, e, s, m);
  }

  lemma Numerator(k: int, y: int, n: int, r: int)
    requires Cong(y * n, r)
    ensures Cong((1 + k * y) * n, n + k * r)
  {
    assert (1 + k * y) * n == n + k * (y * n);
    Combine1((1 + k * y) * n, n + k * r, k, y * n, r);
  }

  lemma HalfTerms(k: int, e: int, s: int, m: int)
    requires k == 1 || k == -1
    ensures ((1 - e) + k * (s + m)) * ((1 + e) + k * (s - m)) == (1 + k * s) * (1 + k * s) - (m - k * e) * (m - k * e)
  {
  }

  lemma RootTerm(d: int, x: int, y: int)
    requires Curve(d, x, y)
    ensures Cong((d * (y * y) + 1) * (x * x), y * y - 1)
  {
    CongSelf(y * y - 1);
    CongSelf(d * (y * y) + 1);
    GeDecoding.RootOnCurve(d, x, y, y * y - 1, d * (y * y) + 1);
  }

  /** m^2 times both denominators. */
  lemma ProductOfX(a: int, b: int, x1: int, x2: int, u: int, v: int)
    requires Cong(a * (x1 * x1), u) && Cong(b * (x2 * x2), v)
    ensures Cong((a * b) * ((x1 * x2) * (x1 * x2)), u * v)
  {
    CongMul(a * (x1 * x1), u, b * (x2 * x2), v);
    SquareProduct(x1, x2);
    Rearrange(a, x1 * x1, b, x2 * x2);
  }

  /** The left half of the law, with both denominators multiplied in. */
  lemma HalfScaled(k: int, y5: int, yr: int, e: int, s: int, m: int, v: int, w: int, r: int)
    requires (k == 1 || k == -1) && Cong(y5 * (1 - e), s + m) && Cong(yr * (1 + e), s - m)
    requires Cong(v * (m * m), w) && m - k * e == m * (1 - r)
    ensures Cong(((1 + k * y5) * (1 + k * yr)) * (((1 - e) * (1 + e)) * v),
                 ((1 + k * s) * (1 + k * s)) * v - w * ((1 - r) * (1 - r)))
  {
    var left, a, b := (1 + k * y5) * (1 + k * yr), (1 + k * s) * (1 + k * s), (1 - r) * (1 - r);
    HalfProduct(k, y5, yr, e, s, m);
    Rearrange(m, 1 - r, m, 1 - r);
    CongScale(v, left * ((1 - e) * (1 + e)), a - (m * m) * b);
    Distributed(v, a, m * m, b);
    Reassociated(left, (1 - e) * (1 + e), v);
    CongScale(b, v * (m * m), w);
    Combine1(v * (a - (m * m) * b), a * v - w * b, -1, b * (v * (m * m)), b * w);
    CongTrans(left * (((1 - e) * (1 + e)) * v), v * (a - (m * m) * b), a * v - w * b);
  }

  lemma Distributed(v: int, a: int, m: int, b: int)
    ensures v * (a - m * b) == a * v - b * (v * m)
  {
    assert v * (m * b) == b * (v * m);
  }

  lemma Reassociated(a: int, b: int, c: int)
    ensures a * (b * c) == c * (a * b)
  {
  }

  lemma BothDenominators(d: int, y1: int, y2: int, k: int)
    requires k == 1 || k == -1
    ensures var s, t, r := k * (y1 * y2), y1 * y1 + y2 * y2, d * (k * (y1 * y2));
            && (d * (y1 * y1) + 1) * (d * (y2 * y2) + 1) == r * r + d * t + 1
            && (y1 * y1 - 1) * (y2 * y2 - 1) == s * s - t + 1
            && t + 2 * s == (y1 + k * y2) * (y1 + k * y2)
            && s * r == d * ((y1 * y2) * (y1 * y2))
  {
    var s := y1 * y2;
    SquareProduct(y1, y2);
    Rearrange(d, s, d, s);
    Rearrange(d, y1 * y1, d, y2 * y2);
    assert (k * s) * (k * s) == s * s;
    assert (d * (k * s)) * (d * (k * s)) == (d * s) * (d * s);
    assert (y1 + k * y2) * (y1 + k * y2) == y1 * y1 + 2 * (k * s) + y2 * y2;
    assert (k * s) * (d * (k * s)) == d * ((k * s) * (k * s));
  }

  /** (1 + k y(P + Q)) (1 + k y(Q - P)) is (y1 + k y2)^2 times a factor that does not depend on k. */
  lemma HalfLaw(k: int, d: int, x1: int, y1: int, x2: int, y2: int, y5: int, yr: int, e: int)
    requires (k == 1 || k == -1) && Curve(d, x1, y1) && Curve(d, x2, y2) && e == d * ((x1 * x2) * (y1 * y2))
    requires Cong(y5 * (1 - e), y1 * y2 + x1 * x2) && Cong(yr * (1 + e), y1 * y2 - x1 * x2)
    ensures Cong(((1 + k * y5) * (1 + k * yr)) * (((1 - e) * (1 + e)) * ((d * (y1 * y1) + 1) * (d * (y2 * y2) + 1))),
                 ((1 + d) * (1 + d * ((y1 * y2) * (y1 * y2)))) * ((y1 + k * y2) * (y1 + k * y2)))
  {
    var s, m, a, b := y1 * y2, x1 * x2, d * (y1 * y1) + 1, d * (y2 * y2) + 1;
    var r, t := d * (k * s), y1 * y1 + y2 * y2;
    RootTerm(d, x1, y1);
    RootTerm(d, x2, y2);
    ProductOfX(a, b, x1, x2, y1 * y1 - 1, y2 * y2 - 1);
    FactorM(d, m, s, k);
    HalfScaled(k, y5, yr, e, s, m, a * b, (y1 * y1 - 1) * (y2 * y2 - 1), r);
    BothDenominators(d, y1, y2, k);
    CoreIdentity(k * s, d, r, t);
  }

  lemma FactorM(d: int, m: int, s: int, k: int)
    ensures m - k * (d * (m * s)) == m * (1 - d * (k * s))
  {
    assert k * (d * (m * s)) == m * (d * (k * s));
  }

  /** The cross products of a ladder step. */
  lemma CrossProducts(l: int, x: int, z: int, y: int, m: int, x3: int, z3: int, y3: int, da: int, cb: int)
    requires Cong(x, l * (1 + y)) && Cong(z, l * (1 - y)) && Cong(x3, m * (1 + y3)) && Cong(z3, m * (1 - y3))
    requires Cong(da, (x3 - z3) * (x + z)) && Cong(cb, (x3 + z3) * (x - z))
    ensures Cong(da + cb, (4 * (l * m)) * (y + y3)) && Cong(da - cb, (4 * (l * m)) * -(y - y3))
  {
    SumAndDifference(l, x, z, y);
    SumAndDifference(m, x3, z3, y3);
    CongMul(x3 - z3, 2 * (m * y3), x + z, 2 * l);
    CongMul(x3 + z3, 2 * m, x - z, 2 * (l * y));
    CongTrans(da, (x3 - z3) * (x + z), (2 * (m * y3)) * (2 * l));
    CongTrans(cb, (x3 + z3) * (x - z), (2 * m) * (2 * (l * y)));
    CrossTerms(l, m, y, y3);
    CongAdd(da, (4 * (l * m)) * y3, cb, (4 * (l * m)) * y);
  }

  lemma CrossTerms(l: int, m: int, y: int, y3: int)
    ensures (2 * (m * y3)) * (2 * l) == (4 * (l * m)) * y3 && (2 * m) * (2 * (l * y)) == (4 * (l * m)) * y
    ensures (4 * (l * m)) * y3 + (4 * (l * m)) * y == (4 * (l * m)) * (y + y3)
    ensures (4 * (l * m)) * y3 - (4 * (l * m)) * y == (4 * (l * m)) * -(y - y3)
  {
    assert (m * y3) * l == (l * m) * y3;
    assert m * (l * y) == (l * m) * y;
  }

  /** From G X = C K (1 + yr) (1 + y5) to X = h (1 + y5), with h = C K (1 + yr) / G. */
  lemma Divided(g: int, x: int, c: int, n: int, h: int)
    requires !Cong(g, 0) && Cong(g * x, c * n) && Cong(g * h, c)
    ensures Cong(x, h * n)
  {
    CongScale(n, g * h, c);
    CongSym(n * (g * h), n * c);
    assert n * (g * h) == g * (h * n) && n * c == c * n;
    CongTrans(g * x, c * n, g * (h * n));
    Cancel(g, x, h * n);
  }

  lemma Division(g: int, c: int) returns (h: int)
    requires !Cong(g, 0)
    ensures Cong(g * h, c) && (!Cong(c, 0) ==> !Cong(h, 0))
  {
    h := c * Pow(g, P - 2);
    Inverse(g);
    CongScale(c, g * Pow(g, P - 2), 1);
    assert c * (g * Pow(g, P - 2)) == g * h;
    if Cong(h, 0) {
      CongScale(g, h, 0);
      CongSym(g * h, c);
      CongTrans(c, g * h, 0);
    }
  }

  /** X of the sum: the square of da + cb. */
  lemma SumX5(g: int, c: int, a: int, y5: int, yr: int, kk: int, x5: int)
    requires Cong(x5, c * a) && Cong(((1 + y5) * (1 + yr)) * kk, g * a)
    ensures Cong(g * x5, (c * (kk * (1 + yr))) * (1 + y5))
  {
    CongScale(g, x5, c * a);
    CongScale(c, ((1 + y5) * (1 + yr)) * kk, g * a);
    CongSym(c * (((1 + y5) * (1 + yr)) * kk), c * (g * a));
    assert g * (c * a) == c * (g * a);
    CongTrans(g * x5, c * (g * a), c * (((1 + y5) * (1 + yr)) * kk));
    Reordered(c, 1 + y5, 1 + yr, kk);
  }

  lemma Reordered(c: int, n: int, r: int, k: int)
    ensures c * ((n * r) * k) == (c * (k * r)) * n
  {
    assert (n * r) * k == (k * r) * n;
  }

  /** Z of the sum: the difference u1 times the square of da - cb. */
  lemma SumZ5(g: int, c: int, a: int, y5: int, yr: int, kk: int, u: int, z5: int)
    requires Cong(z5, u * (c * a)) && Cong(((1 - y5) * (1 - yr)) * kk, g * a) && Cong(u * (1 - yr), 1 + yr)
    ensures Cong(g * z5, (c * (kk * (1 + yr))) * (1 - y5))
  {
    CongScale(g, z5, u * (c * a));
    CongScale(u * c, ((1 - y5) * (1 - yr)) * kk, g * a);
    CongSym((u * c) * (((1 - y5) * (1 - yr)) * kk), (u * c) * (g * a));
    Rearrange(g, u, c, a);
    assert g * (u * (c * a)) == (u * c) * (g * a);
    CongTrans(g * z5, (u * c) * (g * a), (u * c) * (((1 - y5) * (1 - yr)) * kk));
    CongScale((c * kk) * (1 - y5), u * (1 - yr), 1 + yr);
    Reordered2(u, c, 1 - y5, 1 - yr, kk, 1 + yr);
    CongTrans(g * z5, ((c * kk) * (1 - y5)) * (u * (1 - yr)), ((c * kk) * (1 - y5)) * (1 + yr));
  }

  lemma Reordered2(u: int, c: int, n: int, r: int, k: int, q: int)
    ensures (u * c) * ((n * r) * k) == ((c * k) * n) * (u * r)
    ensures ((c * k) * n) * q == (c * (k * q)) * n
  {
    assert (n * r) * k == (k * n) * r;
    Rearrange(u, c, r, k * n);
    assert (u * c) * (r * (k * n)) == (u * r) * (c * (k * n));
    assert c * (k * n) == (c * k) * n;
    assert ((c * k) * n) * q == n * (q * (c * k)) == (c * (k * q)) * n;
  }

  lemma OnePlusD()
    ensures !Cong(1 + D(), 0)
  {
    if Cong(1 + D(), 0) {
      CongScale(121666, 1 + D(), 0);
      Combine1(121666 * (1 + D()), 1, 1, 121666 * D(), -121665);
      CongSym(121666 * (1 + D()), 1);
      CongTrans(1, 121666 * (1 + D()), 0);
      CongMod(1, 0);
      assert false;
    }
  }

  /** The sum of two points, before division. */
  lemma SumY5(p: Point, q: Point)
    requires OnCurve(p) && OnCurve(q)
    ensures var e := D() * ((p.x * q.x) * (p.y * q.y));
            !Cong(1 - e, 0) && !Cong(1 + e, 0) && Cong(Add(p, q).y * (1 - e), p.y * q.y + p.x * q.x)
  {
    Rearrange(p.x, p.y, q.x, q.y);
    AddCloses(p, q);
    SumIs(D(), p.x, p.y, q.x, q.y, Add(p, q).x, Add(p, q).y);
  }

  /** Their difference. */
  lemma DifferenceY(p: Point, q: Point)
    requires OnCurve(p) && OnCurve(q)
    ensures Cong(Add(q, Neg(p)).y * (1 + D() * ((p.x * q.x) * (p.y * q.y))), p.y * q.y - p.x * q.x)
  {
    NegOnCurve(p);
    AddCloses(q, Neg(p));
    SumIs(D(), q.x, q.y, Neg(p).x, p.y, Add(q, Neg(p)).x, Add(q, Neg(p)).y);
    Opposite(D(), p.x, p.y, q.x, q.y, Neg(p).x, Add(q, Neg(p)).y);
  }

  lemma Opposite(d: int, x1: int, y1: int, x2: int, y2: int, n: int, y: int)
    requires Cong(n, -x1) && Cong(y * (1 - Mixed(d, x2, y2, n, y1)), SumY(x2, y2, n, y1))
    ensures Cong(y * (1 + d * ((x1 * x2) * (y1 * y2))), y1 * y2 - x1 * x2)
  {
    var c := d * (x2 * (y1 * y2));
    OppositeTerms(d, x1, y1, x2, y2, n);
    CongSym(n, -x1);
    Combine1(y * (1 + d * ((x1 * x2) * (y1 * y2))), y * (1 - Mixed(d, x2, y2, n, y1)), -(y * c), -x1, n) by {
      assert y * (1 - c * -x1) - y * (1 - c * n) == -(y * c) * (-x1 - n) by {
        assert (y * c) * (-x1 - n) == y * (c * -x1) - y * (c * n);
      }
    }
    CongSym(-x1, n);
    Combine1(SumY(x2, y2, n, y1), y1 * y2 - x1 * x2, x2, n, -x1);
    CongTrans(y * (1 + d * ((x1 * x2) * (y1 * y2))), y * (1 - Mixed(d, x2, y2, n, y1)), SumY(x2, y2, n, y1));
    CongTrans(y * (1 + d * ((x1 * x2) * (y1 * y2))), SumY(x2, y2, n, y1), y1 * y2 - x1 * x2);
  }

  lemma OppositeTerms(d: int, x1: int, y1: int, x2: int, y2: int, n: int)
    ensures Mixed(d, x2, y2, n, y1) == (d * (x2 * (y1 * y2))) * n
    ensures d * ((x1 * x2) * (y1 * y2)) == -((d * (x2 * (y1 * y2))) * -x1)
  {
    assert (x2 * y2) * (n * y1) == (x2 * (y1 * y2)) * n;
    assert (x1 * x2) * (y1 * y2) == (x2 * (y1 * y2)) * x1;
  }

  lemma SquaredCross(k: int, c: int, a: int)
    requires Cong(k, c * a)
    ensures Cong(k * k, (c * c) * (a * a))
  {
    CongMul(k, c * a, k, c * a);
    Rearrange(c, a, c, a);
  }

  lemma FactorsNonzero(p: Point, q: Point, e: int)
    requires !Cong(1 - e, 0) && !Cong(1 + e, 0)
    ensures !Cong(((1 - e) * (1 + e)) * ((D() * (p.y * p.y) + 1) * (D() * (q.y * q.y) + 1)), 0)
    ensures !Cong((1 + D()) * (1 + D() * ((p.y * q.y) * (p.y * q.y))), 0)
  {
    GeDecoding.DenominatorY(p.y);
    GeDecoding.DenominatorY(q.y);
    GeDecoding.DenominatorY(p.y * q.y);
    OnePlusD();
    Nonzero(1 - e, 1 + e);
    Nonzero(D() * (p.y * p.y) + 1, D() * (q.y * q.y) + 1);
    Nonzero((1 - e) * (1 + e), (D() * (p.y * p.y) + 1) * (D() * (q.y * q.y) + 1));
    Nonzero(1 + D(), 1 + D() * ((p.y * q.y) * (p.y * q.y)));
  }

  /** The X and Z that a ladder step computes for the sum of two points with the difference yr. */
  lemma AddScaled(l: int, x: int, z: int, p: Point, m: int, x3: int, z3: int, q: Point, u: int, yr: int,
                  da: int, cb: int, x5: int, z5: int) returns (h: int)
    requires OnCurve(p) && OnCurve(q) && Scaled(l, x, z, p.y) && Scaled(m, x3, z3, q.y)
    requires yr == Add(q, Neg(p)).y && Cong(u * (1 - yr), 1 + yr) && !Cong(1 + yr, 0)
    requires Cong(da, (x3 - z3) * (x + z)) && Cong(cb, (x3 + z3) * (x - z))
    requires Cong(x5, (da + cb) * (da + cb)) && Cong(z5, u * ((da - cb) * (da - cb)))
    ensures Scaled(h, x5, z5, Add(p, q).y)
  {
    var c := (4 * (l * m)) * (4 * (l * m));
    var a, b := (p.y + q.y) * (p.y + q.y), (p.y - q.y) * (p.y - q.y);
    CrossProducts(l, x, z, p.y, m, x3, z3, q.y, da, cb);
    SquaredCross(da + cb, 4 * (l * m), p.y + q.y);
    SquaredCross(da - cb, 4 * (l * m), -(p.y - q.y));
    assert -(p.y - q.y) * -(p.y - q.y) == b;
    CongTrans(x5, (da + cb) * (da + cb), c * a);
    CongScale(u, (da - cb) * (da - cb), c * b);
    CongTrans(z5, u * ((da - cb) * (da - cb)), u * (c * b));
    Nonzero(l, m);
    FourNonzero(l * m);
    Nonzero(4 * (l * m), 4 * (l * m));
    h := SumScaled(p, q, u, yr, c, x5, z5);
  }

  lemma FourNonzero(x: int)
    requires !Cong(x, 0)
    ensures !Cong(4 * x, 0)
  {
    if Cong(4 * x, 0) {
      Halve(2 * x);
      Halve(x);
    }
  }

  lemma SumScaled(p: Point, q: Point, u: int, yr: int, c: int, x5: int, z5: int) returns (h: int)
    requires OnCurve(p) && OnCurve(q) && !Cong(c, 0)
    requires yr == Add(q, Neg(p)).y && Cong(u * (1 - yr), 1 + yr) && !Cong(1 + yr, 0)
    requires Cong(x5, c * ((p.y + q.y) * (p.y + q.y))) && Cong(z5, u * (c * ((p.y - q.y) * (p.y - q.y))))
    ensures Scaled(h, x5, z5, Add(p, q).y)
  {
    var y5, e := Add(p, q).y, D() * ((p.x * q.x) * (p.y * q.y));
    var g := (1 + D()) * (1 + D() * ((p.y * q.y) * (p.y * q.y)));
    var kk := ((1 - e) * (1 + e)) * ((D() * (p.y * p.y) + 1) * (D() * (q.y * q.y) + 1));
    OnCurveIs(p);
    OnCurveIs(q);
    SumY5(p, q);
    DifferenceY(p, q);
    FactorsNonzero(p, q, e);
    HalfLaw(1, D(), p.x, p.y, q.x, q.y, y5, yr, e);
    HalfLaw(-1, D(), p.x, p.y, q.x, q.y, y5, yr, e);
    SumX5(g, c, (p.y + q.y) * (p.y + q.y), y5, yr, kk, x5);
    SumZ5(g, c, (p.y - q.y) * (p.y - q.y), y5, yr, kk, u, z5);
    Nonzero(kk, 1 + yr);
    Nonzero(c, kk * (1 + yr));
    h := Division(g, c * (kk * (1 + yr)));
    Divided(g, x5, c * (kk * (1 + yr)), 1 + y5, h);
    Divided(g, z5, c * (kk * (1 + yr)), 1 - y5, h);
  }

  // -------------------------------------------------------------------------------------------
  // Ladder steps
  // -------------------------------------------------------------------------------------------

  /** The u-coordinate of a point with coordinate y; 0 for both points without one or with u = 0. */
  ghost function U(y: int): int {
    Quotient(1 + y, 1 - y)
  }

  /** The pair (x, z) stands for the point p, or, when the base point has u = 0, for 0. */
  ghost predicate Stands(u: int, x: int, z: int, p: Point) {
    if Cong(u, 0) then Cong(x * z, 0) else exists l :: Scaled(l, x, z, p.y)
  }

  lemma ScaledBy(l: int, x: int, z: int, y: int, x2: int, z2: int)
    requires Scaled(l, x, z, y) && Cong(x2, x) && Cong(z2, z)
    ensures Scaled(l, x2, z2, y)
  {
    CongTrans(x2, x, l * (1 + y));
    CongTrans(z2, z, l * (1 - y));
  }

  lemma DoubleStands(u: int, x: int, z: int, p: Point, aa: int, bb: int, f: int, x2: int, z2: int)
    requires OnCurve(p) && Stands(u, x, z, p)
    requires Cong(aa, (x + z) * (x + z)) && Cong(bb, (x - z) * (x - z)) && Cong(f, 121666 * (aa - bb))
    requires Cong(x2, aa * bb) && Cong(z2, (aa - bb) * (bb + f))
    ensures Stands(u, x2, z2, Add(p, p))
  {
    if Cong(u, 0) {
      CongAdd(aa, (x + z) * (x + z), bb, (x - z) * (x - z));
      DifferenceOfSquares(x, z);
      CongScale(4, x * z, 0);
      CongTrans(aa - bb, 4 * (x * z), 0);
      ZeroTimes(aa - bb, bb + f);
      CongTrans(z2, (aa - bb) * (bb + f), 0);
      ZeroTimes(z2, x2);
    } else {
      var l :| Scaled(l, x, z, p.y);
      var m := DoubleScaled(l, x, z, p, aa, bb, f);
      ScaledBy(m, aa * bb, (aa - bb) * (bb + f), Add(p, p).y, x2, z2);
    }
  }

  lemma DifferenceOfSquares(x: int, z: int)
    ensures (x + z) * (x + z) - (x - z) * (x - z) == 4 * (x * z)
  {
  }

  lemma ZeroTimes(a: int, b: int)
    requires Cong(a, 0)
    ensures Cong(a * b, 0) && Cong(b * a, 0)
  {
    CongScale(b, a, 0);
  }

  lemma AddStands(u: int, x: int, z: int, p: Point, x3: int, z3: int, q: Point, yr: int, da: int, cb: int, x5: int,
                  z5: int)
    requires OnCurve(p) && OnCurve(q) && Stands(u, x, z, p) && Stands(u, x3, z3, q)
    requires yr == Add(q, Neg(p)).y && (!Cong(u, 0) ==> Cong(u * (1 - yr), 1 + yr))
    requires Cong(da, (x3 - z3) * (x + z)) && Cong(cb, (x3 + z3) * (x - z))
    requires Cong(x5, (da + cb) * (da + cb)) && Cong(z5, u * ((da - cb) * (da - cb)))
    ensures Stands(u, x5, z5, Add(p, q))
  {
    if Cong(u, 0) {
      ZeroTimes(u, (da - cb) * (da - cb));
      CongTrans(z5, u * ((da - cb) * (da - cb)), 0);
      ZeroTimes(z5, x5);
    } else {
      NotOpposite(u, yr);
      var l :| Scaled(l, x, z, p.y);
      var m :| Scaled(m, x3, z3, q.y);
      var h := AddScaled(l, x, z, p, m, x3, z3, q, u, yr, da, cb, x5, z5);
    }
  }

  lemma NotOpposite(u: int, y: int)
    requires !Cong(u, 0) && Cong(u * (1 - y), 1 + y)
    ensures !Cong(1 + y, 0)
  {
    if Cong(1 + y, 0) {
      CongTrans(u * (1 - y), 1 + y, 0);
      NoZeroDivisors(u, 1 - y);
      CongAdd(1 + y, 0, 1 - y, 0);
      CongMod(2, 0);
      assert false;
    }
  }

  /** The affine u-coordinate, when it is not 0. */
  ghost predicate IsAffine(u: int, y: int) {
    !Cong(u, 0) ==> Cong(u * (1 - y), 1 + y) && !Cong(1 - y, 0)
  }

  lemma AffineU(u: int, y: int)
    requires Cong(u, U(y))
    ensures IsAffine(u, y)
  {
    hide Pow;
    if !Cong(u, 0) {
      if Cong(1 - y, 0) {
        QuotientByZero(1 + y, 1 - y);
        CongTrans(u, U(y), 0);
        assert false;
      }
      QuotientTimes(1 + y, 1 - y);
      CongScale(1 - y, u, U(y));
      CongTrans((1 - y) * u, (1 - y) * U(y), 1 + y);
    }
  }

  lemma QuotientByZero(a: int, b: int)
    requires Cong(b, 0)
    ensures Cong(Quotient(a, b), 0)
  {
    QuotientIs(a, b);
    PowOfZero(b, P - 2);
    ZeroTimes(Pow(b, P - 2), a);
    CongSelf(a * Pow(b, P - 2));
    CongTrans(Quotient(a, b), a * Pow(b, P - 2), 0);
  }

  /** The registers before the first step: the neutral element and the base point. */
  lemma StartStands(u: int, p: Point)
    requires IsAffine(u, p.y)
    ensures Stands(u, 1, 0, ZERO) && Stands(u, u, 1, p)
  {
    if Cong(u, 0) {
      CongMod(0, 0);
    } else {
      var h := Division(2, 1) by {
        CongMod(2, 0);
      }
      CongMod(1, 0);
      CongSym(2 * h, 1);
      CongMod(0, 0);
      assert Scaled(h, 1, 0, ZERO.y);
      var l := Division(1 - p.y, 1);
      BaseScaled(l, u, p.y);
      assert Scaled(l, u, 1, p.y);
    }
  }

  lemma BaseScaled(l: int, u: int, y: int)
    requires Cong((1 - y) * l, 1) && Cong(u * (1 - y), 1 + y)
    ensures Cong(u, l * (1 + y)) && Cong(1, l * (1 - y))
  {
    CongScale(l, u * (1 - y), 1 + y);
    CongScale(u, (1 - y) * l, 1);
    CongSym(u * ((1 - y) * l), u);
    assert u * ((1 - y) * l) == l * (u * (1 - y));
    CongTrans(u, l * (u * (1 - y)), l * (1 + y));
    CongSym((1 - y) * l, 1);
  }

  /** X / Z is the u-coordinate; i is the inverse of Z, or 0. */
  lemma ScaledQuotient(l: int, x: int, z: int, y: int, i: int, r: int)
    requires Scaled(l, x, z, y) && Cong(r, x * i)
    requires if Cong(z, 0) then Cong(i, 0) else Cong(z * i, 1)
    ensures Cong(r, U(y))
  {
    hide Quotient;
    if Cong(1 - y, 0) {
      ZeroTimes(1 - y, l);
      CongTrans(z, l * (1 - y), 0);
      ZeroTimes(i, x);
      CongTrans(r, x * i, 0);
      QuotientByZero(1 + y, 1 - y);
      CongSym(U(y), 0);
      CongTrans(r, 0, U(y));
    } else {
      Nonzero(l, 1 - y);
      CongSym(z, l * (1 - y));
      if Cong(z, 0) {
        CongTrans(l * (1 - y), z, 0);
        assert false;
      }
      QuotientOf(l, x, z, y, i, r);
      QuotientTimes(1 + y, 1 - y);
      CongSym(U(y) * (1 - y), 1 + y);
      CongTrans((1 - y) * r, 1 + y, (1 - y) * U(y));
      Cancel(1 - y, r, U(y));
    }
  }

  lemma QuotientOf(l: int, x: int, z: int, y: int, i: int, r: int)
    requires Scaled(l, x, z, y) && Cong(r, x * i) && Cong(z * i, 1)
    ensures Cong((1 - y) * r, 1 + y)
  {
    CongScale(z, r, x * i);
    CongScale(x, z * i, 1);
    assert z * (x * i) == x * (z * i);
    CongTrans(z * r, z * (x * i), x);
    CongTrans(z * r, x, l * (1 + y));
    CongScale(r, z, l * (1 - y));
    CongSym(r * z, r * (l * (1 - y)));
    assert r * (l * (1 - y)) == l * ((1 - y) * r) && r * z == z * r;
    CongTrans(l * ((1 - y) * r), z * r, l * (1 + y));
    Cancel(l, (1 - y) * r, 1 + y);
  }

  /** The points with u = 0, or without u, are those with x = 0. */
  lemma VanishingU(p: Point)
    requires OnCurve(p)
    ensures Cong(U(p.y), 0) <==> p.x == 0
  {
    hide Quotient;
    var x, y := p.x, p.y;
    OnCurveIs(p);
    RootTerm(D(), x, y);
    assert (1 - y) * (1 + y) == -1 * (y * y - 1);
    if Cong(U(y), 0) {
      if !Cong(1 - y, 0) {
        QuotientTimes(1 + y, 1 - y);
        CongSym(U(y) * (1 - y), 1 + y);
        ZeroTimes(U(y), 1 - y);
        CongTrans(1 + y, U(y) * (1 - y), 0);
        ZeroTimes(1 + y, 1 - y);
      } else {
        ZeroTimes(1 - y, 1 + y);
      }
      Combine1(y * y - 1, 0, -1, (1 - y) * (1 + y), 0);
      CongTrans((D() * (y * y) + 1) * (x * x), y * y - 1, 0);
      GeDecoding.DenominatorY(y);
      NoZeroDivisors(D() * (y * y) + 1, x * x);
      NoZeroDivisors(x, x);
      Residues(x, 0);
    }
    if x == 0 {
      CongSym((D() * (y * y) + 1) * (x * x), y * y - 1);
      Combine1((1 - y) * (1 + y), 0, -1, y * y - 1, 0);
      NoZeroDivisors(1 - y, 1 + y);
      if Cong(1 - y, 0) {
        QuotientByZero(1 + y, 1 - y);
      } else {
        QuotientOfZero(1 + y, 1 - y);
      }
    }
  }

  lemma QuotientOfZero(a: int, b: int)
    requires Cong(a, 0)
    ensures Cong(Quotient(a, b), 0)
  {
    QuotientIs(a, b);
    ZeroTimes(a, Pow(b, P - 2));
    CongSelf(a * Pow(b, P - 2));
    CongTrans(Quotient(a, b), a * Pow(b, P - 2), 0);
  }

  lemma SumOnAxis(p: Point, q: Point)
    requires OnCurve(p) && OnCurve(q) && p.x == 0 && q.x == 0
    ensures Add(p, q).x == 0
  {
    var r := Add(p, q);
    AddCloses(p, q);
    SumIs(D(), p.x, p.y, q.x, q.y, r.x, r.y);
    NoZeroDivisors(r.x, 1 + Mixed(D(), p.x, p.y, q.x, q.y));
    OnCurveIs(r);
    Residues(r.x, 0);
  }

  lemma {:induction false} MultipleOnAxis(n: nat, p: Point)
    requires OnCurve(p) && p.x == 0
    ensures Mul(n, p).x == 0
  {
    if n > 0 {
      MultipleOnAxis(n - 1, p);
      MulOnCurve(n - 1, p);
      MulSucc(n - 1, p);
      SumOnAxis(Mul(n - 1, p), p);
    }
  }

  /** What the ladder returns. */
  lemma StandsQuotient(u: int, x: int, z: int, p: Point, i: int, r: int)
    requires Stands(u, x, z, p) && Cong(r, x * i) && (Cong(u, 0) ==> Cong(U(p.y), 0))
    requires if Cong(z, 0) then Cong(i, 0) else Cong(z * i, 1)
    ensures Cong(r, U(p.y))
  {
    hide Quotient, U;
    if Cong(u, 0) {
      VanishingProduct(x, z, i);
      CongTrans(r, x * i, 0);
      CongSym(U(p.y), 0);
      CongTrans(r, 0, U(p.y));
    } else {
      var l :| Scaled(l, x, z, p.y);
      ScaledQuotient(l, x, z, p.y, i, r);
    }
  }

  lemma VanishingProduct(x: int, z: int, i: int)
    requires Cong(x * z, 0) && if Cong(z, 0) then Cong(i, 0) else Cong(z * i, 1)
    ensures Cong(x * i, 0)
  {
    NoZeroDivisors(x, z);
    if Cong(z, 0) {
      ZeroTimes(i, x);
    } else {
      ZeroTimes(x, i);
    }
  }
}
