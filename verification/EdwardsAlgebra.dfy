/** Polynomial identities behind the addition law on -x^2 + y^2 = 1 + d x^2 y^2 over Z/p.
    Coordinates and d are integers, equal when they are congruent. */
module EdwardsAlgebra {
  import opened PrimeField

  // -------------------------------------------------------------------------------------------
  // Consequences of congruences
  // -------------------------------------------------------------------------------------------

  lemma Combine1(g: int, h: int, c: int, a: int, b: int)
    requires Cong(a, b) && g - h == c * (a - b)
    ensures Cong(g, h)
  {
    var k := Witness(a, b);
    assert c * (P * k) == P * (c * k);
    CongBy(g, h, c * k);
  }

  lemma Combine2(g: int, h: int, c: int, a: int, b: int, e: int, x: int, y: int)
    requires Cong(a, b) && Cong(x, y) && g - h == c * (a - b) + e * (x - y)
    ensures Cong(g, h)
  {
    Combine1(c * (a - b), 0, c, a, b);
    Combine1(e * (x - y), 0, e, x, y);
    CongAdd(c * (a - b), 0, e * (x - y), 0);
    var k := Witness(c * (a - b) + e * (x - y), 0);
    CongBy(g, h, k);
  }

  const HALF_P: int := 0x3fff_ffff_ffff_ffff_ffff_ffff_ffff_ffff_ffff_ffff_ffff_ffff_ffff_ffff_ffff_fff6

  lemma Halve(x: int)
    requires Cong(2 * x, 0)
    ensures Cong(x, 0)
  {
    var k := Witness(2 * x, 0);
    CongBy(x, 0, x - HALF_P * k);
  }

  // -------------------------------------------------------------------------------------------
  // The curve and its addition, before division
  // -------------------------------------------------------------------------------------------

  /** (x, y) satisfies the curve equation. */
  ghost predicate Curve(d: int, x: int, y: int) {
    Cong(y * y - x * x, 1 + d * ((x * y) * (x * y)))
  }

  function SumX(x1: int, y1: int, x2: int, y2: int): int {
    x1 * y2 + y1 * x2
  }

  function SumY(x1: int, y1: int, x2: int, y2: int): int {
    y1 * y2 + x1 * x2
  }

  // -------------------------------------------------------------------------------------------
  // Associativity.  With s = x y and u = y^2 + x^2 for each point, and a, b, f, g for the products
  // of the outer points, both coordinates come down to two sums K1 and K2 that vanish.
  // -------------------------------------------------------------------------------------------

  lemma ProductsAB(x1: int, y1: int, x3: int, y3: int)
    ensures (y1 * x3 - x1 * y3) * (x1 * x3 - y1 * y3)
            == (x1 * y1) * (y3 * y3 + x3 * x3) - (x3 * y3) * (y1 * y1 + x1 * x1)
    ensures SumX(x1, y1, x3, y3) * SumY(x1, y1, x3, y3)
            == (x1 * y1) * (y3 * y3 + x3 * x3) + (x3 * y3) * (y1 * y1 + x1 * x1)
  {
  }

  lemma ProductsAG(x1: int, y1: int, x3: int, y3: int)
    ensures SumX(x1, y1, x3, y3) * (x1 * x3 - y1 * y3)
            == -((x3 * y3) * (y1 * y1 - x1 * x1)) - (x1 * y1) * (y3 * y3 - x3 * x3)
    ensures (y1 * x3 - x1 * y3) * SumY(x1, y1, x3, y3)
            == (x3 * y3) * (y1 * y1 - x1 * x1) - (x1 * y1) * (y3 * y3 - x3 * x3)
  {
  }

  lemma Squares(x1: int, y1: int, x3: int, y3: int)
    ensures 4 * ((x1 * y1) * (x3 * y3)) + (y1 * x3 - x1 * y3) * (y1 * x3 - x1 * y3)
            - SumX(x1, y1, x3, y3) * SumX(x1, y1, x3, y3) == 0
    ensures 4 * ((x1 * y1) * (x3 * y3)) + (x1 * x3 - y1 * y3) * (x1 * x3 - y1 * y3)
            - SumY(x1, y1, x3, y3) * SumY(x1, y1, x3, y3) == 0
  {
  }

  lemma CurveProductsExpand(d: int, s: int, k: int, t: int, l: int)
    ensures -(t * k) - s * l + (s + t) * (1 + d * (s * t))
            == -t * (k - (1 + d * (s * s))) + -s * (l - (1 + d * (t * t)))
    ensures t * k - s * l + (s - t) * (1 - d * (s * t)) == t * (k - (1 + d * (s * s))) + -s * (l - (1 + d * (t * t)))
  {
    ThreeFactors(d, s, t);
  }

  lemma ThreeFactors(d: int, s: int, t: int)
    ensures s * (d * (t * t)) == t * (d * (s * t)) && t * (d * (s * s)) == s * (d * (s * t))
  {
  }

  /** What the curve equation says of the products a g and f b. */
  lemma CurveProducts(d: int, s1: int, k1: int, s3: int, k3: int, ag: int, fb: int)
    requires Cong(k1, 1 + d * (s1 * s1)) && Cong(k3, 1 + d * (s3 * s3))
    requires ag == -(s3 * k1) - s1 * k3 && fb == s3 * k1 - s1 * k3
    ensures Cong(ag, -((s1 + s3) * (1 + d * (s1 * s3))))
    ensures Cong(fb, -((s1 - s3) * (1 - d * (s1 * s3))))
  {
    CurveProductsExpand(d, s1, k1, s3, k3);
    Combine2(ag, -((s1 + s3) * (1 + d * (s1 * s3))), -s3, k1, 1 + d * (s1 * s1), -s1, k3, 1 + d * (s3 * s3));
    Combine2(fb, -((s1 - s3) * (1 - d * (s1 * s3))), s3, k1, 1 + d * (s1 * s1), -s1, k3, 1 + d * (s3 * s3));
  }

  lemma ScaleProduct(a: int, p: int, x: int, m: int, r: int)
    requires Cong(x, -(m * (1 - r)))
    ensures Cong((a * p) * x, (a * (p * m)) * r - a * (p * m))
  {
    assert (a * p) * (m * (1 - r)) == a * (p * m) - (a * (p * m)) * r;
    Combine1((a * p) * x, -((a * p) * (m * (1 - r))), a * p, x, -(m * (1 - r)));
  }

  lemma DoubleSplit(f: int, w: int, x: int, y: int)
    requires 2 * w == x + y
    ensures 2 * (f * w) == f * x + f * y
  {
    assert f * (2 * w) == f * (x + y);
  }

  lemma ScaleDifference(x: int, y: int, v: int, c: int)
    requires x == y - 4 * v
    ensures x * c == y * c - 4 * (v * c)
  {
  }

  lemma Shuffle(a: int, b: int, f: int, g: int, p: int, m: int, v: int)
    ensures f * ((a * b) * p) == (a * p) * (f * b) && f * ((f * g) * m) == (f * f) * (g * m)
    ensures (a * a) * (g * m) == (a * m) * (a * g) && v * (g * m) == g * (m * v)
  {
  }

  lemma DoubleW(a: int, b: int, f: int, g: int, p: int, m: int, v: int, w: int)
    requires f * f == a * a - 4 * v && 2 * w == (a * b) * p + (f * g) * m
    ensures 2 * (f * w) == (a * p) * (f * b) + (a * m) * (a * g) - 4 * (g * (m * v))
  {
    DoubleSplit(f, w, (a * b) * p, (f * g) * m);
    ScaleDifference(f * f, a * a, v, g * m);
    Shuffle(a, b, f, g, p, m, v);
  }

  lemma HalfSum(h: int, fw: int, q: int, qr: int, x: int, y: int)
    requires Cong(x, qr - q) && Cong(y, -qr - q) && 2 * fw == x + y - 4 * h
    ensures Cong(2 * h + fw + q, 0)
  {
    CongAdd(x, qr - q, y, -qr - q);
    var n := Witness(x + y, -2 * q);
    CongBy(2 * (2 * h + fw + q), 0, n);
    Halve(2 * h + fw + q);
  }

  lemma ScaleProducts(a: int, ag: int, fb: int, p: int, m: int, r: int)
    requires Cong(ag, -(p * (1 + r))) && Cong(fb, -(m * (1 - r)))
    ensures Cong((a * p) * fb, (a * (p * m)) * r - a * (p * m))
    ensures Cong((a * m) * ag, -((a * (p * m)) * r) - a * (p * m))
  {
    assert a * (m * p) == a * (p * m);
    ScaleProduct(a, p, fb, m, r);
    ScaleProduct(a, m, ag, p, -r);
    assert (a * (p * m)) * (-r) == -((a * (p * m)) * r);
  }

  lemma VanishingK(a: int, b: int, f: int, g: int, p: int, m: int, r: int, v: int, w: int)
    requires Cong(a * g, -(p * (1 + r))) && Cong(f * b, -(m * (1 - r)))
    requires f * f == a * a - 4 * v && 2 * w == (a * b) * p + (f * g) * m
    ensures Cong(2 * (g * (m * v)) + f * w + a * (p * m), 0)
  {
    DoubleW(a, b, f, g, p, m, v, w);
    ScaleProducts(a, a * g, f * b, p, m, r);
    HalfSum(g * (m * v), f * w, a * (p * m), (a * (p * m)) * r, (a * p) * (f * b), (a * m) * (a * g));
  }

  lemma PartAtoms(part: int, q: int, r: int, c: int, u: int, sq: int, z: int, h: int, other: int, k: int)
    requires Cong(h, -(z * (1 + r))) && Cong(u, 1 + c + 2 * sq) && Cong(k, 0)
    requires part == h + z * (1 - c * r + r * u) + q * (k - 2 * other)
    ensures Cong(part, 2 * (r * (sq * z)) - 2 * (q * other))
  {
    var t := -(z * (1 + r)) + z * (1 - c * r + r * u) + q * (k - 2 * other);
    Combine1(part, t, 1, h, -(z * (1 + r)));
    Combine2(t, 2 * (r * (sq * z)) - 2 * (q * other), z * r, u, 1 + c + 2 * sq, q, k, 0);
    CongTrans(part, t, 2 * (r * (sq * z)) - 2 * (q * other));
  }

  lemma PartShape(a: int, f: int, g: int, p: int, m: int, v: int, t: int, q: int, w: int)
    ensures a * (q * (p * m) + f * g) + f * (p * t + q * w)
            == f * (a * g) + (f * p) * t + q * ((2 * (g * (m * v)) + f * w + a * (p * m)) - 2 * ((g * m) * v))
  {
  }

  /** The coefficient of one coordinate of the middle point. */
  lemma Part(a: int, f: int, g: int, p: int, m: int, v: int, r: int, c: int, u: int, sq: int, q: int, w: int, h: int,
             sum: int)
    requires Cong(a * g, -(p * (1 + r))) && Cong(u, 1 + c + 2 * sq)
    requires Cong(2 * (g * (m * v)) + f * w + a * (p * m), 0)
    requires h == q * (p * m) + f * g && sum == p * (1 - c * r + r * u) + q * w
    ensures Cong(a * h + f * sum, 2 * (r * (sq * (f * p))) - 2 * (q * ((g * m) * v)))
  {
    PartShape(a, f, g, p, m, v, 1 - c * r + r * u, q, w);
    CongScale(f, a * g, -(p * (1 + r)));
    assert f * -(p * (1 + r)) == -((f * p) * (1 + r));
    PartAtoms(a * h + f * sum, q, r, c, u, sq, f * p, f * (a * g), (g * m) * v,
              2 * (g * (m * v)) + f * w + a * (p * m));
  }

  lemma CrossSplit(n: int, q: int, s: int, t: int, f: int, g: int, left: int, right: int)
    ensures (n + q * (s * (f + g))) * right - (n + q * (t * (g - f))) * left
            == n * (right - left) + q * (f * (s * right + t * left) + g * (s * right - t * left))
  {
  }

  lemma CrossMiddle(n: int, a: int, b: int, x: int, y: int, q: int, h: int)
    requires n == y * a + x * b
    ensures n * (q * h) == q * (y * (a * h) + x * (b * h))
  {
    assert n * h == y * (a * h) + x * (b * h);
    assert n * (q * h) == q * (n * h);
  }

  lemma CrossJoin(q: int, x: int, y: int, a: int, b: int, f: int, g: int, h: int, plus: int, minus: int)
    ensures q * (y * (a * h) + x * (b * h)) + q * ((y * f) * plus + (x * g) * minus)
            == q * (y * (a * h + f * plus) + x * (b * h + g * minus))
  {
  }

  /** Cross-multiplied difference of two quotients with numerators n + q s (y f + x g) and n + q t (x g - y f). */
  lemma Cross(n: int, a: int, b: int, f: int, g: int, x: int, y: int, q: int, s: int, t: int, left: int, right: int,
              h: int, plus: int, minus: int)
    requires n == y * a + x * b && right - left == q * h
    requires plus == s * right + t * left && minus == s * right - t * left
    ensures (n + q * (s * (y * f + x * g))) * right - (n + q * (t * (x * g - y * f))) * left
            == q * (y * (a * h + f * plus) + x * (b * h + g * minus))
  {
    CrossSplit(n, q, s, t, y * f, x * g, left, right);
    CrossMiddle(n, a, b, x, y, q, h);
    CrossJoin(q, x, y, a, b, f, g, h, plus, minus);
  }

  /** A denominator, with s for the first outer point, q for d times the middle one, and y = s' u. */
  function Denominator(q: int, ru: int, s: int, y: int): int {
    1 - (q * q) * (s * s) + ru + q * y
  }

  lemma DenominatorDifference(q: int, ru: int, s: int, t: int, x: int, y: int)
    ensures Denominator(q, ru, t, x) - Denominator(q, ru, s, y) == q * (q * ((s + t) * (s - t)) + (x - y))
  {
    assert (s + t) * (s - t) == s * s - t * t;
    assert q * (q * (s * s - t * t)) == (q * q) * (s * s) - (q * q) * (t * t);
  }

  lemma DenominatorSum(q: int, ru: int, s: int, t: int, x: int, y: int)
    ensures s * Denominator(q, ru, t, x) + t * Denominator(q, ru, s, y)
            == (s + t) * (1 - (q * q) * (s * t) + ru) + q * (s * x + t * y)
    ensures s * Denominator(q, ru, t, x) - t * Denominator(q, ru, s, y)
            == (s - t) * (1 + (q * q) * (s * t) + ru) + q * (s * x - t * y)
  {
    DenominatorTimes(q, ru, s, t, x);
    DenominatorTimes(q, ru, t, s, y);
    assert (s + t) * (1 - (q * q) * (s * t) + ru)
           == s + t - ((q * q) * (t * t)) * s - ((q * q) * (s * s)) * t + s * ru + t * ru;
    assert (s - t) * (1 + (q * q) * (s * t) + ru)
           == s - t + ((q * q) * (s * s)) * t - ((q * q) * (t * t)) * s + s * ru - t * ru;
  }

  lemma DenominatorTimes(q: int, ru: int, s: int, t: int, x: int)
    ensures s * Denominator(q, ru, t, x) == s - ((q * q) * (t * t)) * s + s * ru + q * (s * x)
  {
  }
}
