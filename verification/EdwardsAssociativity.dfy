/** Associativity of the Edwards addition law, as a congruence between cross-multiplied quotients.
    Points 1 and 3 are the outer ones, point 2 is the one in the middle. */
module EdwardsAssociativity {
  import opened PrimeField
  import opened EdwardsAlgebra

  /** What is used of the outer points: s = x1 y1 and t = x3 y3, each times the other's y^2 + x^2 in x
      and y, and the sums and differences a, b, f, g of products of their coordinates. */
  ghost predicate Outer(d: int, a: int, b: int, f: int, g: int, s: int, t: int, x: int, y: int) {
    && f * g == x - y && a * b == x + y
    && f * f == a * a - 4 * (s * t) && g * g == b * b - 4 * (s * t)
    && Cong(a * g, -((s + t) * (1 + d * (s * t)))) && Cong(f * b, -((s - t) * (1 - d * (s * t))))
  }

  /** What is used of the middle point (x, y): q is d x y up to sign. */
  ghost predicate Middle(d: int, x: int, y: int, q: int, c: int, sx: int, sy: int, u: int) {
    && Cong(u, 1 + c + 2 * sx) && Cong(-u, 1 + c - 2 * sy)
    && (d * sx) * y == q * x && (d * sy) * x == q * y && q * q == c * d
  }

  // -------------------------------------------------------------------------------------------
  // The coefficients of x and y in the difference
  // -------------------------------------------------------------------------------------------

  lemma Twice(s: int, t: int, x: int, y: int)
    ensures 2 * (s * x + t * y) == (x + y) * (s + t) + (x - y) * (s - t)
    ensures 2 * (s * x - t * y) == (x + y) * (s - t) + (x - y) * (s + t)
  {
  }

  lemma BothVanish(a: int, b: int, f: int, g: int, s: int, t: int, x: int, y: int, d: int)
    requires Outer(d, a, b, f, g, s, t, x, y)
    ensures Cong(2 * (g * ((s - t) * (s * t))) + f * (s * x + t * y) + a * ((s + t) * (s - t)), 0)
    ensures Cong(2 * (f * ((s + t) * (s * t))) + g * (s * x - t * y) + b * ((s - t) * (s + t)), 0)
  {
    var r := d * (s * t);
    Twice(s, t, x, y);
    VanishingK(a, b, f, g, s + t, s - t, r, s * t, s * x + t * y);
    VanishingK(b, a, g, f, s - t, s + t, -r, s * t, s * x - t * y);
  }

  lemma ForY(d: int, a: int, b: int, f: int, g: int, s: int, t: int, x: int, y: int,
             q: int, c: int, sx: int, u: int, h: int, plus: int)
    requires Outer(d, a, b, f, g, s, t, x, y) && Cong(u, 1 + c + 2 * sx)
    requires h == q * ((s + t) * (s - t)) + f * g
    requires plus == (s + t) * (1 - c * (d * (s * t)) + (d * (s * t)) * u) + q * (s * x + t * y)
    ensures Cong(a * h + f * plus, 2 * ((d * (s * t)) * (sx * (f * (s + t)))) - 2 * (q * ((g * (s - t)) * (s * t))))
  {
    BothVanish(a, b, f, g, s, t, x, y, d);
    Part(a, f, g, s + t, s - t, s * t, d * (s * t), c, u, sx, q, s * x + t * y, h, plus);
  }

  lemma SecondPart(b: int, f: int, g: int, p: int, m: int, v: int, r: int, c: int, u: int, sq: int, q: int, z: int,
                   h: int, sum: int)
    requires Cong(b * f, -(m * (1 - r))) && Cong(-u, 1 + c - 2 * sq)
    requires Cong(2 * (f * (p * v)) + g * z + b * (m * p), 0)
    requires h == q * (m * p) + g * f && sum == m * (1 + c * r + r * u) + q * z
    ensures Cong(b * h + g * sum, 2 * (r * (sq * (g * m))) - 2 * (q * ((f * p) * v)))
  {
    assert c * -r == -(c * r) && -r * -u == r * u;
    Part(b, g, f, m, p, v, -r, c, -u, -sq, q, z, h, sum);
    assert -r * (-sq * (g * m)) == r * (sq * (g * m));
  }

  lemma ForX(d: int, a: int, b: int, f: int, g: int, s: int, t: int, x: int, y: int,
             q: int, c: int, sy: int, u: int, h: int, minus: int)
    requires Outer(d, a, b, f, g, s, t, x, y) && Cong(-u, 1 + c - 2 * sy)
    requires h == q * ((s - t) * (s + t)) + g * f
    requires minus == (s - t) * (1 + c * (d * (s * t)) + (d * (s * t)) * u) + q * (s * x - t * y)
    ensures Cong(b * h + g * minus, 2 * ((d * (s * t)) * (sy * (g * (s - t)))) - 2 * (q * ((f * (s + t)) * (s * t))))
  {
    BothVanish(a, b, f, g, s, t, x, y, d);
    SecondPart(b, f, g, s + t, s - t, s * t, d * (s * t), c, u, sy, q, s * x - t * y, h, minus);
  }

  // -------------------------------------------------------------------------------------------
  // The difference vanishes
  // -------------------------------------------------------------------------------------------

  lemma ZeroSum(x: int, y: int, a: int, b: int, c: int, e: int)
    requires Cong(a, b) && Cong(c, e) && y * b + x * e == 0
    ensures Cong(y * a + x * c, 0)
  {
    CongScale(y, a, b);
    CongScale(x, c, e);
    CongAdd(y * a, y * b, x * c, x * e);
  }

  lemma Swap(d: int, v: int, sq: int, z: int, y: int, q: int, x: int)
    requires (d * sq) * y == q * x
    ensures y * ((d * v) * (sq * z)) == x * (q * (z * v))
  {
    assert y * ((d * v) * (sq * z)) == ((d * sq) * y) * (v * z);
    assert (q * x) * (v * z) == x * (q * (z * v));
  }

  lemma SplitDifferences(x: int, y: int, a: int, b: int, c: int, e: int)
    requires y * a == x * e && x * c == y * b
    ensures y * (2 * a - 2 * b) + x * (2 * c - 2 * e) == 0
  {
  }

  lemma CancelParts(d: int, v: int, x: int, y: int, q: int, sx: int, sy: int, fp: int, gm: int, forY: int, forX: int)
    requires (d * sx) * y == q * x && (d * sy) * x == q * y
    requires Cong(forY, 2 * ((d * v) * (sx * fp)) - 2 * (q * (gm * v)))
    requires Cong(forX, 2 * ((d * v) * (sy * gm)) - 2 * (q * (fp * v)))
    ensures Cong(y * forY + x * forX, 0)
  {
    Swap(d, v, sx, fp, y, q, x);
    Swap(d, v, sy, gm, x, q, y);
    SplitDifferences(x, y, (d * v) * (sx * fp), q * (gm * v), (d * v) * (sy * gm), q * (fp * v));
    ZeroSum(x, y, forY, 2 * ((d * v) * (sx * fp)) - 2 * (q * (gm * v)),
            forX, 2 * ((d * v) * (sy * gm)) - 2 * (q * (fp * v)));
  }

  lemma Regroup(q: int, c: int, d: int, v: int)
    requires q * q == c * d
    ensures (q * q) * v == c * (d * v)
  {
  }

  lemma Coefficients(d: int, a: int, b: int, f: int, g: int, s: int, t: int, x: int, y: int,
                     x2: int, y2: int, q: int, c: int, sx: int, sy: int, u: int, h: int, plus: int, minus: int)
    requires Outer(d, a, b, f, g, s, t, x, y) && Middle(d, x2, y2, q, c, sx, sy, u)
    requires h == q * ((s + t) * (s - t)) + f * g
    requires plus == (s + t) * (1 - (q * q) * (s * t) + (d * (s * t)) * u) + q * (s * x + t * y)
    requires minus == (s - t) * (1 + (q * q) * (s * t) + (d * (s * t)) * u) + q * (s * x - t * y)
    ensures Cong(y2 * (a * h + f * plus) + x2 * (b * h + g * minus), 0)
  {
    Regroup(q, c, d, s * t);
    ForY(d, a, b, f, g, s, t, x, y, q, c, sx, u, h, plus);
    ForX(d, a, b, f, g, s, t, x, y, q, c, sy, u, h, minus);
    CancelParts(d, s * t, x2, y2, q, sx, sy, f * (s + t), g * (s - t), a * h + f * plus, b * h + g * minus);
  }

  /** The cross-multiplied difference of the two sums is zero. */
  lemma CrossVanishes(d: int, a: int, b: int, f: int, g: int, s: int, t: int, x: int, y: int,
                      x2: int, y2: int, q: int, c: int, sx: int, sy: int, u: int, n: int, left: int, right: int)
    requires Outer(d, a, b, f, g, s, t, x, y) && Middle(d, x2, y2, q, c, sx, sy, u)
    requires n == y2 * a + x2 * b
    requires left == Denominator(q, (d * (s * t)) * u, s, y) && right == Denominator(q, (d * (s * t)) * u, t, x)
    ensures Cong((n + q * (s * (y2 * f + x2 * g))) * right, (n + q * (t * (x2 * g - y2 * f))) * left)
  {
    DenominatorDifference(q, (d * (s * t)) * u, s, t, x, y);
    DenominatorSum(q, (d * (s * t)) * u, s, t, x, y);
    var h, plus, minus := q * ((s + t) * (s - t)) + f * g, s * right + t * left, s * right - t * left;
    Coefficients(d, a, b, f, g, s, t, x, y, x2, y2, q, c, sx, sy, u, h, plus, minus);
    Cross(n, a, b, f, g, x2, y2, q, s, t, left, right, h, plus, minus);
    CongScale(q, y2 * (a * h + f * plus) + x2 * (b * h + g * minus), 0);
    var k := Witness(q * (y2 * (a * h + f * plus) + x2 * (b * h + g * minus)), 0);
    CongBy((n + q * (s * (y2 * f + x2 * g))) * right, (n + q * (t * (x2 * g - y2 * f))) * left, k);
  }
}
