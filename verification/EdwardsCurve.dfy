/** The addition law on -x^2 + y^2 = 1 + d x^2 y^2 over Z/p, stated without division: closure,
    completeness and associativity. */
module EdwardsCurve {
  import opened PrimeField
  import opened PrimeModulus
  import opened EdwardsAlgebra
  import opened EdwardsAssociativity

  /** d x1 x2 y1 y2. */
  function Mixed(d: int, x1: int, y1: int, x2: int, y2: int): int {
    d * ((x1 * y1) * (x2 * y2))
  }

  /** (x, y) is the sum of (x1, y1) and (x2, y2). */
  ghost predicate IsSum(d: int, x1: int, y1: int, x2: int, y2: int, x: int, y: int) {
    && Cong(x * (1 + Mixed(d, x1, y1, x2, y2)), SumX(x1, y1, x2, y2))
    && Cong(y * (1 - Mixed(d, x1, y1, x2, y2)), SumY(x1, y1, x2, y2))
  }

  // -------------------------------------------------------------------------------------------
  // Associativity
  // -------------------------------------------------------------------------------------------

  lemma OuterPoints(d: int, x1: int, y1: int, x3: int, y3: int)
    requires Curve(d, x1, y1) && Curve(d, x3, y3)
    ensures Outer(d, SumX(x1, y1, x3, y3), SumY(x1, y1, x3, y3), y1 * x3 - x1 * y3, x1 * x3 - y1 * y3,
                  x1 * y1, x3 * y3, (x1 * y1) * (y3 * y3 + x3 * x3), (x3 * y3) * (y1 * y1 + x1 * x1))
  {
    ProductsAB(x1, y1, x3, y3);
    ProductsAG(x1, y1, x3, y3);
    Squares(x1, y1, x3, y3);
    CurveProducts(d, x1 * y1, y1 * y1 - x1 * x1, x3 * y3, y3 * y3 - x3 * x3,
                  SumX(x1, y1, x3, y3) * (x1 * x3 - y1 * y3), (y1 * x3 - x1 * y3) * SumY(x1, y1, x3, y3));
  }

  lemma MiddleAtoms(k: int, x: int, y: int, c: int)
    requires Cong(y - x, 1 + c)
    ensures Cong(y + x, 1 + c + 2 * x) && Cong(-(y + x), 1 + c - 2 * y)
    ensures Cong(y + x, 1 + c - 2 * -x) && Cong(-(y + x), 1 + c + 2 * -y)
  {
    Combine1(y + x, 1 + c + 2 * x, 1, y - x, 1 + c);
    Combine1(-(y + x), 1 + c - 2 * y, 1, y - x, 1 + c);
  }

  lemma MiddlePoint(d: int, x: int, y: int)
    requires Curve(d, x, y)
    ensures Middle(d, x, y, d * (x * y), d * ((x * y) * (x * y)), x * x, y * y, y * y + x * x)
    ensures Middle(d, y, x, -(d * (x * y)), d * ((x * y) * (x * y)), -(y * y), -(x * x), -(y * y + x * x))
  {
    MiddleAtoms(0, x * x, y * y, d * ((x * y) * (x * y)));
    assert (d * (x * x)) * y == (d * (x * y)) * x && (d * (y * y)) * x == (d * (x * y)) * y;
    assert (d * -(y * y)) * x == -(d * (x * y)) * y && (d * -(x * x)) * y == -(d * (x * y)) * x;
    assert (d * (x * y)) * (d * (x * y)) == (d * ((x * y) * (x * y))) * d;
    assert -(d * (x * y)) * -(d * (x * y)) == (d * (x * y)) * (d * (x * y));
  }

  lemma ReplaceProduct(z: int, w: int, d: int, s: int, p: int, q: int)
    requires Cong(p, q)
    ensures Cong(z * (w + d * (p * s)), z * (w + d * (q * s)))
  {
    CongSelf(s);
    CongSelf(w);
    CongMul(p, q, s, s);
    CongScale(d, p * s, q * s);
    CongAdd(w, w, d * (p * s), d * (q * s));
    CongScale(z, w + d * (p * s), w + d * (q * s));
  }

  lemma ReplaceSum(e: int, u: int, a: int, v: int, b: int, x: int, y: int)
    requires Cong(u, a) && Cong(v, b)
    ensures Cong((u * (1 - e)) * y + (v * (1 + e)) * x, (a * (1 - e)) * y + (b * (1 + e)) * x)
  {
    CongSelf(1 - e);
    CongSelf(1 + e);
    CongSelf(x);
    CongSelf(y);
    CongMul(u, a, 1 - e, 1 - e);
    CongMul(v, b, 1 + e, 1 + e);
    CongMul(u * (1 - e), a * (1 - e), y, y);
    CongMul(v * (1 + e), b * (1 + e), x, x);
    CongAdd((u * (1 - e)) * y, (a * (1 - e)) * y, (v * (1 + e)) * x, (b * (1 + e)) * x);
  }

  /** A quotient over the coordinates of a sum, cleared of the denominators 1 + e and 1 - e of that sum. */
  lemma Cleared(d: int, e: int, a: int, b: int, x: int, y: int, x3: int, y3: int, z: int)
    requires Cong(x * (1 + e), a) && Cong(y * (1 - e), b)
    requires Cong(z * (1 + Mixed(d, x, y, x3, y3)), SumX(x, y, x3, y3))
    ensures Cong(z * ((1 + e) * (1 - e) + d * ((a * b) * (x3 * y3))), (a * (1 - e)) * y3 + (b * (1 + e)) * x3)
  {
    hide Mixed, SumX;
    var u, v, w := x * (1 + e), y * (1 - e), (1 + e) * (1 - e);
    var left, right := z * (w + d * ((u * v) * (x3 * y3))), (u * (1 - e)) * y3 + (v * (1 + e)) * x3;
    var goal, sum := z * (w + d * ((a * b) * (x3 * y3))), (a * (1 - e)) * y3 + (b * (1 + e)) * x3;
    CongScale(w, z * (1 + Mixed(d, x, y, x3, y3)), SumX(x, y, x3, y3));
    ClearedProduct(d, e, x, y, x3, y3, z);
    ClearedSum(e, x, y, x3, y3);
    CongMul(u, a, v, b);
    ReplaceProduct(z, w, d, x3 * y3, u * v, a * b);
    CongSym(left, goal);
    ReplaceSum(e, u, a, v, b, x3, y3);
    CongTrans(goal, left, right);
    CongTrans(goal, right, sum);
  }

  lemma ClearedProduct(d: int, e: int, x: int, y: int, x3: int, y3: int, z: int)
    ensures ((1 + e) * (1 - e)) * (z * (1 + Mixed(d, x, y, x3, y3)))
            == z * ((1 + e) * (1 - e) + d * (((x * (1 + e)) * (y * (1 - e))) * (x3 * y3)))
  {
  }

  lemma ClearedSum(e: int, x: int, y: int, x3: int, y3: int)
    ensures ((1 + e) * (1 - e)) * SumX(x, y, x3, y3) == ((x * (1 + e)) * (1 - e)) * y3 + ((y * (1 - e)) * (1 + e)) * x3
  {
  }

  lemma OneMinusSquare(d: int, s1: int, s2: int)
    ensures (1 + d * (s1 * s2)) * (1 - d * (s1 * s2)) == 1 - ((d * s2) * (d * s2)) * (s1 * s1)
  {
  }

  lemma MixedTerms(d: int, s1: int, s2: int, s3: int, u1: int, u2: int)
    ensures d * ((s1 * u2 + s2 * u1) * s3) == (d * (s1 * s3)) * u2 + (d * s2) * (s3 * u1)
  {
  }

  lemma DenominatorMatch(d: int, s1: int, s2: int, s3: int, u1: int, u2: int)
    ensures (1 + d * (s1 * s2)) * (1 - d * (s1 * s2)) + d * ((s1 * u2 + s2 * u1) * s3)
            == Denominator(d * s2, (d * (s1 * s3)) * u2, s1, s3 * u1)
  {
    OneMinusSquare(d, s1, s2);
    MixedTerms(d, s1, s2, s3, u1, u2);
  }

  lemma NumeratorMatch(q: int, s: int, x1: int, y1: int, x2: int, y2: int, x3: int, y3: int)
    ensures (SumX(x1, y1, x2, y2) * (1 - q * s)) * y3 + (SumY(x1, y1, x2, y2) * (1 + q * s)) * x3
            == y2 * SumX(x1, y1, x3, y3) + x2 * SumY(x1, y1, x3, y3)
               + q * (s * (y2 * (y1 * x3 - x1 * y3) + x2 * (x1 * x3 - y1 * y3)))
  {
    Expand(q * s, SumX(x1, y1, x2, y2), SumY(x1, y1, x2, y2), x3, y3);
    assert SumX(x1, y1, x2, y2) * y3 + SumY(x1, y1, x2, y2) * x3
           == y2 * SumX(x1, y1, x3, y3) + x2 * SumY(x1, y1, x3, y3);
    assert SumY(x1, y1, x2, y2) * x3 - SumX(x1, y1, x2, y2) * y3
           == y2 * (y1 * x3 - x1 * y3) + x2 * (x1 * x3 - y1 * y3);
  }

  lemma Expand(e: int, a: int, b: int, x: int, y: int)
    ensures (a * (1 - e)) * y + (b * (1 + e)) * x == (a * y + b * x) + e * (b * x - a * y)
  {
  }

  /** The x coordinate of ((x1, y1) + (x2, y2)) + (x3, y3) is this numerator over this denominator, and
      with the middle point turned, so is the y coordinate. */
  function Top(q: int, s: int, x1: int, y1: int, x2: int, y2: int, x3: int, y3: int): int {
    y2 * SumX(x1, y1, x3, y3) + x2 * SumY(x1, y1, x3, y3)
    + q * (s * (y2 * (y1 * x3 - x1 * y3) + x2 * (x1 * x3 - y1 * y3)))
  }

  function Bottom(d: int, q: int, u: int, x1: int, y1: int, x3: int, y3: int): int {
    Denominator(q, (d * ((x1 * y1) * (x3 * y3))) * u, x1 * y1, (x3 * y3) * (y1 * y1 + x1 * x1))
  }

  /** The cleared equation in the terms of Bottom and Top. */
  lemma QuotientTerms(d: int, x1: int, y1: int, x2: int, y2: int, x3: int, y3: int)
    ensures var e, a, b := Mixed(d, x1, y1, x2, y2), SumX(x1, y1, x2, y2), SumY(x1, y1, x2, y2);
            && (1 + e) * (1 - e) + d * ((a * b) * (x3 * y3))
               == Bottom(d, d * (x2 * y2), y2 * y2 + x2 * x2, x1, y1, x3, y3)
            && (a * (1 - e)) * y3 + (b * (1 + e)) * x3 == Top(d * (x2 * y2), x1 * y1, x1, y1, x2, y2, x3, y3)
  {
    ProductsAB(x1, y1, x2, y2);
    DenominatorMatch(d, x1 * y1, x2 * y2, x3 * y3, y1 * y1 + x1 * x1, y2 * y2 + x2 * x2);
    assert (d * (x2 * y2)) * (x1 * y1) == Mixed(d, x1, y1, x2, y2);
    NumeratorMatch(d * (x2 * y2), x1 * y1, x1, y1, x2, y2, x3, y3);
  }

  lemma TurnedSum(d: int, x1: int, y1: int, x2: int, y2: int, x: int, y: int)
    requires IsSum(d, x1, y1, x2, y2, x, y)
    ensures IsSum(-d, x1, y1, y2, x2, y, x)
  {
    assert Mixed(-d, x1, y1, y2, x2) == -Mixed(d, x1, y1, x2, y2);
  }

  lemma TurnedBottom(d: int, x1: int, y1: int, x2: int, y2: int, x3: int, y3: int)
    ensures Bottom(-d, -d * (y2 * x2), x2 * x2 + y2 * y2, x1, y1, x3, y3)
            == Bottom(d, -(d * (x2 * y2)), -(y2 * y2 + x2 * x2), x1, y1, x3, y3)
  {
    var v, u := (x1 * y1) * (x3 * y3), y2 * y2 + x2 * x2;
    assert (-d * v) * u == (d * v) * -u;
    assert -d * (y2 * x2) == -(d * (x2 * y2));
  }

  lemma TurnedMixed(d: int, x: int, y: int, x3: int, y3: int)
    ensures Mixed(-d, y, x, x3, y3) == -Mixed(d, x, y, x3, y3) && SumX(y, x, x3, y3) == SumY(x, y, x3, y3)
  {
  }

  lemma TopTurned(q: int, t: int, x1: int, y1: int, x2: int, y2: int, x3: int, y3: int)
    ensures Top(q, t, x3, y3, x2, y2, x1, y1)
            == y2 * SumX(x1, y1, x3, y3) + x2 * SumY(x1, y1, x3, y3)
               + q * (t * (x2 * (x1 * x3 - y1 * y3) - y2 * (y1 * x3 - x1 * y3)))
  {
    assert SumX(x3, y3, x1, y1) == SumX(x1, y1, x3, y3) && SumY(x3, y3, x1, y1) == SumY(x1, y1, x3, y3);
    assert y2 * (y3 * x1 - x3 * y1) + x2 * (x3 * x1 - y3 * y1) == x2 * (x1 * x3 - y1 * y3) - y2 * (y1 * x3 - x1 * y3);
  }

  /** Both ways of adding three points give the same quotient. */
  lemma SameQuotients(d: int, x1: int, y1: int, x2: int, y2: int, x3: int, y3: int,
                      q: int, c: int, sx: int, sy: int, u: int)
    requires Curve(d, x1, y1) && Curve(d, x3, y3) && Middle(d, x2, y2, q, c, sx, sy, u)
    ensures Cong(Top(q, x1 * y1, x1, y1, x2, y2, x3, y3) * Bottom(d, q, u, x3, y3, x1, y1),
                 Top(q, x3 * y3, x3, y3, x2, y2, x1, y1) * Bottom(d, q, u, x1, y1, x3, y3))
  {
    hide Cong;
    OuterPoints(d, x1, y1, x3, y3);
    TopTurned(q, x3 * y3, x1, y1, x2, y2, x3, y3);
    assert (x3 * y3) * (x1 * y1) == (x1 * y1) * (x3 * y3);
    CrossVanishes(d, SumX(x1, y1, x3, y3), SumY(x1, y1, x3, y3), y1 * x3 - x1 * y3, x1 * x3 - y1 * y3,
                  x1 * y1, x3 * y3, (x1 * y1) * (y3 * y3 + x3 * x3), (x3 * y3) * (y1 * y1 + x1 * x1),
                  x2, y2, q, c, sx, sy, u, y2 * SumX(x1, y1, x3, y3) + x2 * SumY(x1, y1, x3, y3),
                  Bottom(d, q, u, x1, y1, x3, y3), Bottom(d, q, u, x3, y3, x1, y1));
  }

  /** The denominators of the sum of two points are not zero. */
  ghost predicate Regular(d: int, x1: int, y1: int, x2: int, y2: int) {
    !Cong(1 + Mixed(d, x1, y1, x2, y2), 0) && !Cong(1 - Mixed(d, x1, y1, x2, y2), 0)
  }

  /** The sum of (x1, y1) and (x2, y2) exists and is (x, y); a countdown as in PrimeField.Cong. */
  ghost predicate SumAfter(n: nat, d: int, x1: int, y1: int, x2: int, y2: int, x: int, y: int)
    decreases n
  {
    if n > 0 then SumAfter(n - 1, d, x1, y1, x2, y2, x, y) else
      Regular(d, x1, y1, x2, y2) && IsSum(d, x1, y1, x2, y2, x, y)
  }

  ghost predicate Sum(d: int, x1: int, y1: int, x2: int, y2: int, x: int, y: int) {
    exists n: nat :: n > 1 && SumAfter(n, d, x1, y1, x2, y2, x, y)
  }

  lemma {:induction false} SumAfterIs(n: nat, d: int, x1: int, y1: int, x2: int, y2: int, x: int, y: int)
    ensures SumAfter(n, d, x1, y1, x2, y2, x, y) <==> Regular(d, x1, y1, x2, y2) && IsSum(d, x1, y1, x2, y2, x, y)
    decreases n
  {
    hide Regular, IsSum;
    if n > 0 {
      SumAfterIs(n - 1, d, x1, y1, x2, y2, x, y);
    }
  }

  lemma SumIs(d: int, x1: int, y1: int, x2: int, y2: int, x: int, y: int)
    ensures Sum(d, x1, y1, x2, y2, x, y) <==> Regular(d, x1, y1, x2, y2) && IsSum(d, x1, y1, x2, y2, x, y)
  {
    hide Regular, IsSum;
    SumAfterIs(2, d, x1, y1, x2, y2, x, y);
    if Sum(d, x1, y1, x2, y2, x, y) {
      var n: nat :| n > 1 && SumAfter(n, d, x1, y1, x2, y2, x, y);
      SumAfterIs(n, d, x1, y1, x2, y2, x, y);
    }
    assert SumAfter(2, d, x1, y1, x2, y2, x, y) ==> Sum(d, x1, y1, x2, y2, x, y);
  }

  lemma ClearedNonzero(d: int, e: int, a: int, b: int, x: int, y: int, x3: int, y3: int)
    requires Cong(x * (1 + e), a) && Cong(y * (1 - e), b)
    requires !Cong(1 + e, 0) && !Cong(1 - e, 0) && !Cong(1 + Mixed(d, x, y, x3, y3), 0)
    ensures !Cong((1 + e) * (1 - e) + d * ((a * b) * (x3 * y3)), 0)
  {
    hide Cong;
    var u, v, w := x * (1 + e), y * (1 - e), (1 + e) * (1 - e);
    Nonzero(1 + e, 1 - e);
    Nonzero(w, 1 + Mixed(d, x, y, x3, y3));
    ClearedProduct(d, e, x, y, x3, y3, 1);
    CongMul(u, a, v, b);
    ReplaceProduct(1, w, d, x3 * y3, u * v, a * b);
    if Cong(w + d * ((a * b) * (x3 * y3)), 0) {
      CongTrans(w + d * ((u * v) * (x3 * y3)), w + d * ((a * b) * (x3 * y3)), 0);
    }
  }

  lemma BottomNonzero(d: int, x1: int, y1: int, x2: int, y2: int, x3: int, y3: int, x: int, y: int)
    requires IsSum(d, x1, y1, x2, y2, x, y) && Regular(d, x1, y1, x2, y2)
    requires !Cong(1 + Mixed(d, x, y, x3, y3), 0)
    ensures !Cong(Bottom(d, d * (x2 * y2), y2 * y2 + x2 * x2, x1, y1, x3, y3), 0)
  {
    ClearedNonzero(d, Mixed(d, x1, y1, x2, y2), SumX(x1, y1, x2, y2), SumY(x1, y1, x2, y2), x, y, x3, y3);
    QuotientTerms(d, x1, y1, x2, y2, x3, y3);
  }

  lemma BottomNonzeroY(d: int, x1: int, y1: int, x2: int, y2: int, x3: int, y3: int, x: int, y: int)
    requires IsSum(d, x1, y1, x2, y2, x, y) && Regular(d, x1, y1, x2, y2)
    requires !Cong(1 - Mixed(d, x, y, x3, y3), 0)
    ensures !Cong(Bottom(d, -(d * (x2 * y2)), -(y2 * y2 + x2 * x2), x1, y1, x3, y3), 0)
  {
    TurnedSum(d, x1, y1, x2, y2, x, y);
    assert Mixed(-d, x1, y1, y2, x2) == -Mixed(d, x1, y1, x2, y2);
    assert Mixed(-d, y, x, x3, y3) == -Mixed(d, x, y, x3, y3);
    BottomNonzero(-d, x1, y1, y2, x2, x3, y3, y, x);
    TurnedBottom(d, x1, y1, x2, y2, x3, y3);
  }

  lemma EqualQuotients(z: int, w: int, n: int, m: int, a: int, b: int)
    requires Cong(z * a, n) && Cong(w * b, m) && Cong(n * b, m * a)
    requires !Cong(a, 0) && !Cong(b, 0)
    ensures Cong(z, w)
  {
    CongScale(b, z * a, n);
    CongScale(a, w * b, m);
    CongSym(a * (w * b), a * m);
    CongTrans(b * (z * a), b * n, a * m);
    CongTrans(b * (z * a), a * m, a * (w * b));
    assert b * (z * a) == (a * b) * z && a * (w * b) == (a * b) * w;
    Nonzero(a, b);
    Cancel(a * b, z, w);
  }

  /** (P1 + P2) + P3 = (P3 + P2) + P1. */
  lemma Associative(d: int, x1: int, y1: int, x2: int, y2: int, x3: int, y3: int,
                    x: int, y: int, zx: int, zy: int, u: int, v: int, wx: int, wy: int)
    requires Curve(d, x1, y1) && Curve(d, x2, y2) && Curve(d, x3, y3)
    requires Sum(d, x1, y1, x2, y2, x, y) && Sum(d, x, y, x3, y3, zx, zy)
    requires Sum(d, x3, y3, x2, y2, u, v) && Sum(d, u, v, x1, y1, wx, wy)
    ensures Cong(zx, wx) && Cong(zy, wy)
  {
    SumIs(d, x1, y1, x2, y2, x, y);
    SumIs(d, x, y, x3, y3, zx, zy);
    SumIs(d, x3, y3, x2, y2, u, v);
    SumIs(d, u, v, x1, y1, wx, wy);
    var q, c, t := d * (x2 * y2), d * ((x2 * y2) * (x2 * y2)), y2 * y2 + x2 * x2;
    MiddlePoint(d, x2, y2);
    Cleared(d, Mixed(d, x1, y1, x2, y2), SumX(x1, y1, x2, y2), SumY(x1, y1, x2, y2), x, y, x3, y3, zx);
    Cleared(d, Mixed(d, x3, y3, x2, y2), SumX(x3, y3, x2, y2), SumY(x3, y3, x2, y2), u, v, x1, y1, wx);
    QuotientTerms(d, x1, y1, x2, y2, x3, y3);
    QuotientTerms(d, x3, y3, x2, y2, x1, y1);
    SameQuotients(d, x1, y1, x2, y2, x3, y3, q, c, x2 * x2, y2 * y2, t);
    BottomNonzero(d, x1, y1, x2, y2, x3, y3, x, y);
    BottomNonzero(d, x3, y3, x2, y2, x1, y1, u, v);
    EqualQuotients(zx, wx, Top(q, x1 * y1, x1, y1, x2, y2, x3, y3), Top(q, x3 * y3, x3, y3, x2, y2, x1, y1),
                   Bottom(d, q, t, x1, y1, x3, y3), Bottom(d, q, t, x3, y3, x1, y1));
    TurnedMixed(d, x, y, x3, y3);
    TurnedMixed(d, u, v, x1, y1);
    TurnedSum(d, x1, y1, x2, y2, x, y);
    TurnedSum(d, x3, y3, x2, y2, u, v);
    Cleared(-d, Mixed(-d, x1, y1, y2, x2), SumX(x1, y1, y2, x2), SumY(x1, y1, y2, x2), y, x, x3, y3, zy);
    Cleared(-d, Mixed(-d, x3, y3, y2, x2), SumX(x3, y3, y2, x2), SumY(x3, y3, y2, x2), v, u, x1, y1, wy);
    QuotientTerms(-d, x1, y1, y2, x2, x3, y3);
    QuotientTerms(-d, x3, y3, y2, x2, x1, y1);
    TurnedBottom(d, x1, y1, x2, y2, x3, y3);
    TurnedBottom(d, x3, y3, x2, y2, x1, y1);
    assert -d * (y2 * x2) == -q;
    SameQuotients(d, x1, y1, y2, x2, x3, y3, -q, c, -(y2 * y2), -(x2 * x2), -t);
    BottomNonzeroY(d, x1, y1, x2, y2, x3, y3, x, y);
    BottomNonzeroY(d, x3, y3, x2, y2, x1, y1, u, v);
    EqualQuotients(zy, wy, Top(-q, x1 * y1, x1, y1, y2, x2, x3, y3), Top(-q, x3 * y3, x3, y3, y2, x2, x1, y1),
                   Bottom(d, -q, -t, x1, y1, x3, y3), Bottom(d, -q, -t, x3, y3, x1, y1));
  }
}
