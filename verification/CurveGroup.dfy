/** The points of the curve of keypair/ge.h, -x^2 + y^2 = 1 + d x^2 y^2 with d = -121665/121666, and
    their group under the complete addition law. */
module CurveGroup {
  import opened Power
  import opened PrimeField
  import opened PrimeModulus
  import opened EdwardsAlgebra
  import opened EdwardsCurve
  import opened EdwardsComplete
  import opened CurveConstants

  /** A pair of residues. */
  datatype Point = Point(x: int, y: int)

  /** A point of the curve, by residues.  OnCurve and Add are behind countdowns, as PrimeField.Cong is;
      OnCurveIs and AddSums say what they are. */
  ghost predicate OnCurveAfter(n: nat, p: Point)
    decreases n
  {
    if n > 0 then OnCurveAfter(n - 1, p) else 0 <= p.x < P && 0 <= p.y < P && Curve(D(), p.x, p.y)
  }

  ghost predicate OnCurve(p: Point) {
    exists n: nat :: n > 1 && OnCurveAfter(n, p)
  }

  lemma {:induction false} OnCurveAfterIs(n: nat, p: Point)
    ensures OnCurveAfter(n, p) <==> 0 <= p.x < P && 0 <= p.y < P && Curve(D(), p.x, p.y)
    decreases n
  {
    if n > 0 {
      OnCurveAfterIs(n - 1, p);
    }
  }

  lemma OnCurveIs(p: Point)
    ensures OnCurve(p) <==> 0 <= p.x < P && 0 <= p.y < P && Curve(D(), p.x, p.y)
  {
    OnCurveAfterIs(2, p);
    if OnCurve(p) {
      var n: nat :| n > 1 && OnCurveAfter(n, p);
      OnCurveAfterIs(n, p);
    }
    assert OnCurveAfter(2, p) ==> OnCurve(p);
  }

  /** (x, y) has the coordinates of p. */
  ghost predicate Coordinates(p: Point, x: int, y: int) {
    Cong(x, p.x) && Cong(y, p.y)
  }

  ghost function QuotientAfter(n: nat, a: int, b: int): int
    decreases n
  {
    if n > 0 then QuotientAfter(n - 1, a, b) else (a * Pow(b, P - 2)) % P
  }

  /** a / b, and 0 for b = 0; a countdown too. */
  ghost function Quotient(a: int, b: int): int {
    var n: nat :| n > 1;
    QuotientAfter(n, a, b)
  }

  lemma {:induction false} QuotientAfterIs(n: nat, a: int, b: int)
    ensures QuotientAfter(n, a, b) == (a * Pow(b, P - 2)) % P
    decreases n
  {
    if n > 0 {
      QuotientAfterIs(n - 1, a, b);
    }
  }

  lemma QuotientIs(a: int, b: int)
    ensures Quotient(a, b) == (a * Pow(b, P - 2)) % P
  {
    var n: nat :| n > 1 && Quotient(a, b) == QuotientAfter(n, a, b);
    QuotientAfterIs(n, a, b);
  }

  lemma QuotientTimes(a: int, b: int)
    requires !Cong(b, 0)
    ensures Cong(Quotient(a, b) * b, a)
  {
    QuotientIs(a, b);
    Inverse(b);
    CongSelf(a * Pow(b, P - 2));
    CongScale(b, Quotient(a, b), a * Pow(b, P - 2));
    CongScale(a, b * Pow(b, P - 2), 1);
    assert b * (a * Pow(b, P - 2)) == a * (b * Pow(b, P - 2));
    CongTrans(b * Quotient(a, b), b * (a * Pow(b, P - 2)), a);
  }

  ghost function AddAfter(n: nat, p: Point, q: Point): Point
    decreases n
  {
    if n > 0 then AddAfter(n - 1, p, q) else
      Point(Quotient(SumX(p.x, p.y, q.x, q.y), 1 + Mixed(D(), p.x, p.y, q.x, q.y)),
            Quotient(SumY(p.x, p.y, q.x, q.y), 1 - Mixed(D(), p.x, p.y, q.x, q.y)))
  }

  /** The sum of two points. */
  ghost function Add(p: Point, q: Point): Point {
    var n: nat :| n > 1;
    AddAfter(n, p, q)
  }

  lemma {:induction false} AddAfterIs(n: nat, p: Point, q: Point)
    ensures AddAfter(n, p, q)
            == Point(Quotient(SumX(p.x, p.y, q.x, q.y), 1 + Mixed(D(), p.x, p.y, q.x, q.y)),
                     Quotient(SumY(p.x, p.y, q.x, q.y), 1 - Mixed(D(), p.x, p.y, q.x, q.y)))
    decreases n
  {
    if n > 0 {
      AddAfterIs(n - 1, p, q);
    }
  }

  lemma AddSums(p: Point, q: Point)
    ensures Add(p, q) == Point(Quotient(SumX(p.x, p.y, q.x, q.y), 1 + Mixed(D(), p.x, p.y, q.x, q.y)),
                               Quotient(SumY(p.x, p.y, q.x, q.y), 1 - Mixed(D(), p.x, p.y, q.x, q.y)))
  {
    hide Quotient;
    var n: nat :| n > 1 && Add(p, q) == AddAfter(n, p, q);
    AddAfterIs(n, p, q);
  }

  const ZERO := Point(0, 1)

  function Neg(p: Point): Point {
    Point(-p.x % P, p.y)
  }

  // -------------------------------------------------------------------------------------------
  // The group laws
  // -------------------------------------------------------------------------------------------

  lemma QuotientsAdd(d: int, x1: int, y1: int, x2: int, y2: int)
    requires Regular(d, x1, y1, x2, y2)
    ensures IsSum(d, x1, y1, x2, y2, Quotient(SumX(x1, y1, x2, y2), 1 + Mixed(d, x1, y1, x2, y2)),
                  Quotient(SumY(x1, y1, x2, y2), 1 - Mixed(d, x1, y1, x2, y2)))
  {
    hide Quotient;
    QuotientTimes(SumX(x1, y1, x2, y2), 1 + Mixed(d, x1, y1, x2, y2));
    QuotientTimes(SumY(x1, y1, x2, y2), 1 - Mixed(d, x1, y1, x2, y2));
  }

  lemma QuotientRange(a: int, b: int)
    ensures 0 <= Quotient(a, b) < P
  {
    QuotientIs(a, b);
  }

  lemma AddCloses(p: Point, q: Point)
    requires OnCurve(p) && OnCurve(q)
    ensures Sum(D(), p.x, p.y, q.x, q.y, Add(p, q).x, Add(p, q).y) && OnCurve(Add(p, q))
  {
    hide OnCurve, Add, Curve, Quotient, Regular, IsSum, Sum, SumX, SumY, Mixed;
    OnCurveIs(p);
    OnCurveIs(q);
    DNonSquare();
    MinusOneSquare();
    Complete(D(), SQRT_M1, p.x, p.y, q.x, q.y);
    QuotientsAdd(D(), p.x, p.y, q.x, q.y);
    AddSums(p, q);
    SumIs(D(), p.x, p.y, q.x, q.y, Add(p, q).x, Add(p, q).y);
    Closed(D(), p.x, p.y, q.x, q.y, Add(p, q).x, Add(p, q).y);
    QuotientRange(SumX(p.x, p.y, q.x, q.y), 1 + Mixed(D(), p.x, p.y, q.x, q.y));
    QuotientRange(SumY(p.x, p.y, q.x, q.y), 1 - Mixed(D(), p.x, p.y, q.x, q.y));
    OnCurveIs(Add(p, q));
  }

  lemma Residues(a: int, b: int)
    requires 0 <= a < P && 0 <= b < P && Cong(a, b)
    ensures a == b
  {
    CongMod(a, b);
  }

  lemma SameQuotient(c: int, a: int, b: int, n: int)
    requires Cong(a * c, n) && Cong(b * c, n) && !Cong(c, 0)
    ensures Cong(a, b)
  {
    CongSym(b * c, n);
    CongTrans(c * a, n, c * b);
    Cancel(c, a, b);
  }

  lemma SumUnique(d: int, x1: int, y1: int, x2: int, y2: int, x: int, y: int, u: int, v: int)
    requires Sum(d, x1, y1, x2, y2, u, v) && IsSum(d, x1, y1, x2, y2, x, y)
    ensures Cong(x, u) && Cong(y, v)
  {
    SumIs(d, x1, y1, x2, y2, u, v);
    SameQuotient(1 + Mixed(d, x1, y1, x2, y2), x, u, SumX(x1, y1, x2, y2));
    SameQuotient(1 - Mixed(d, x1, y1, x2, y2), y, v, SumY(x1, y1, x2, y2));
  }

  /** Whatever solves the addition equations is congruent to the sum. */
  lemma AddUnique(p: Point, q: Point, x: int, y: int)
    requires OnCurve(p) && OnCurve(q) && IsSum(D(), p.x, p.y, q.x, q.y, x, y)
    ensures Coordinates(Add(p, q), x, y)
  {
    AddCloses(p, q);
    SumUnique(D(), p.x, p.y, q.x, q.y, x, y, Add(p, q).x, Add(p, q).y);
  }

  lemma AddIs(p: Point, q: Point, r: Point)
    requires OnCurve(p) && OnCurve(q) && OnCurve(r)
    requires IsSum(D(), p.x, p.y, q.x, q.y, r.x, r.y)
    ensures Add(p, q) == r
  {
    AddUnique(p, q, r.x, r.y);
    AddCloses(p, q);
    SamePoint(r, Add(p, q));
  }

  lemma SamePoint(p: Point, q: Point)
    requires OnCurve(p) && OnCurve(q) && Cong(p.x, q.x) && Cong(p.y, q.y)
    ensures p == q
  {
    OnCurveIs(p);
    OnCurveIs(q);
    Residues(p.x, q.x);
    Residues(p.y, q.y);
  }

  lemma MixedCommutes(d: int, x1: int, y1: int, x2: int, y2: int)
    ensures Mixed(d, x1, y1, x2, y2) == Mixed(d, x2, y2, x1, y1)
    ensures SumX(x1, y1, x2, y2) == SumX(x2, y2, x1, y1) && SumY(x1, y1, x2, y2) == SumY(x2, y2, x1, y1)
  {
  }

  lemma AddCommutes(p: Point, q: Point)
    ensures Add(p, q) == Add(q, p)
  {
    AddSums(p, q);
    AddSums(q, p);
    MixedCommutes(D(), p.x, p.y, q.x, q.y);
  }

  lemma AddAssociates(p: Point, q: Point, r: Point)
    requires OnCurve(p) && OnCurve(q) && OnCurve(r)
    ensures Add(Add(p, q), r) == Add(p, Add(q, r))
  {
    hide Curve, Sum;
    var u, v := Add(p, q), Add(r, q);
    OnCurveIs(p);
    OnCurveIs(q);
    OnCurveIs(r);
    AddCloses(p, q);
    AddCloses(r, q);
    AddCloses(u, r);
    AddCloses(v, p);
    var a, b := Add(u, r), Add(v, p);
    Associative(D(), p.x, p.y, q.x, q.y, r.x, r.y, u.x, u.y, a.x, a.y, v.x, v.y, b.x, b.y);
    SamePoint(a, b);
    AddCommutes(v, p);
    AddCommutes(r, q);
  }

  lemma ZeroOnCurve()
    ensures OnCurve(ZERO)
  {
    ZeroCurve(D());
    OnCurveIs(ZERO);
  }

  lemma ZeroCurve(d: int)
    ensures Curve(d, 0, 1)
  {
    CongBy(1, 1 + d * 0, 0);
  }

  lemma AddZero(p: Point)
    requires OnCurve(p)
    ensures Add(p, ZERO) == p && Add(ZERO, p) == p
  {
    ZeroOnCurve();
    ZeroTerms(D(), p.x, p.y);
    CongSelf(p.x);
    CongSelf(p.y);
    AddIs(p, ZERO, p);
    AddCommutes(p, ZERO);
  }

  lemma ZeroTerms(d: int, x: int, y: int)
    ensures Mixed(d, x, y, 0, 1) == 0 && SumX(x, y, 0, 1) == x && SumY(x, y, 0, 1) == y
  {
  }

  lemma NegativeSquare(x: int, n: int)
    requires Cong(n, -x)
    ensures Cong(n * n, x * x) && Cong(x * n, -(x * x))
  {
    CongMul(n, -x, n, -x);
    CongScale(x, n, -x);
    assert -x * -x == x * x && x * -x == -(x * x);
  }

  lemma NegOnCurve(p: Point)
    requires OnCurve(p)
    ensures OnCurve(Neg(p)) && Cong(Neg(p).x, -p.x)
  {
    hide Curve;
    OnCurveIs(p);
    OnCurveIs(Neg(p));
    CongSelf(-p.x);
    NegatedOnCurve(D(), p.x, p.y, Neg(p).x);
  }

  lemma NegatedOnCurve(d: int, x: int, y: int, n: int)
    requires Curve(d, x, y) && Cong(n, -x)
    ensures Curve(d, n, y)
  {
    NegativeSquare(x, n);
    CongScale(d * (y * y), n * n, x * x);
    NegCurve(d, x, y, n);
    Combine2(y * y - n * n, 1 + (d * (y * y)) * (n * n), 1, y * y - x * x, 1 + (d * (y * y)) * (x * x),
             -(1 + d * (y * y)), n * n, x * x);
  }

  lemma NegCurve(d: int, x: int, y: int, n: int)
    ensures d * ((x * y) * (x * y)) == (d * (y * y)) * (x * x) && d * ((n * y) * (n * y)) == (d * (y * y)) * (n * n)
    ensures d * ((x * y) * (n * y)) == (d * (y * y)) * (x * n)
  {
    ProductOfSquares(x, y, d);
    ProductOfSquares(n, y, d);
    Power.Rearrange(x, y, n, y);
  }

  /** (x, y) and (-x, y) add up to the neutral element, by one step from the curve equation and one from n = -x. */
  lemma OppositeIdentity(d: int, x: int, y: int, n: int)
    ensures 0 - SumX(x, y, n, y) == -y * (n - -x)
    ensures (1 - Mixed(d, x, y, n, y)) - SumY(x, y, n, y)
            == -1 * ((y * y - x * x) - (1 + d * ((x * y) * (x * y)))) + -(d * (x * (y * y)) + x) * (n - -x)
  {
    NegCurve(d, x, y, n);
    OppositeProduct(d * (y * y), x, n);
    assert d * (x * (y * y)) == (d * (y * y)) * x;
  }

  lemma OppositeProduct(k: int, x: int, n: int)
    ensures -(k * x + x) * (n - -x) == -(k * (x * n)) - k * (x * x) - x * n - x * x
  {
    assert (k * x) * (n + x) == k * (x * n) + k * (x * x);
  }

  lemma AddInverse(p: Point)
    requires OnCurve(p)
    ensures Add(p, Neg(p)) == ZERO && Add(Neg(p), p) == ZERO
  {
    NegOnCurve(p);
    ZeroOnCurve();
    OnCurveIs(p);
    var x, y, n := p.x, p.y, Neg(p).x;
    OnCurveIs(p);
    OppositeIdentity(D(), x, y, n);
    Combine1(0, SumX(x, y, n, y), -y, n, -x);
    Combine2(1 - Mixed(D(), x, y, n, y), SumY(x, y, n, y), -1, y * y - x * x, 1 + D() * ((x * y) * (x * y)),
             -(D() * (x * (y * y)) + x), n, -x);
    AddIs(p, Neg(p), ZERO);
    AddCommutes(p, Neg(p));
  }

  // -------------------------------------------------------------------------------------------
  // Multiples
  // -------------------------------------------------------------------------------------------

  ghost function Mul(n: int, p: Point): Point
    decreases if n < 0 then -n else n, p
  {
    if n == 0 then ZERO else if n > 0 then Add(Mul(n - 1, p), p) else Add(Mul(n + 1, p), Neg(p))
  }

  lemma {:induction false} MulOnCurve(n: int, p: Point)
    requires OnCurve(p)
    ensures OnCurve(Mul(n, p))
    decreases if n < 0 then -n else n
  {
    if n == 0 {
      ZeroOnCurve();
    } else if n > 0 {
      MulOnCurve(n - 1, p);
      AddCloses(Mul(n - 1, p), p);
    } else {
      MulOnCurve(n + 1, p);
      NegOnCurve(p);
      AddCloses(Mul(n + 1, p), Neg(p));
    }
  }

  lemma AddThenSubtract(p: Point, q: Point)
    requires OnCurve(p) && OnCurve(q)
    ensures Add(Add(p, q), Neg(q)) == p && Add(Add(p, Neg(q)), q) == p
  {
    NegOnCurve(q);
    AddAssociates(p, q, Neg(q));
    AddAssociates(p, Neg(q), q);
    AddInverse(q);
    AddZero(p);
  }

  lemma MulSucc(n: int, p: Point)
    requires OnCurve(p)
    ensures Mul(n + 1, p) == Add(Mul(n, p), p) && Mul(n - 1, p) == Add(Mul(n, p), Neg(p))
  {
    if n < 0 {
      MulOnCurve(n + 1, p);
      AddThenSubtract(Mul(n + 1, p), p);
    }
    if n > 0 {
      MulOnCurve(n - 1, p);
      AddThenSubtract(Mul(n - 1, p), p);
    }
  }

  lemma {:induction false} MulAdd(m: int, n: int, p: Point)
    requires OnCurve(p)
    ensures Mul(m + n, p) == Add(Mul(m, p), Mul(n, p))
    decreases if n < 0 then -n else n
  {
    hide OnCurve, Add;
    MulOnCurve(m, p);
    if n == 0 {
      AddZero(Mul(m, p));
    } else if n > 0 {
      MulAdd(m, n - 1, p);
      MulSucc(m + n - 1, p);
      MulOnCurve(n - 1, p);
      AddAssociates(Mul(m, p), Mul(n - 1, p), p);
    } else {
      MulAdd(m, n + 1, p);
      MulSucc(m + n + 1, p);
      MulOnCurve(n + 1, p);
      NegOnCurve(p);
      AddAssociates(Mul(m, p), Mul(n + 1, p), Neg(p));
    }
  }

  lemma MulOne(p: Point)
    requires OnCurve(p)
    ensures Mul(1, p) == p && Mul(2, p) == Add(p, p)
  {
    AddZero(p);
    assert Mul(1, p) == Add(Mul(0, p), p);
    MulSucc(1, p);
  }

  lemma {:induction false} MulMul(m: int, n: int, p: Point)
    requires OnCurve(p)
    ensures Mul(m * n, p) == Mul(m, Mul(n, p))
    decreases if m < 0 then -m else m
  {
    hide OnCurve, Add;
    MulOnCurve(n, p);
    if m > 0 {
      MulMul(m - 1, n, p);
      assert m * n == (m - 1) * n + n;
      MulAdd((m - 1) * n, n, p);
    } else if m < 0 {
      MulMul(m + 1, n, p);
      assert m * n == (m + 1) * n - n;
      MulSubtract((m + 1) * n, n, p);
    }
  }

  lemma MulSubtract(m: int, n: int, p: Point)
    requires OnCurve(p)
    ensures Mul(m - n, p) == Add(Mul(m, p), Neg(Mul(n, p)))
  {
    MulAdd(m - n, n, p);
    MulOnCurve(m - n, p);
    MulOnCurve(n, p);
    AddThenSubtract(Mul(m - n, p), Mul(n, p));
  }

  lemma MulNeg(n: int, p: Point)
    requires OnCurve(p)
    ensures Mul(-n, p) == Neg(Mul(n, p)) && Mul(n, Neg(p)) == Mul(-n, p)
  {
    MulSubtract(0, n, p);
    MulOnCurve(n, p);
    NegOnCurve(Mul(n, p));
    AddZero(Neg(Mul(n, p)));
    MulSucc(0, p);
    NegOnCurve(p);
    AddZero(Neg(p));
    MulMul(n, -1, p);
  }

  lemma Regroup(p: Point, q: Point, r: Point, s: Point)
    requires OnCurve(p) && OnCurve(q) && OnCurve(r) && OnCurve(s)
    ensures Add(Add(p, q), Add(r, s)) == Add(Add(p, r), Add(q, s))
  {
    AddCloses(p, q);
    AddCloses(r, s);
    AddCloses(p, r);
    AddCloses(q, s);
    AddAssociates(Add(p, q), r, s);
    AddAssociates(p, q, r);
    AddCommutes(q, r);
    AddAssociates(p, r, q);
    AddAssociates(Add(p, r), q, s);
  }
}
