/** ge_double_scalarmult_vartime (keypair/ge.c): a A + b B by one descending loop over two recodings. */
module DoubleScalarMult {
  import opened Bytes
  import PrimeField
  import opened CurveGroup
  import opened Ge
  import opened Recoding

  /** Entry j of a table of odd multiples: (2j + 1) P. */
  ghost predicate OddCached(table: seq<GeCached>, n: nat, p: Point)
    requires n <= |table|
    reads table
  {
    forall j :: 0 <= j < n ==> IsCached(table[j], Mul(2 * j + 1, p))
  }

  ghost predicate OddPrecomp(table: seq<GePrecomp>, p: Point)
    reads table
  {
    |table| == 8 && forall j :: 0 <= j < 8 ==> IsPrecomp(table[j], Mul(2 * j + 1, p))
  }

  predicate IsDigit(d: int) {
    d == 0 || (d % 2 == 1 && -15 <= d <= 15)
  }

  // -------------------------------------------------------------------------------------------
  // One digit
  // -------------------------------------------------------------------------------------------

  lemma DigitIndex(d: int)
    requires IsDigit(d) && d != 0
    ensures d > 0 ==> 0 <= d / 2 < 8 && 2 * (d / 2) + 1 == d
    ensures d < 0 ==> 0 <= -d / 2 < 8 && 2 * (-d / 2) + 1 == -d
  {
  }

  method AddDigit(t: GeP1P1, u: GeP3, d: int, table: seq<GeCached>, ghost q: Point, ghost p: Point)
    requires OnCurve(p) && |table| == 8 && OddCached(table, 8, p) && IsDigit(d) && IsP1P1(t, q)
    modifies t, u
    ensures IsP1P1(t, Add(q, Mul(d, p)))
  {
    if d != 0 {
      DigitIndex(d);
    }
    if d > 0 {
      GeP1P1ToP3(u, t, q);
      GeAdd(t, u, table[d / 2], q, Mul(d, p));
    } else if d < 0 {
      MulNeg(-d, p);
      GeP1P1ToP3(u, t, q);
      GeSub(t, u, table[-d / 2], q, Mul(-d, p));
    } else {
      AddZero(q);
    }
  }

  method AddBaseDigit(t: GeP1P1, u: GeP3, d: int, table: seq<GePrecomp>, ghost q: Point, ghost p: Point)
    requires OnCurve(p) && OddPrecomp(table, p) && IsDigit(d) && IsP1P1(t, q)
    modifies t, u
    ensures IsP1P1(t, Add(q, Mul(d, p)))
  {
    if d != 0 {
      DigitIndex(d);
    }
    if d > 0 {
      GeP1P1ToP3(u, t, q);
      GeMadd(t, u, table[d / 2], q, Mul(d, p));
    } else if d < 0 {
      MulNeg(-d, p);
      GeP1P1ToP3(u, t, q);
      GeMsub(t, u, table[-d / 2], q, Mul(-d, p));
    } else {
      AddZero(q);
    }
  }

  // -------------------------------------------------------------------------------------------
  // The table of odd multiples of A
  // -------------------------------------------------------------------------------------------

  /** The entry after n A, which is 2A + n A. */
  method NextOdd(a2: GeP3, t: GeP1P1, u: GeP3, entry: GeCached, ghost n: int, ghost p: Point) returns (next: GeCached)
    requires OnCurve(p) && a2 != u && IsP3(a2, Mul(2, p)) && IsCached(entry, Mul(n, p))
    modifies t, u
    ensures fresh(next) && IsCached(next, Mul(n + 2, p))
  {
    hide Add, Mul, IsCached, IsP1P1, IsP3;
    MulAdd(2, n, p);
    GeAdd(t, a2, entry, Mul(2, p), Mul(n, p));
    GeP1P1ToP3(u, t, Mul(n + 2, p));
    next := new GeCached();
    GeP3ToCached(next, u, Mul(n + 2, p));
  }

  method Double(a: GeP3, t: GeP1P1, ghost p: Point) returns (a2: GeP3)
    requires IsP3(a, p)
    modifies t
    ensures fresh(a2) && IsP3(a2, Mul(2, p))
  {
    MulOne(p);
    GeP3Dbl(t, a, p);
    a2 := new GeP3();
    GeP1P1ToP3(a2, t, Add(p, p));
  }

  /** A, 3A, 5A, ..., 15A. */
  method OddMultiples(a: GeP3, ghost p: Point) returns (table: seq<GeCached>)
    requires OnCurve(p) && IsP3(a, p)
    ensures |table| == 8 && OddCached(table, 8, p) && forall j :: 0 <= j < 8 ==> fresh(table[j])
  {
    hide Add, Mul, IsCached, IsP3, OnCurve;
    var c := new GeCached();
    GeP3ToCached(c, a, p);
    MulOne(p);
    var t := new GeP1P1();
    var u := new GeP3();
    var a2 := Double(a, t, p);
    table := [c];
    for k := 0 to 7
      invariant |table| == k + 1 && OddCached(table, k + 1, p)
      invariant forall j :: 0 <= j <= k ==> fresh(table[j])
      invariant IsP3(a2, Mul(2, p))
    {
      var next := NextOdd(a2, t, u, table[k], 2 * k + 1, p);
      table := table + [next];
    }
  }

  // -------------------------------------------------------------------------------------------
  // The loop
  // -------------------------------------------------------------------------------------------

  /** m P + n Q. */
  ghost function Combination(m: int, p: Point, n: int, q: Point): Point {
    Add(Mul(m, p), Mul(n, q))
  }

  lemma CombinationOnCurve(m: int, p: Point, n: int, q: Point)
    requires OnCurve(p) && OnCurve(q)
    ensures OnCurve(Mul(m, p)) && OnCurve(Mul(n, q)) && OnCurve(Combination(m, p, n, q))
  {
    MulOnCurve(m, p);
    MulOnCurve(n, q);
    AddCloses(Mul(m, p), Mul(n, q));
  }

  lemma CombinationSum(m: int, k: int, p: Point, n: int, l: int, q: Point)
    requires OnCurve(p) && OnCurve(q)
    ensures Add(Combination(m, p, n, q), Combination(k, p, l, q)) == Combination(m + k, p, n + l, q)
  {
    CombinationOnCurve(m, p, n, q);
    CombinationOnCurve(k, p, l, q);
    CurveGroup.Regroup(Mul(m, p), Mul(n, q), Mul(k, p), Mul(l, q));
    MulAdd(m, k, p);
    MulAdd(n, l, q);
  }

  /** Doubling and adding a digit of each scalar. */
  lemma CombinationStep(m: int, d: int, p: Point, n: int, e: int, q: Point)
    requires OnCurve(p) && OnCurve(q)
    ensures var c := Combination(m, p, n, q);
            Add(Add(Add(c, c), Mul(d, p)), Mul(e, q)) == Combination(d + 2 * m, p, e + 2 * n, q)
  {
    hide PrimeField.Cong;
    var c := Combination(m, p, n, q);
    CombinationSum(m, m, p, n, n, q);
    CombinationSum(m + m, d, p, n + n, e, q);
    CombinationOnCurve(m + m, p, n + n, q);
    CombinationOnCurve(d, p, e, q);
    AddAssociates(Add(c, c), Mul(d, p), Mul(e, q));
  }

  lemma CombinationZero(p: Point, q: Point)
    ensures Combination(0, p, 0, q) == ZERO
  {
    ZeroOnCurve();
    AddZero(ZERO);
  }

  /** Digits of a recoded scalar. */
  ghost predicate Digits(s: seq<int>) {
    |s| == 256 && forall j :: 0 <= j < 256 ==> IsDigit(s[j])
  }

  /** One iteration: r becomes 2r + d A + e B. */
  method Iterate(r: GeP2, t: GeP1P1, u: GeP3, d: int, e: int, ai: seq<GeCached>, bi: seq<GePrecomp>,
                 ghost m: int, ghost p: Point, ghost n: int, ghost q: Point)
    requires OnCurve(p) && OnCurve(q) && |ai| == 8 && OddCached(ai, 8, p) && OddPrecomp(bi, q)
    requires IsDigit(d) && IsDigit(e) && IsP2(r, Combination(m, p, n, q))
    modifies r, t, u
    ensures IsP2(r, Combination(d + 2 * m, p, e + 2 * n, q))
  {
    ghost var c := Combination(m, p, n, q);
    GeP2Dbl(t, r, c);
    AddDigit(t, u, d, ai, Add(c, c), p);
    AddBaseDigit(t, u, e, bi, Add(Add(c, c), Mul(d, p)), q);
    CombinationStep(m, d, p, n, e, q);
    GeP1P1ToP2(r, t, Combination(d + 2 * m, p, e + 2 * n, q));
  }

  method LoadDigits(a: seq<Byte>) returns (s: seq<int>)
    requires |a| == 32
    ensures Digits(s) && Binary(s, 0) == Recoded(LE(a))
  {
    var r := new int[256];
    Slide(r, a);
    s := r[..];
    forall j | 0 <= j < 256
      ensures IsDigit(s[j])
    {
      assert Digit(s, j);
    }
  }

  /** r = a A + b B, for the table of odd multiples of B; a scalar above 2^255 counts as it is recoded. */
  method GeDoubleScalarMultVartime(r: GeP2, a: seq<Byte>, bigA: GeP3, b: seq<Byte>, bi: seq<GePrecomp>,
                                   ghost p: Point, ghost q: Point)
    requires |a| == |b| == 32
    requires IsP3(bigA, p) && OnCurve(q) && OddPrecomp(bi, q)
    modifies r
    ensures IsP2(r, Combination(Recoded(LE(a)), p, Recoded(LE(b)), q))
    ensures LE(a) <= TWO_255 && LE(b) <= TWO_255 ==> IsP2(r, Combination(LE(a), p, LE(b), q))
  {
    hide Add, Mul, IsCached, IsPrecomp, IsP2, Combination;
    if LE(a) <= TWO_255 && LE(b) <= TWO_255 {
      BelowHalf(LE(a));
      BelowHalf(LE(b));
    }
    var aslide := LoadDigits(a);
    var bslide := LoadDigits(b);
    var ai := OddMultiples(bigA, p);
    var t := new GeP1P1();
    var u := new GeP3();
    CombinationZero(p, q);
    GeP2Zero(r);
    var i := 256;
    while i > 0 && aslide[i - 1] == 0 && bslide[i - 1] == 0
      invariant 0 <= i <= 256 && Binary(aslide, i) == 0 && Binary(bslide, i) == 0
    {
      i := i - 1;
    }
    while i > 0
      invariant 0 <= i <= 256
      invariant OddCached(ai, 8, p) && OddPrecomp(bi, q)
      invariant IsP2(r, Combination(Binary(aslide, i), p, Binary(bslide, i), q))
    {
      i := i - 1;
      Iterate(r, t, u, aslide[i], bslide[i], ai, bi, Binary(aslide, i + 1), p, Binary(bslide, i + 1), q);
    }
  }
}
