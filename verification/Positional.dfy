/** Numbers written in a positional base, most significant digit first. */
module Positional {
  import opened Bits
  import opened Power
  import Machine

  predicate IsDigits(b: int, s: seq<int>) {
    forall i :: 0 <= i < |s| ==> 0 <= s[i] < b
  }

  /** The number that continues the number x with the digits s. */
  function Continued(b: int, x: int, s: seq<int>): int {
    if s == [] then x else b * Continued(b, x, s[..|s| - 1]) + s[|s| - 1]
  }

  function Number(b: int, s: seq<int>): int {
    Continued(b, 0, s)
  }

  /** The digits of v without leading zeros. */
  function Digits(b: int, v: nat): seq<int>
    requires b > 1
  {
    if v == 0 then [] else
      DivSmaller(b, v);
      Digits(b, v / b) + [v % b]
  }

  lemma DivSmaller(b: int, v: nat)
    requires b > 1 && v > 0
    ensures 0 <= v / b < v
  {
    var q := v / b;
    assert v == b * q + v % b;
    if q < 0 {
      Machine.MulMonotone(b, q, -1);
    }
    if q >= v {
      Machine.MulMonotone(b, v, q);
      Machine.MulMonotone(v, 2, b);
    }
  }

  function Repeat<T>(x: T, n: nat): seq<T> {
    seq(n, _ => x)
  }

  /** How many items at the front of s are x. */
  function Leading<T(==)>(s: seq<T>, x: T): (n: nat)
    ensures n <= |s|
  {
    if s == [] || s[0] != x then 0 else 1 + Leading(s[1..], x)
  }

  lemma {:induction false} LeadingIs<T>(s: seq<T>, x: T, n: nat)
    requires n <= |s| && (forall k :: 0 <= k < n ==> s[k] == x) && (n < |s| ==> s[n] != x)
    ensures Leading(s, x) == n
  {
    if n > 0 {
      assert s[0] == x;
      LeadingIs(s[1..], x, n - 1);
    }
  }

  lemma {:induction false} LeadingSplit<T>(s: seq<T>, x: T)
    ensures s == Repeat(x, Leading(s, x)) + s[Leading(s, x)..]
    ensures Leading(s, x) < |s| ==> s[Leading(s, x)] != x
  {
    if s != [] && s[0] == x {
      LeadingSplit(s[1..], x);
      var n := Leading(s, x);
      assert s[1..][n - 1..] == s[n..];
      assert Repeat(x, n) == [x] + Repeat(x, n - 1);
      assert s == [x] + s[1..];
    }
  }

  lemma LeadingOf<T>(x: T, n: nat, s: seq<T>)
    requires s == [] || s[0] != x
    ensures Leading(Repeat(x, n) + s, x) == n
  {
    LeadingIs(Repeat(x, n) + s, x, n);
  }

  lemma {:induction false} ContinuedPrepend(b: int, x: int, d: int, s: seq<int>)
    ensures Continued(b, x, [d] + s) == Continued(b, b * x + d, s)
  {
    if s == [] {
      assert ([d] + s)[..0] == [];
    } else {
      ContinuedPrepend(b, x, d, s[..|s| - 1]);
      assert ([d] + s)[..|s|] == [d] + s[..|s| - 1];
    }
  }

  lemma {:induction false} LeadingZeros(b: int, n: nat, s: seq<int>)
    ensures Number(b, Repeat(0, n) + s) == Number(b, s)
  {
    if n == 0 {
      assert Repeat(0, n) + s == s;
    } else {
      LeadingZeros(b, n - 1, s);
      assert Repeat(0, n) + s == [0] + (Repeat(0, n - 1) + s);
      ContinuedPrepend(b, 0, 0, Repeat(0, n - 1) + s);
    }
  }

  /** The digits s confine the number to the block of |s| places that x selects. */
  lemma {:induction false} ContinuedBounds(b: int, x: int, s: seq<int>)
    requires b > 1 && x >= 0 && IsDigits(b, s)
    ensures x * Pow(b, |s|) <= Continued(b, x, s) < (x + 1) * Pow(b, |s|)
  {
    if s != [] {
      var r := s[..|s| - 1];
      ContinuedBounds(b, x, r);
      assert Pow(b, |s|) == b * Pow(b, |r|);
      BlockStep(b, x, Pow(b, |r|), Continued(b, x, r), s[|s| - 1]);
    } else {
      assert Pow(b, 0) == 1;
    }
  }

  lemma BlockStep(b: int, x: int, p: int, y: int, d: int)
    requires b > 1 && x * p <= y < (x + 1) * p && 0 <= d < b
    ensures x * (b * p) <= b * y + d < (x + 1) * (b * p)
  {
    Machine.MulMonotone(b, x * p, y);
    Machine.MulMonotone(b, y + 1, (x + 1) * p);
    assert b * (x * p) == x * (b * p);
    assert b * ((x + 1) * p) == (x + 1) * (b * p);
    assert b * (y + 1) == b * y + b;
  }

  lemma NumberBounds(b: int, s: seq<int>)
    requires b > 1 && IsDigits(b, s)
    ensures 0 <= Number(b, s) < Pow(b, |s|)
  {
    ContinuedBounds(b, 0, s);
  }

  lemma {:induction false} DigitsMean(b: int, v: nat)
    requires b > 1
    ensures IsDigits(b, Digits(b, v)) && Number(b, Digits(b, v)) == v
    ensures Digits(b, v) == [] || Digits(b, v)[0] != 0
  {
    if v > 0 {
      DivSmaller(b, v);
      DigitsMean(b, v / b);
      NumberAppend(b, Digits(b, v / b), v % b);
      QuotientRemainder(b, v);
    }
  }

  lemma NumberAppend(b: int, s: seq<int>, d: int)
    ensures Number(b, s + [d]) == b * Number(b, s) + d
  {
    assert (s + [d])[..|s|] == s;
  }

  lemma QuotientRemainder(b: int, v: nat)
    requires b > 1
    ensures b * (v / b) + v % b == v && 0 <= v % b < b
    ensures v / b == 0 ==> v % b == v
  {
    var q, r := v / b, v % b;
    if q == 0 {
      assert b * q == 0;
    }
  }

  /** A number below b^k has at most k digits. */
  lemma DigitsLength(b: int, v: nat, k: nat)
    requires b > 1 && v < Pow(b, k)
    ensures |Digits(b, v)| <= k
  {
    hide Pow, Continued, Digits;
    DigitsMean(b, v);
    var s := Digits(b, v);
    if |s| > k {
      assert s == [s[0]] + s[1..];
      ContinuedPrepend(b, 0, s[0], s[1..]);
      ContinuedBounds(b, s[0], s[1..]);
      PowMonotone(b, k, |s| - 1);
      PowPositive(b, |s| - 1);
      AtLeast(s[0], Pow(b, |s| - 1));
      assert false;
    }
  }

  lemma AtLeast(x: int, p: int)
    requires x > 0 && p > 0
    ensures x * p >= p
  {
    Machine.MulMonotone(p, 1, x);
  }

  lemma {:induction false} DigitsUnique(b: int, s: seq<int>)
    requires b > 1 && IsDigits(b, s) && (s == [] || s[0] != 0)
    ensures Number(b, s) >= 0 && Digits(b, Number(b, s)) == s
  {
    if s != [] {
      var r, d := s[..|s| - 1], s[|s| - 1];
      DigitsUnique(b, r);
      var n := Number(b, r);
      DivModUnique(b * n + d, b, n, d);
      Machine.MulMonotone(b, 0, n);
      if n > 0 {
        Machine.MulMonotone(n, 1, b);
      }
    }
  }

  // -------------------------------------------------------------------------------------------
  // Comparing powers
  // -------------------------------------------------------------------------------------------

  lemma {:induction false} PowPositive(x: int, e: nat)
    requires x > 0
    ensures Pow(x, e) > 0
  {
    if e > 0 {
      PowPositive(x, e - 1);
      Machine.MulMonotone(x, 1, Pow(x, e - 1));
    }
  }

  lemma {:induction false} PowMonotoneBase(x: int, y: int, e: nat)
    requires 0 < x <= y
    ensures Pow(x, e) <= Pow(y, e)
  {
    if e > 0 {
      PowMonotoneBase(x, y, e - 1);
      PowPositive(y, e - 1);
      Machine.MulMonotone(x, Pow(x, e - 1), Pow(y, e - 1));
      Machine.MulMonotone(Pow(y, e - 1), x, y);
    }
  }

  lemma PowMonotone(x: int, e: nat, f: nat)
    requires x > 1 && e <= f
    ensures Pow(x, e) <= Pow(x, f)
    ensures e < f ==> Pow(x, e) < Pow(x, f)
  {
    PowAdd(x, e, f - e);
    PowPositive(x, e);
    PowPositive(x, f - e);
    Machine.MulMonotone(Pow(x, e), 1, Pow(x, f - e));
    if e < f {
      PowPositive(x, f - e - 1);
      Machine.MulMonotone(x, 1, Pow(x, f - e - 1));
      Machine.MulMonotone(Pow(x, e), x, Pow(x, f - e));
      Machine.MulMonotone(Pow(x, e), 2, x);
    }
  }

  /** If b^p <= c^q, then k > q n / p digits in base c hold every number of n digits in base b. */
  lemma EnoughDigits(b: int, p: nat, c: int, q: nat, n: nat, k: nat)
    requires b > 1 && c > 1 && Pow(b, p) <= Pow(c, q) && k * p > q * n
    ensures Pow(c, k) > Pow(b, n)
  {
    PowPositive(c, k);
    PowPositive(b, p);
    PowSwap(b, n, p);
    PowMonotoneBase(Pow(b, p), Pow(c, q), n);
    PowPowMonotone(c, q, n, k, p);
    RootsOrdered(Pow(b, n), Pow(c, k), p);
  }

  lemma PowPowMonotone(c: int, q: nat, n: nat, k: nat, p: nat)
    requires c > 1 && k * p > q * n
    ensures Pow(Pow(c, q), n) < Pow(Pow(c, k), p)
  {
    hide Pow;
    PowMul(c, k, p);
    PowMul(c, q, n);
    PowMonotone(c, q * n, k * p);
  }

  lemma RootsOrdered(x: int, y: int, p: nat)
    requires y > 0 && Pow(x, p) < Pow(y, p)
    ensures x < y
  {
    if y <= x {
      PowMonotoneBase(y, x, p);
      assert false;
    }
  }

  lemma PowSwap(x: int, a: nat, b: nat)
    ensures Pow(Pow(x, a), b) == Pow(Pow(x, b), a)
  {
    PowMul(x, a, b);
    PowMul(x, b, a);
    assert a * b == b * a;
  }
}
