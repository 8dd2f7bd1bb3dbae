/** Prime numbers: no zero divisors, Fermat's little theorem, and Pocklington's test. */
module Primes {
  import Bits
  import Machine
  import opened Power

  function Times(n: int, k: int): int {
    n * k
  }

  ghost predicate Divides(d: int, n: int) {
    exists k :: n == Times(d, k)
  }

  ghost predicate IsPrime(n: int) {
    n >= 2 && forall d :: 2 <= d < n ==> !Divides(d, n)
  }

  /** a and b differ by a multiple of n. */
  ghost predicate Same(n: int, a: int, b: int) {
    Divides(n, a - b)
  }

  // -------------------------------------------------------------------------------------------
  // Congruences
  // -------------------------------------------------------------------------------------------

  lemma SameBy(n: int, a: int, b: int, k: int)
    requires a == b + n * k
    ensures Same(n, a, b)
  {
    assert a - b == Times(n, k);
  }

  lemma Witness(n: int, a: int, b: int) returns (k: int)
    requires Same(n, a, b)
    ensures a == b + n * k
  {
    k :| a - b == Times(n, k);
  }

  lemma SameMod(n: int, a: int, b: int)
    requires n > 0
    ensures Same(n, a, b) <==> (a - b) % n == 0
  {
    if Same(n, a, b) {
      var k := Witness(n, a, b);
      Bits.DivModUnique(a - b, n, k, 0);
    }
    if (a - b) % n == 0 {
      SameBy(n, a, b, (a - b) / n);
    }
  }

  lemma SameSelf(n: int, a: int)
    ensures Same(n, a, a)
  {
    SameBy(n, a, a, 0);
  }

  lemma SameSym(n: int, a: int, b: int)
    requires Same(n, a, b)
    ensures Same(n, b, a)
  {
    var k := Witness(n, a, b);
    SameBy(n, b, a, -k);
  }

  lemma SameTrans(n: int, a: int, b: int, c: int)
    requires Same(n, a, b) && Same(n, b, c)
    ensures Same(n, a, c)
  {
    var k := Witness(n, a, b);
    var l := Witness(n, b, c);
    SameBy(n, a, c, k + l);
  }

  lemma SameAdd(n: int, a: int, b: int, c: int, d: int)
    requires Same(n, a, b) && Same(n, c, d)
    ensures Same(n, a + c, b + d) && Same(n, a - c, b - d)
  {
    var k := Witness(n, a, b);
    var l := Witness(n, c, d);
    SameBy(n, a + c, b + d, k + l);
    SameBy(n, a - c, b - d, k - l);
  }

  lemma SameMul(n: int, a: int, b: int, c: int, d: int)
    requires Same(n, a, b) && Same(n, c, d)
    ensures Same(n, a * c, b * d)
  {
    var k := Witness(n, a, b);
    var l := Witness(n, c, d);
    assert a * c == b * c + n * (k * c) by {
      assert (n * k) * c == n * (k * c);
    }
    assert b * c == b * d + n * (b * l) by {
      assert b * (n * l) == n * (b * l);
    }
    SameBy(n, a * c, b * c, k * c);
    SameBy(n, b * c, b * d, b * l);
    SameTrans(n, a * c, b * c, b * d);
  }

  lemma {:induction false} SamePow(n: int, a: int, b: int, e: nat)
    requires Same(n, a, b)
    ensures Same(n, Pow(a, e), Pow(b, e))
  {
    if e == 0 {
      SameSelf(n, 1);
    } else {
      SamePow(n, a, b, e - 1);
      SameMul(n, a, b, Pow(a, e - 1), Pow(b, e - 1));
    }
  }

  lemma {:induction false} OnePow(e: nat)
    ensures Pow(1, e) == 1
  {
    if e > 0 {
      OnePow(e - 1);
    }
  }

  /** A congruence mod n is one mod every divisor of n. */
  lemma SameDivisor(r: int, n: int, a: int, b: int)
    requires Divides(r, n) && Same(n, a, b)
    ensures Same(r, a, b)
  {
    var k := Witness(n, a, b);
    var m :| n == Times(r, m);
    assert (r * m) * k == r * (m * k);
    SameBy(r, a, b, m * k);
  }

  // -------------------------------------------------------------------------------------------
  // No zero divisors
  // -------------------------------------------------------------------------------------------

  lemma Zero(n: int, a: int)
    ensures Same(n, a, 0) <==> Divides(n, a)
  {
  }

  lemma NotDivisor(p: int, a: int)
    requires IsPrime(p) && 2 <= a < p
    ensures 0 < p % a < a
  {
    assert !Divides(a, p);
    assert p == a * (p / a) + p % a;
    assert p % a == 0 ==> p == Times(a, p / a);
  }

  lemma RemainderTimes(p: int, a: int, b: int, q: int, r: int)
    requires p == q * a + r && Same(p, a * b, 0)
    ensures Same(p, r * b, 0)
  {
    var k := Witness(p, a * b, 0);
    assert r * b == p * b - q * (a * b) by {
      assert (q * a) * b == q * (a * b);
    }
    assert q * (p * k) == p * (q * k);
    SameBy(p, r * b, 0, b - q * k);
  }

  lemma {:induction false} EuclidReduced(p: int, a: int, b: int)
    requires IsPrime(p) && 0 < a < p && Same(p, a * b, 0)
    ensures Same(p, b, 0)
    decreases a
  {
    if a > 1 {
      NotDivisor(p, a);
      RemainderTimes(p, a, b, p / a, p % a);
      EuclidReduced(p, p % a, b);
    }
  }

  /** A prime that divides a product divides one of the factors. */
  lemma Euclid(p: int, a: int, b: int)
    requires IsPrime(p) && Same(p, a * b, 0)
    ensures Same(p, a, 0) || Same(p, b, 0)
  {
    var r := a % p;
    SameBy(p, a, r, a / p);
    if r == 0 {
    } else {
      SameSym(p, a, r);
      SameSelf(p, b);
      SameMul(p, r, a, b, b);
      SameTrans(p, r * b, a * b, 0);
      EuclidReduced(p, r, b);
    }
  }

  lemma Cancel(p: int, c: int, a: int, b: int)
    requires IsPrime(p) && Same(p, c * a, c * b) && !Same(p, c, 0)
    ensures Same(p, a, b)
  {
    var k := Witness(p, c * a, c * b);
    assert c * (a - b) == c * a - c * b;
    SameBy(p, c * (a - b), 0, k);
    Euclid(p, c, a - b);
    var l := Witness(p, a - b, 0);
    SameBy(p, a, b, l);
  }

  // -------------------------------------------------------------------------------------------
  // Fermat's little theorem, from the binomial theorem
  // -------------------------------------------------------------------------------------------

  function Choose(n: nat, k: nat): nat
    decreases n, k
  {
    if k == 0 then 1 else if n == 0 then 0 else Choose(n - 1, k - 1) + Choose(n - 1, k)
  }

  lemma {:induction false} ChooseBeyond(n: nat, k: nat)
    requires k > n
    ensures Choose(n, k) == 0
  {
    if n > 0 {
      ChooseBeyond(n - 1, k - 1);
      ChooseBeyond(n - 1, k);
    }
  }

  lemma {:induction false} ChooseSelf(n: nat)
    ensures Choose(n, n) == 1
  {
    if n > 0 {
      ChooseSelf(n - 1);
      ChooseBeyond(n - 1, n);
    }
  }

  lemma AbsorbStep(n: int, k: int, a: int, b: int, c: int, d: int)
    requires a == c + d && (k - 1) * a == (n - 1) * c && k * b == (n - 1) * d
    ensures k * (a + b) == n * a
  {
    assert k * (a + b) == a + (k - 1) * a + k * b;
    assert (n - 1) * (c + d) == (n - 1) * c + (n - 1) * d;
    assert n * a == a + (n - 1) * a;
  }

  lemma {:induction false} Absorb(n: nat, k: nat)
    requires n > 0 && k > 0
    ensures k * Choose(n, k) == n * Choose(n - 1, k - 1)
    decreases n
  {
    if n > 1 {
      Absorb(n - 1, k);
      if k > 1 {
        Absorb(n - 1, k - 1);
        AbsorbStep(n, k, Choose(n - 1, k - 1), Choose(n - 1, k), Choose(n - 2, k - 2), Choose(n - 2, k - 1));
      }
    } else if k > 1 {
      ChooseBeyond(0, k - 1);
      ChooseBeyond(1, k);
    }
  }

  /** The binomial sum up to the term in a^k. */
  function Terms(n: nat, k: nat, a: int): int
    decreases k, n, a
  {
    if k == 0 then 1 else Terms(n, k - 1, a) + Choose(n, k) * Pow(a, k)
  }

  lemma {:induction false} TermsStep(n: nat, k: nat, a: int)
    requires n > 0 && k > 0
    ensures Terms(n, k, a) == Terms(n - 1, k, a) + a * Terms(n - 1, k - 1, a)
    decreases k
  {
    var x, y, t := Choose(n - 1, k - 1), Choose(n - 1, k), Pow(a, k - 1);
    TermSplits(x, y, a, t);
    if k == 1 {
      assert Pow(a, 0) == 1;
    } else {
      TermsStep(n, k - 1, a);
      Distribute(a, Terms(n - 1, k - 2, a), x * t);
    }
  }

  lemma TermSplits(x: int, y: int, a: int, t: int)
    ensures (x + y) * (a * t) == a * (x * t) + y * (a * t)
  {
  }

  lemma Distribute(a: int, x: int, y: int)
    ensures a * (x + y) == a * x + a * y
  {
  }

  lemma {:induction false} Binomial(n: nat, a: int)
    ensures Terms(n, n, a) == Pow(1 + a, n)
  {
    if n > 0 {
      Binomial(n - 1, a);
      TermsStep(n, n, a);
      ChooseBeyond(n - 1, n);
    }
  }

  lemma LastTerm(n: nat, a: int)
    requires n > 0
    ensures Terms(n, n, a) == Terms(n, n - 1, a) + Pow(a, n)
  {
    ChooseSelf(n);
  }

  lemma ChoosePrime(p: nat, k: nat)
    requires IsPrime(p) && 0 < k < p
    ensures Same(p, Choose(p, k), 0)
  {
    Absorb(p, k);
    SameBy(p, k * Choose(p, k), 0, Choose(p - 1, k - 1));
    EuclidReduced(p, k, Choose(p, k));
  }

  lemma {:induction false} TermsPrime(p: nat, k: nat, a: int)
    requires IsPrime(p) && k < p
    ensures Same(p, Terms(p, k, a), 1)
    decreases k
  {
    if k == 0 {
      SameSelf(p, 1);
    } else {
      TermsPrime(p, k - 1, a);
      ChoosePrime(p, k);
      SameSelf(p, Pow(a, k));
      SameMul(p, Choose(p, k), 0, Pow(a, k), Pow(a, k));
      SameAdd(p, Terms(p, k - 1, a), 1, Choose(p, k) * Pow(a, k), 0);
    }
  }

  /** (1 + a)^p = 1 + a^p. */
  lemma Freshman(p: nat, a: int)
    requires IsPrime(p)
    ensures Same(p, Pow(1 + a, p), 1 + Pow(a, p))
  {
    hide Terms, Choose;
    Binomial(p, a);
    TermsPrime(p, p - 1, a);
    LastTerm(p, a);
    SameSelf(p, Pow(a, p));
    SameAdd(p, Terms(p, p - 1, a), 1, Pow(a, p), Pow(a, p));
  }

  lemma {:induction false} FermatNat(p: nat, a: nat)
    requires IsPrime(p)
    ensures Same(p, Pow(a, p), a)
    decreases a
  {
    if a == 0 {
      assert Pow(0, p) == 0 * Pow(0, p - 1);
      SameSelf(p, 0);
    } else {
      FermatNat(p, a - 1);
      Freshman(p, a - 1);
      SameSelf(p, 1);
      SameAdd(p, 1, 1, Pow(a - 1, p), a - 1);
      SameTrans(p, Pow(a, p), 1 + Pow(a - 1, p), a);
    }
  }

  /** a^p = a, for every a. */
  lemma Fermat(p: nat, a: int)
    requires IsPrime(p)
    ensures Same(p, Pow(a, p), a)
  {
    var r := a % p;
    SameBy(p, a, r, a / p);
    SamePow(p, a, r, p);
    FermatNat(p, r);
    SameTrans(p, Pow(a, p), Pow(r, p), r);
    SameSym(p, a, r);
    SameTrans(p, Pow(a, p), r, a);
  }

  /** a^(p - 1) = 1, unless a = 0. */
  lemma FermatOne(p: nat, a: int)
    requires IsPrime(p) && !Same(p, a, 0)
    ensures Same(p, Pow(a, p - 1), 1)
  {
    Fermat(p, a);
    assert Pow(a, p) == a * Pow(a, p - 1);
    Cancel(p, a, Pow(a, p - 1), 1);
  }

  // -------------------------------------------------------------------------------------------
  // Pocklington's test
  // -------------------------------------------------------------------------------------------

  lemma PowerOne(r: int, g: int, q: nat, m: nat, s: nat)
    requires Same(r, Pow(g, q), 1) && Same(r, Pow(g, q * m + s), 1)
    ensures Same(r, Pow(g, s), 1)
  {
    PowMul(g, q, m);
    PowAdd(g, q * m, s);
    SamePow(r, Pow(g, q), 1, m);
    OnePow(m);
    SameSelf(r, Pow(g, s));
    SameMul(r, Pow(g, q * m), 1, Pow(g, s), Pow(g, s));
    SameSym(r, Pow(g, q * m + s), Pow(g, s));
    SameTrans(r, Pow(g, s), Pow(g, q * m + s), 1);
  }

  /** If q is prime, no power of g below the q-th is 1, unless g is. */
  lemma {:induction false} ShorterOrder(r: int, g: int, q: nat, s: nat)
    requires IsPrime(q) && 0 < s < q && Same(r, Pow(g, q), 1) && Same(r, Pow(g, s), 1)
    ensures Same(r, g, 1)
    decreases s
  {
    if s == 1 {
      assert Pow(g, 1) == g * Pow(g, 0);
    } else {
      NotDivisor(q, s);
      var m := q / s;
      assert m >= 0;
      assert q == s * m + q % s;
      PowerOne(r, g, s, m, q % s);
      ShorterOrder(r, g, q, q % s);
    }
  }

  lemma NotOne(n: int, r: int, g: int, w: int)
    requires IsPrime(r) && Divides(r, n) && Same(n, (g - 1) * w, 1)
    ensures !Same(r, g, 1)
  {
    SameDivisor(r, n, (g - 1) * w, 1);
    if Same(r, g, 1) {
      SameSelf(r, 1);
      SameAdd(r, g, 1, 1, 1);
      SameSelf(r, w);
      SameMul(r, g - 1, 0, w, w);
      SameSym(r, (g - 1) * w, 0);
      SameTrans(r, 0, (g - 1) * w, 1);
      var k := Witness(r, 0, 1);
      assert r * k == -1;
      assert false by {
        if k >= 0 {
          Machine.MulMonotone(r, 0, k);
        } else {
          Machine.MulMonotone(r, k, -1);
        }
      }
    }
  }

  /** n has an element of order q: g^q = 1, and g - 1 has the inverse w. */
  ghost predicate HasOrder(n: int, q: nat, g: int, w: int) {
    Same(n, Pow(g, q), 1) && Same(n, (g - 1) * w, 1)
  }

  /** Then q divides r - 1 for every prime r that divides n. */
  lemma OrderDivides(n: int, q: nat, g: int, w: int, r: nat) returns (m: nat)
    requires IsPrime(q) && HasOrder(n, q, g, w) && IsPrime(r) && Divides(r, n)
    ensures r - 1 == q * m && m > 0
  {
    SameDivisor(r, n, Pow(g, q), 1);
    NotOne(n, r, g, w);
    if Same(r, g, 0) {
      SamePow(r, g, 0, q);
      assert Pow(0, q) == 0 * Pow(0, q - 1);
      SameSym(r, Pow(g, q), 0);
      SameTrans(r, 0, Pow(g, q), 1);
      ZeroNotOne(r);
      assert false;
    }
    FermatOne(r, g);
    m := (r - 1) / q;
    var s := (r - 1) % q;
    assert r - 1 == q * m + s;
    PowerOne(r, g, q, m, s);
    if s > 0 {
      ShorterOrder(r, g, q, s);
      assert false;
    }
  }

  lemma ZeroNotOne(r: int)
    requires r >= 2
    ensures !Same(r, 0, 1)
  {
    SameMod(r, 0, 1);
  }

  /** The least divisor of n from d on. */
  lemma {:induction false} DivisorFrom(n: int, d: int) returns (r: int)
    requires 2 <= d <= n && forall k :: 2 <= k < d ==> !Divides(k, n)
    ensures d <= r <= n && Divides(r, n) && forall k :: 2 <= k < r ==> !Divides(k, n)
    decreases n - d
  {
    if Divides(d, n) {
      r := d;
    } else {
      assert n == Times(n, 1);
      r := DivisorFrom(n, d + 1);
    }
  }

  lemma DividesTrans(a: int, b: int, c: int)
    requires Divides(a, b) && Divides(b, c)
    ensures Divides(a, c)
  {
    var k :| b == Times(a, k);
    var l :| c == Times(b, l);
    assert (a * k) * l == a * (k * l);
    assert c == Times(a, k * l);
  }

  lemma Cofactor(n: int, r: int, k: int)
    requires n == r * k && 1 < r < n
    ensures 1 < k < n
  {
    if k <= 1 {
      Machine.MulMonotone(r, k, 1);
    }
    if k >= n {
      Machine.MulMonotone(r, n, k);
      Machine.MulMonotone(n, 2, r);
    }
  }

  /** A number that is not prime has a prime divisor whose square is at most the number. */
  lemma SmallFactor(n: int) returns (r: int)
    requires n >= 2 && !IsPrime(n)
    ensures IsPrime(r) && Divides(r, n) && r * r <= n
  {
    r := DivisorFrom(n, 2);
    forall d | 2 <= d < r
      ensures !Divides(d, r)
    {
      if Divides(d, r) {
        DividesTrans(d, r, n);
      }
    }
    var k :| n == Times(r, k);
    Cofactor(n, r, k);
    assert n == Times(k, r);
    assert Divides(k, n) && k >= r;
    Machine.MulMonotone(r, r, k);
  }

  /** A number is prime if it has elements whose orders are two primes with a product above its root. */
  lemma Pocklington(n: int, q: nat, g: int, w: int)
    requires n >= 2 && IsPrime(q) && HasOrder(n, q, g, w) && q * q > n
    ensures IsPrime(n)
  {
    if !IsPrime(n) {
      var r := SmallFactor(n);
      var m := OrderDivides(n, q, g, w, r);
      Machine.MulMonotone(q, 1, m);
      SquareAbove(q, r, n);
      assert false;
    }
  }

  lemma ProductBelow(p: int, q: int, n: int, m: int, l: int)
    requires IsPrime(p) && IsPrime(q) && p != q && n == p * m && n == q * l && n > 0
    ensures p * q <= n
  {
    SameBy(q, p * m, 0, l);
    Euclid(q, p, m);
    if Same(q, p, 0) {
      DividesBelow(q, p);
      assert false;
    }
    var k := Witness(q, m, 0);
    assert p * (q * k) == (p * q) * k;
    Machine.MulMonotone(p, 0, q);
    if k <= 0 {
      Machine.MulMonotone(p * q, k, 0);
      assert false;
    }
    Machine.MulMonotone(p * q, 1, k);
  }

  lemma PocklingtonTwo(n: int, p: nat, g: int, w: int, q: nat, h: int, v: int)
    requires n >= 2 && IsPrime(p) && HasOrder(n, p, g, w) && IsPrime(q) && HasOrder(n, q, h, v)
    requires p != q && (p * q) * (p * q) > n
    ensures IsPrime(n)
  {
    if !IsPrime(n) {
      var r := SmallFactor(n);
      var m := OrderDivides(n, p, g, w, r);
      var l := OrderDivides(n, q, h, v, r);
      ProductBelow(p, q, r - 1, m, l);
      SquareAbove(p * q, r, n);
      assert false;
    }
  }

  lemma SquareAbove(a: int, b: int, n: int)
    requires 0 < a < b && b * b <= n
    ensures a * a <= n
  {
    Machine.MulMonotone(b, a, b);
    Machine.MulMonotone(a, a, b);
  }

  lemma DividesBelow(q: int, p: int)
    requires IsPrime(p) && q >= 2 && Divides(q, p)
    ensures q == p
  {
    var k :| p == Times(q, k);
    if q > p {
      if k >= 1 {
        Machine.MulMonotone(q, 1, k);
      } else {
        Machine.MulMonotone(q, k, 0);
      }
    }
  }

  // -------------------------------------------------------------------------------------------
  // Numbers
  // -------------------------------------------------------------------------------------------

  predicate IsSmallPrime(r: int) {
    r in {2, 3, 5, 7, 11, 13, 17, 19, 23, 29, 31}
  }

  lemma NoMultiple(r: int, d: int)
    requires IsPrime(r) && 2 <= d < r
    ensures r % d != 0
  {
    NotDivisor(r, d);
  }

  lemma PrimeBelow32(r: int)
    requires IsPrime(r) && r < 32
    ensures IsSmallPrime(r)
  {
    if r > 5 {
      NoMultiple(r, 2);
      NoMultiple(r, 3);
      NoMultiple(r, 5);
    } else if r == 4 {
      NoMultiple(4, 2);
    }
  }

  /** Trial division. */
  lemma SmallPrime(n: int)
    requires 1 < n < 1024
    requires (n > 2 ==> n % 2 != 0) && (n > 3 ==> n % 3 != 0) && (n > 5 ==> n % 5 != 0) && (n > 7 ==> n % 7 != 0)
    requires (n > 11 ==> n % 11 != 0) && (n > 13 ==> n % 13 != 0) && (n > 17 ==> n % 17 != 0)
    requires (n > 19 ==> n % 19 != 0) && (n > 23 ==> n % 23 != 0) && (n > 29 ==> n % 29 != 0)
    requires n > 31 ==> n % 31 != 0
    ensures IsPrime(n)
  {
    hide IsPrime;
    if !IsPrime(n) {
      var r := SmallFactor(n);
      RootBound(n, r);
      PrimeBelow32(r);
      SameMod(r, n, 0);
      assert false;
    }
  }

  lemma RootBound(n: int, r: int)
    requires IsPrime(r) && r * r <= n < 1024
    ensures 2 <= r < n && r < 32
  {
    Machine.MulMonotone(r, 2, r);
    if r >= 32 {
      Machine.MulMonotone(r, 32, r);
    }
  }

  function Fourth(y: int): int {
    (y * y) * (y * y)
  }

  /** g^w, for w < 4. */
  function Digit(g: int, w: nat): int {
    if w == 0 then 1 else if w == 1 then g else if w == 2 then g * g else (g * g) * g
  }

  lemma PowFourth(g: int, e: nat)
    ensures Pow(g, 4 * e) == Fourth(Pow(g, e))
  {
    PowAdd(g, e, e);
    PowAdd(g, 2 * e, 2 * e);
  }

  lemma PowDigit(g: int, w: nat)
    requires w < 4
    ensures Pow(g, w) == Digit(g, w)
  {
    assert Pow(g, 1) == g * Pow(g, 0);
    PowAdd(g, 2, 1);
  }

  lemma SameFourth(n: int, a: int, b: int)
    requires Same(n, a, b)
    ensures Same(n, Fourth(a), Fourth(b))
  {
    SameMul(n, a, b, a, b);
    SameMul(n, a * a, b * b, a * a, b * b);
  }

  lemma Start(n: int, g: int)
    ensures Same(n, Pow(g, 0), 1)
  {
    SameSelf(n, 1);
  }

  /** Two more bits of the exponent. */
  lemma Next(n: int, g: int, e: nat, y: int, w: nat, z: int) returns (f: nat, x: int)
    requires n > 0 && w < 4 && Same(n, Pow(g, e), y) && (Fourth(y) * Digit(g, w) - z) % n == 0
    ensures f == 4 * e + w && x == z && Same(n, Pow(g, f), x)
  {
    hide Pow, Fourth, Digit;
    f, x := 4 * e + w, z;
    PowAdd(g, 4 * e, w);
    PowFourth(g, e);
    PowDigit(g, w);
    SameFourth(n, Pow(g, e), y);
    SameSelf(n, Digit(g, w));
    SameMul(n, Fourth(Pow(g, e)), Fourth(y), Digit(g, w), Digit(g, w));
    SameMod(n, Fourth(y) * Digit(g, w), z);
    SameTrans(n, Pow(g, f), Fourth(y) * Digit(g, w), z);
  }
}
