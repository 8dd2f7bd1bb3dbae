/** What follows from p = 2^255 - 19 being prime: no zero divisors, and inverses by Fermat's little theorem. */
module PrimeModulus {
  import Bits
  import opened Power
  import opened PrimeField
  import Primes
  import PrimeCertificate

  lemma ModulusIs()
    ensures P == Bits.Pow2(255) - 19
  {
    LargePower();
  }

  lemma SameIsCong(a: int, b: int)
    ensures Primes.Same(P, a, b) <==> Cong(a, b)
  {
    Primes.SameMod(P, a, b);
    CongIs(a, b);
  }

  lemma CongSelf(a: int)
    ensures Cong(a, a) && Cong(a % P, a) && Cong(a, a % P)
  {
    CongMod(a, a);
    CongMod(a % P, a);
    CongSym(a % P, a);
  }

  /** A product that is zero has a factor that is zero. */
  lemma NoZeroDivisors(a: int, b: int)
    requires Cong(a * b, 0)
    ensures Cong(a, 0) || Cong(b, 0)
  {
    hide Primes.IsPrime, Primes.Same;
    PrimeCertificate.PrimeP();
    SameIsCong(a * b, 0);
    Primes.Euclid(P, a, b);
    SameIsCong(a, 0);
    SameIsCong(b, 0);
  }

  lemma Nonzero(a: int, b: int)
    requires !Cong(a, 0) && !Cong(b, 0)
    ensures !Cong(a * b, 0)
  {
    if Cong(a * b, 0) {
      NoZeroDivisors(a, b);
    }
  }

  lemma Cancel(c: int, a: int, b: int)
    requires Cong(c * a, c * b) && !Cong(c, 0)
    ensures Cong(a, b)
  {
    hide Primes.IsPrime, Primes.Same;
    PrimeCertificate.PrimeP();
    SameIsCong(c * a, c * b);
    SameIsCong(c, 0);
    Primes.Cancel(P, c, a, b);
    SameIsCong(a, b);
  }

  lemma {:induction false} CongPow(a: int, b: int, e: nat)
    requires Cong(a, b)
    ensures Cong(Pow(a, e), Pow(b, e))
  {
    if e == 0 {
      CongSelf(1);
    } else {
      CongPow(a, b, e - 1);
      CongMul(a, b, Pow(a, e - 1), Pow(b, e - 1));
    }
  }

  /** z^(p - 1) = 1, unless z = 0. */
  lemma Fermat(z: int)
    requires !Cong(z, 0)
    ensures Cong(Pow(z, P - 1), 1)
  {
    hide Primes.IsPrime, Primes.Same, Pow;
    PrimeCertificate.PrimeP();
    SameIsCong(z, 0);
    Primes.FermatOne(P, z);
    SameIsCong(Pow(z, P - 1), 1);
  }

  /** z^(p - 2) is the inverse of z. */
  lemma Inverse(z: int)
    requires !Cong(z, 0)
    ensures Cong(z * Pow(z, P - 2), 1)
  {
    Fermat(z);
    assert Pow(z, P - 1) == z * Pow(z, P - 2);
  }
}
