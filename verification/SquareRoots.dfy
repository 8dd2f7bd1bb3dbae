/** The square root of u/v that keypair/ge.c computes with one power, for p = 5 mod 8. */
module SquareRoots {
  import opened Power
  import opened PrimeField
  import opened PrimeModulus
  import opened EdwardsAlgebra

  const E: nat := (P - 5) / 8

  lemma PowTwice(t: int)
    ensures t * (Pow(t, E) * Pow(t, E)) == Pow(t, (P - 1) / 4)
  {
    PowAdd(t, E, E);
    assert Pow(t, (P - 1) / 4) == t * Pow(t, E + E);
  }

  lemma Monomials(u: int, v: int, c: int, w: int)
    ensures v * (((w * c) * u) * ((w * c) * u)) == ((c * c) * v) * u * (w * w) * u
  {
    var a := w * c;
    Rearrange(a, u, a, u);
    Rearrange(w, c, w, c);
    assert v * (((w * w) * (c * c)) * (u * u)) == ((c * c) * v) * u * (w * w) * u;
  }

  lemma CandidateAtoms(u: int, v: int, c: int, t: int, w: int, x: int, vxx: int, e: int)
    requires Cong(t, ((c * c) * v) * u) && Cong(w, e) && Cong(x, (w * c) * u) && Cong(vxx, v * (x * x))
    ensures Cong(vxx, (t * (e * e)) * u)
  {
    CongMul(x, (w * c) * u, x, (w * c) * u);
    CongScale(v, x * x, ((w * c) * u) * ((w * c) * u));
    Monomials(u, v, c, w);
    CongTrans(vxx, v * (x * x), ((c * c) * v) * u * (w * w) * u);
    CongSym(t, ((c * c) * v) * u);
    CongMul(w, e, w, e);
    CongMul(((c * c) * v) * u, t, w * w, e * e);
    CongScale(u, ((c * c) * v) * u * (w * w), t * (e * e));
    CongTrans(vxx, ((c * c) * v) * u * (w * w) * u, u * (t * (e * e)));
  }

  /** v x^2 = u t^((p - 1)/4) for x = (t^((p - 5)/8) c) u and t = c^2 v u. */
  lemma CandidateSquare(u: int, v: int, c: int, t: int, w: int, x: int, vxx: int)
    requires Cong(t, ((c * c) * v) * u) && Cong(w, Pow(t, E)) && Cong(x, (w * c) * u) && Cong(vxx, v * (x * x))
    ensures Cong(vxx, Pow(t, (P - 1) / 4) * u)
  {
    CandidateAtoms(u, v, c, t, w, x, vxx, Pow(t, E));
    PowTwice(t);
  }

  lemma HalfPower(m: int)
    requires !Cong(m, 0)
    ensures Cong(Pow(m, (P - 1) / 2), 1) || Cong(Pow(m, (P - 1) / 2), -1)
  {
    var n := Pow(m, (P - 1) / 2);
    PowAdd(m, (P - 1) / 2, (P - 1) / 2);
    Inverse(m);
    assert Pow(m, P - 1) == m * Pow(m, P - 2);
    UnitRoots(n);
  }

  lemma UnitRoots(n: int)
    requires Cong(n * n, 1)
    ensures Cong(n, 1) || Cong(n, -1)
  {
    assert (n - 1) * (n + 1) == n * n - 1;
    Combine1((n - 1) * (n + 1), 0, 1, n * n, 1);
    NoZeroDivisors(n - 1, n + 1);
    if Cong(n - 1, 0) {
      Combine1(n, 1, 1, n - 1, 0);
    } else {
      Combine1(n, -1, 1, n + 1, 0);
    }
  }

  lemma SquaredRoot(u: int, v: int, c: int, r: int, m: int)
    requires Cong(u, v * (r * r)) && m == (c * v) * r
    ensures Cong(((c * c) * v) * u, m * m)
  {
    CongScale((c * c) * v, u, v * (r * r));
    Rearrange(c * v, r, c * v, r);
    Rearrange(c, v, c, v);
    assert ((c * c) * v) * (v * (r * r)) == ((c * c) * (v * v)) * (r * r);
  }

  lemma TimesUnit(z: int, n: int, u: int)
    requires Cong(z, n * u) && (Cong(n, 1) || Cong(n, -1))
    ensures Cong(z, u) || Cong(z, -u)
  {
    if Cong(n, 1) {
      CongScale(u, n, 1);
      CongTrans(z, n * u, u);
    } else {
      CongScale(u, n, -1);
      CongTrans(z, n * u, -u);
    }
  }

  lemma VanishingFactor(u: int, a: int, b: int)
    requires Cong(u, a * b) && (Cong(a, 0) || Cong(b, 0))
    ensures Cong(u, 0)
  {
    if Cong(a, 0) {
      CongScale(b, a, 0);
    } else {
      CongScale(a, b, 0);
    }
    CongTrans(u, a * b, 0);
  }

  lemma SquareVanishes(r: int)
    requires Cong(r, 0)
    ensures Cong(r * r, 0)
  {
    CongMul(r, 0, r, 0);
  }

  lemma FactorsNonzero(u: int, v: int, r: int)
    requires !Cong(u, 0) && Cong(u, v * (r * r))
    ensures !Cong(v, 0) && !Cong(r, 0)
  {
    if Cong(v, 0) {
      VanishingFactor(u, v, r * r);
    }
    if Cong(r, 0) {
      SquareVanishes(r);
      VanishingFactor(u, v, r * r);
    }
  }

  lemma CubeNonzero(v: int, c: int)
    requires !Cong(v, 0) && Cong(c, (v * v) * v)
    ensures !Cong(c, 0)
  {
    Nonzero(v, v);
    Nonzero(v * v, v);
    if Cong(c, 0) {
      CongSym(c, (v * v) * v);
      CongTrans((v * v) * v, c, 0);
    }
  }

  lemma RootNonzero(u: int, v: int, c: int, r: int)
    requires !Cong(u, 0) && Cong(u, v * (r * r)) && Cong(c, (v * v) * v)
    ensures !Cong((c * v) * r, 0)
  {
    FactorsNonzero(u, v, r);
    CubeNonzero(v, c);
    Nonzero(c, v);
    Nonzero(c * v, r);
  }

  /** If u/v has a square root r, v x^2 is u or -u. */
  lemma RootExists(u: int, v: int, c: int, t: int, w: int, x: int, vxx: int, r: int)
    requires Cong(u, v * (r * r)) && Cong(c, (v * v) * v)
    requires Cong(t, ((c * c) * v) * u) && Cong(w, Pow(t, E)) && Cong(x, (w * c) * u) && Cong(vxx, v * (x * x))
    ensures Cong(vxx, u) || Cong(vxx, -u)
  {
    CandidateSquare(u, v, c, t, w, x, vxx);
    var n := Pow(t, (P - 1) / 4);
    if Cong(u, 0) {
      CongScale(n, u, 0);
      CongTrans(vxx, n * u, 0);
      CongSym(u, 0);
      CongTrans(vxx, 0, u);
    } else {
      var m := (c * v) * r;
      SquaredRoot(u, v, c, r, m);
      CongTrans(t, ((c * c) * v) * u, m * m);
      CongPow(t, m * m, (P - 1) / 4);
      RootNonzero(u, v, c, r);
      PowMul(m, 2, (P - 1) / 4);
      assert Pow(m, 2) == m * Pow(m, 1) && Pow(m, 1) == m * Pow(m, 0);
      HalfPower(m);
      if Cong(Pow(m, (P - 1) / 2), 1) {
        CongTrans(n, Pow(m, (P - 1) / 2), 1);
      } else {
        CongTrans(n, Pow(m, (P - 1) / 2), -1);
      }
      TimesUnit(vxx, n, u);
    }
  }
}
