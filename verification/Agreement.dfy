/** When the two ends of a key exchange get the same secret.  ed25519_key_exchange clamps the raw private
    key (keypair/key_exchange.c:20-27); public keys belong to the hashed one (keypair/keypair.c:7-12). */
module Agreement {
  import Bits
  import opened Bytes
  import opened PrimeField
  import opened PrimeModulus
  import opened EdwardsAlgebra
  import opened CurveGroup
  import opened Ge
  import opened GeEncoding
  import opened GeDecoding
  import opened ScalarLimbs
  import opened Montgomery
  import opened Ladder
  import KeyExchange
  import Ed25519
  import BaseOrder
  import opened BasePoint

  /** The multiples of b repeat after l steps, and not before. */
  ghost predicate HasOrderL(b: Point) {
    forall k :: Mul(k, b) == ZERO <==> k % L == 0
  }

  lemma SameU(u: int, y: int, w: int)
    requires Cong(u * (1 - y), 1 + y) && Cong(u * (1 - w), 1 + w)
    ensures Cong(y, w)
  {
    Linear(u, y);
    Linear(u, w);
    CongSym(u - 1, (1 + u) * y);
    CongTrans((1 + u) * y, u - 1, (1 + u) * w);
    if Cong(1 + u, 0) {
      ZeroTimes(1 + u, y);
      CongTrans(u - 1, (1 + u) * y, 0);
      CongAdd(1 + u, 0, u - 1, 0);
      CongMod(2, 0);
      assert false;
    }
    Cancel(1 + u, y, w);
  }

  lemma Linear(u: int, y: int)
    requires Cong(u * (1 - y), 1 + y)
    ensures Cong(u - 1, (1 + u) * y)
  {
    assert u - 1 - (1 + u) * y == u * (1 - y) - (1 + y);
    Combine1(u - 1, (1 + u) * y, 1, u * (1 - y), 1 + y);
  }

  /** Points with the same u are equal or opposite, unless u is 0 or missing. */
  lemma EqualU(p: Point, q: Point)
    requires OnCurve(p) && OnCurve(q)
    ensures U(p.y) == U(q.y) <==> p == q || p == Neg(q) || (p.x == 0 && q.x == 0)
  {
    hide U;
    VanishingU(p);
    VanishingU(q);
    URange(p.y);
    URange(q.y);
    OnCurveIs(p);
    OnCurveIs(q);
    if U(p.y) == U(q.y) && !Cong(U(p.y), 0) {
      CongSelf(U(p.y));
      AffineU(U(p.y), p.y);
      AffineU(U(p.y), q.y);
      SameU(U(p.y), p.y, q.y);
      Residues(p.y, q.y);
      SameY(p, q);
    }
    if p.x == 0 && q.x == 0 {
      CongMod(U(p.y), 0);
      CongMod(U(q.y), 0);
    }
  }

  lemma EqualMultiples(m: int, n: int, b: Point)
    requires OnCurve(b)
    ensures Mul(m, b) == Mul(n, b) <==> Mul(m - n, b) == ZERO
  {
    var p, q := Mul(m, b), Mul(n, b);
    MulOnCurve(m, b);
    MulOnCurve(n, b);
    MulSubtract(m, n, b);
    AddInverse(q);
    AddThenSubtract(p, q);
    AddZero(q);
  }

  lemma OppositeMultiples(m: int, n: int, b: Point)
    requires OnCurve(b)
    ensures Mul(m, b) == Neg(Mul(n, b)) <==> Mul(m + n, b) == ZERO
  {
    MulNeg(n, b);
    EqualMultiples(m, -n, b);
  }

  /** A multiple with x = 0 is the neutral element, since l is odd. */
  lemma AxisMultiple(m: int, b: Point)
    requires OnCurve(b) && HasOrderL(b) && Mul(m, b).x == 0
    ensures m % L == 0
  {
    var p := Mul(m, b);
    MulOnCurve(m, b);
    AddInverse(p);
    assert Neg(p) == p;
    MulAdd(m, m, b);
    assert Mul(m + m, b) == ZERO;
    OddModulus(m);
  }

  lemma OddModulus(m: int)
    requires (m + m) % L == 0
    ensures m % L == 0
  {
    var q := (m + m) / L;
    assert 2 * m == L * q;
    assert L == 2 * (L / 2) + 1;
    assert q == 2 * (m - (L / 2) * q);
    Bits.DivModUnique(m, L, m - (L / 2) * q, 0);
  }

  /** The exact condition on two scalars. */
  lemma EqualSecrets(m: int, n: int, b: Point)
    requires OnCurve(b) && HasOrderL(b)
    ensures U(Mul(m, b).y) == U(Mul(n, b).y) <==> (m - n) % L == 0 || (m + n) % L == 0
  {
    hide U, Mul, Neg;
    MulOnCurve(m, b);
    MulOnCurve(n, b);
    EqualU(Mul(m, b), Mul(n, b));
    EqualMultiples(m, n, b);
    OppositeMultiples(m, n, b);
    if Mul(m, b).x == 0 && Mul(n, b).x == 0 {
      AxisMultiple(m, b);
      AxisMultiple(n, b);
      MultiplesApart(m, n);
    }
    assert Mul(m - n, b) == ZERO <==> (m - n) % L == 0;
    assert Mul(m + n, b) == ZERO <==> (m + n) % L == 0;
  }

  lemma MultiplesApart(m: int, n: int)
    requires m % L == 0 && n % L == 0
    ensures (m - n) % L == 0
  {
  }

  /** The scalars of the two secrets: each end multiplies the other's public point. */
  predicate Agree(first: seq<Byte>, second: seq<Byte>)
    requires |first| == |second| == 32
  {
    var m, n := Exponent(first) * Ed25519.Secret(second), Exponent(second) * Ed25519.Secret(first);
    (m - n) % L == 0 || (m + n) % L == 0
  }

  lemma PublicY(s: seq<Byte>, p: Point)
    requires |s| == 32 && OnCurve(p) && LE(s) == Encoding(p)
    ensures DecodedY(s) == p.y
  {
    Ed25519.Ranges(p);
    Ed25519.EncodingParts(LE(s), p.x, p.y);
  }

  lemma BaseHasOrder()
    ensures HasOrderL(B)
  {
    hide Mul;
    forall k: int
      ensures Mul(k, B) == ZERO <==> k % L == 0
    {
      BaseOrder.OrderExactly(k);
    }
  }

  /** Two key pairs, and the secret that each end computes: they are the same exactly when the scalars
      agree, which clamping the raw private keys does not bring about. */
  method TwoSecrets(first: seq<Byte>, second: seq<Byte>, rows: seq<seq<GePrecomp>>, bi: seq<GePrecomp>)
    returns (x: seq<Byte>, y: seq<Byte>)
    requires Ed25519.Tables(rows, bi, B) && |first| == |second| == 32
    ensures |x| == |y| == 32 && (x == y <==> Agree(first, second))
  {
    hide IsPrecomp, Encoding, U, Mul, Exponent, Ed25519.Secret, SharedSecret, HasOrderL;
    var firstPublic, secondPublic := new Byte[32], new Byte[32];
    Ed25519.DerivePublicKey(firstPublic, first, rows, bi, B);
    Ed25519.DerivePublicKey(secondPublic, second, rows, bi, B);
    ghost var p, q := Mul(Ed25519.Secret(first), B), Mul(Ed25519.Secret(second), B);
    MulOnCurve(Ed25519.Secret(first), B);
    MulOnCurve(Ed25519.Secret(second), B);
    PublicY(firstPublic[..], p);
    PublicY(secondPublic[..], q);
    var s, t := new Byte[32], new Byte[32];
    KeyExchange.KeyExchange(s, secondPublic[..], first);
    KeyExchange.KeyExchange(t, firstPublic[..], second);
    SharedSecretIs(secondPublic[..], first, q);
    SharedSecretIs(firstPublic[..], second, p);
    x, y := s[..32], t[..32];
    MulMul(Exponent(first), Ed25519.Secret(second), B);
    MulMul(Exponent(second), Ed25519.Secret(first), B);
    BaseHasOrder();
    EqualSecrets(Exponent(first) * Ed25519.Secret(second), Exponent(second) * Ed25519.Secret(first), B);
    Ed25519.SameBytes(x, y);
  }
}
