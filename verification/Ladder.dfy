/** The Montgomery ladder of section 5 of RFC 7748 without swaps, on integers mod p, for any u; and what it
    computes when u belongs to a point of the curve. */
module Ladder {
  import opened Bits
  import opened Bytes
  import opened Power
  import opened PrimeField
  import opened PrimeModulus
  import opened CurveGroup
  import opened GeDecoding
  import opened Recoding
  import opened Montgomery
  import CurveConstants
  import Ed25519

  // -------------------------------------------------------------------------------------------
  // The ladder
  // -------------------------------------------------------------------------------------------

  /** Two fractions x2/z2 and x3/z3. */
  datatype Pairs = Pairs(x2: int, z2: int, x3: int, z3: int)

  function Swapped(s: Pairs): Pairs {
    Pairs(s.x3, s.z3, s.x2, s.z2)
  }

  /** The first fraction doubled, and the sum of both, whose difference is u. */
  function Advanced(u: int, s: Pairs): Pairs {
    var a, b, c, d := s.x2 + s.z2, s.x2 - s.z2, s.x3 + s.z3, s.x3 - s.z3;
    var aa, bb, da, cb := a * a, b * b, d * a, c * b;
    var e := aa - bb;
    Pairs(aa * bb, e * (aa + 121665 * e), (da + cb) * (da + cb), u * ((da - cb) * (da - cb)))
  }

  /** One bit of the scalar: it says which of the two is doubled. */
  function WithBit(u: int, s: Pairs, bit: int): Pairs {
    if bit == 0 then Advanced(u, s) else Swapped(Advanced(u, Swapped(s)))
  }

  /** The ladder after the bits 254 to i. */
  function Run(u: int, bits: seq<int>, i: nat): Pairs
    requires |bits| == 256 && i <= 255
    decreases 255 - i, bits, 1
  {
    if i == 255 then Pairs(1, 0, u, 1) else NextRun(u, bits, i)
  }

  function NextRun(u: int, bits: seq<int>, i: nat): Pairs
    requires |bits| == 256 && i < 255
    decreases 255 - i, bits, 0
  {
    WithBit(u, Run(u, bits, i + 1), bits[i])
  }

  /** The bits of a scalar. */
  function ScalarBits(e: seq<Byte>): (r: seq<int>)
    requires |e| == 32
    ensures |r| == 256 && BitsFrom(r, e)
  {
    seq(256, i requires 0 <= i < 256 => (e[i / 8] / Power2(i % 8)) % 2)
  }

  /** The scalar: the raw private key, clamped. */
  function Exponent(privateKey: seq<Byte>): nat
    requires |privateKey| == 32
  {
    LE(Ed25519.Clamped(privateKey))
  }

  lemma ExponentIs(privateKey: seq<Byte>)
    requires |privateKey| == 32
    ensures Exponent(privateKey) == Ed25519.TWO_254 + 8 * (LE(privateKey) % Ed25519.TWO_254 / 8)
  {
    hide Ed25519.Clamped;
    Ed25519.ClampedIs(privateKey);
    assert privateKey[..32] == privateKey;
    assert Ed25519.Clamped(privateKey)[..32] == Ed25519.Clamped(privateKey);
  }

  /** x2/z2 after all bits of the clamped private key, from the u of the public key; 0 for z2 = 0. */
  ghost function SharedSecret(publicKey: seq<Byte>, privateKey: seq<Byte>): int
    requires |publicKey| == |privateKey| == 32
  {
    var s := Run(U(DecodedY(publicKey)), ScalarBits(Ed25519.Clamped(privateKey)), 0);
    Quotient(s.x2, s.z2)
  }

  // -------------------------------------------------------------------------------------------
  // Steps up to congruence
  // -------------------------------------------------------------------------------------------

  ghost predicate Same(s: Pairs, t: Pairs) {
    Cong(s.x2, t.x2) && Cong(s.z2, t.z2) && Cong(s.x3, t.x3) && Cong(s.z3, t.z3)
  }

  lemma SquareCong(x: int, a: int, y: int)
    requires Cong(x, a * a) && Cong(a, y)
    ensures Cong(x, y * y)
  {
    CongMul(a, y, a, y);
    CongTrans(x, a * a, y * y);
  }

  lemma ProductCong(x: int, a: int, b: int, y: int, z: int)
    requires Cong(x, a * b) && Cong(a, y) && Cong(b, z)
    ensures Cong(x, y * z)
  {
    CongMul(a, y, b, z);
    CongTrans(x, a * b, y * z);
  }

  lemma SumsCong(x: int, y: int, z: int, w: int)
    requires Cong(x, y) && Cong(z, w)
    ensures Cong(x + z, y + w) && Cong(x - z, y - w)
  {
    CongAdd(x, y, z, w);
  }

  /** The doubled half: e (bb + 121666 e) is e (aa + 121665 e). */
  lemma DoubledHalf(aa: int, bb: int, f: int, a: int, b: int, x: int, z: int)
    requires Cong(aa, a) && Cong(bb, b) && Cong(f, 121666 * (aa - bb))
    requires Cong(x, aa * bb) && Cong(z, (aa - bb) * (bb + f))
    ensures Cong(x, a * b) && Cong(z, (a - b) * (a + 121665 * (a - b)))
  {
    ProductCong(x, aa, bb, a, b);
    SumsCong(aa, a, bb, b);
    CongScale(121666, aa - bb, a - b);
    CongTrans(f, 121666 * (aa - bb), 121666 * (a - b));
    SumsCong(bb, b, f, 121666 * (a - b));
    ProductCong(z, aa - bb, bb + f, a - b, b + 121666 * (a - b));
  }

  /** The other half. */
  lemma SummedHalf(da: int, cb: int, u: int, d: int, c: int, v: int, square: int, x: int, z: int)
    requires Cong(da, d) && Cong(cb, c) && Cong(u, v)
    requires Cong(x, (da + cb) * (da + cb)) && Cong(square, (da - cb) * (da - cb)) && Cong(z, u * square)
    ensures Cong(x, (d + c) * (d + c)) && Cong(z, v * ((d - c) * (d - c)))
  {
    SumsCong(da, d, cb, c);
    SquareCong(x, da + cb, d + c);
    SquareCong(square, da - cb, d - c);
    ProductCong(z, u, square, v, (d - c) * (d - c));
  }

  // -------------------------------------------------------------------------------------------
  // The ladder on the curve
  // -------------------------------------------------------------------------------------------

  /** One step on pairs that stand for points. */
  lemma AdvancedStands(u: int, s: Pairs, p: Point, q: Point, yr: int)
    requires OnCurve(p) && OnCurve(q) && Stands(u, s.x2, s.z2, p) && Stands(u, s.x3, s.z3, q)
    requires yr == Add(q, Neg(p)).y && (!Cong(u, 0) ==> Cong(u * (1 - yr), 1 + yr))
    ensures var t := Advanced(u, s); Stands(u, t.x2, t.z2, Add(p, p)) && Stands(u, t.x3, t.z3, Add(p, q))
  {
    hide Stands;
    var a, b, c, d := s.x2 + s.z2, s.x2 - s.z2, s.x3 + s.z3, s.x3 - s.z3;
    var aa, bb, da, cb := a * a, b * b, d * a, c * b;
    var e := aa - bb;
    var t := Advanced(u, s);
    CongSelf(aa);
    CongSelf(bb);
    CongSelf(da);
    CongSelf(cb);
    CongSelf(121666 * e);
    CongSelf(t.x2);
    CongSelf(t.z2);
    CongSelf(t.x3);
    CongSelf(t.z3);
    assert bb + 121666 * e == aa + 121665 * e;
    DoubleStands(u, s.x2, s.z2, p, aa, bb, 121666 * e, t.x2, t.z2);
    AddStands(u, s.x2, s.z2, p, s.x3, s.z3, q, yr, da, cb, t.x3, t.z3);
  }

  /** The difference of neighbouring multiples is the base point, up to its sign. */
  lemma Neighbours(n: nat, base: Point)
    requires OnCurve(base)
    ensures Add(Mul(n + 1, base), Neg(Mul(n, base))).y == base.y
    ensures Add(Mul(n, base), Neg(Mul(n + 1, base))).y == base.y
  {
    MulSubtract(n + 1, n, base);
    MulSubtract(n, n + 1, base);
    MulOne(base);
    MulNeg(1, base);
  }

  lemma DoubledMultiple(n: nat, base: Point)
    requires OnCurve(base)
    ensures Add(Mul(n, base), Mul(n, base)) == Mul(2 * n, base)
    ensures Add(Mul(n, base), Mul(n + 1, base)) == Mul(2 * n + 1, base)
    ensures Add(Mul(n + 1, base), Mul(n, base)) == Mul(2 * n + 1, base)
  {
    MulAdd(n, n, base);
    MulAdd(n, n + 1, base);
    MulAdd(n + 1, n, base);
  }

  /** The pairs stand for n P and (n + 1) P. */
  ghost predicate StandsFor(u: int, s: Pairs, n: nat, base: Point) {
    Stands(u, s.x2, s.z2, Mul(n, base)) && Stands(u, s.x3, s.z3, Mul(n + 1, base))
  }

  lemma BitStands(u: int, s: Pairs, n: nat, bit: int, base: Point)
    requires OnCurve(base) && IsAffine(u, base.y) && StandsFor(u, s, n, base) && 0 <= bit <= 1
    ensures StandsFor(u, WithBit(u, s, bit), 2 * n + bit, base)
  {
    hide Stands, U, Mul, Advanced;
    var p, q := Mul(n, base), Mul(n + 1, base);
    MulOnCurve(n, base);
    MulOnCurve(n + 1, base);
    Neighbours(n, base);
    DoubledMultiple(n, base);
    DoubledMultiple(n + 1, base);
    if bit == 0 {
      AdvancedStands(u, s, p, q, base.y);
    } else {
      AdvancedStands(u, Swapped(s), q, p, base.y);
    }
  }

  lemma {:induction false} RunStands(u: int, bits: seq<int>, i: nat, base: Point)
    requires OnCurve(base) && IsAffine(u, base.y)
    requires |bits| == 256 && i <= 255 && IsBits(bits, 0) && Binary(bits, 255) == 0
    ensures Binary(bits, i) >= 0 && StandsFor(u, Run(u, bits, i), Binary(bits, i), base)
    decreases 255 - i
  {
    hide Stands, U, WithBit;
    if i == 255 {
      StartStands(u, base);
      MulOne(base);
    } else {
      RunStands(u, bits, i + 1, base);
      BitStands(u, Run(u, bits, i + 1), Binary(bits, i + 1), bits[i], base);
      assert Run(u, bits, i) == NextRun(u, bits, i);
    }
  }

  lemma TopBitClear(e: seq<Byte>)
    requires |e| == 32 && e[31] < 128
    ensures Binary(ScalarBits(e), 255) == 0 && IsBits(ScalarBits(e), 0) && Binary(ScalarBits(e), 0) == LE(e)
  {
    var r := ScalarBits(e);
    assert r[255] == (e[31] / Power2(7)) % 2;
    assert Binary(r, 256) == 0;
    BitsValue(r, e, 0);
  }

  /** For the y of a point of the curve, the shared secret is the u-coordinate of e P. */
  lemma SharedSecretIs(publicKey: seq<Byte>, privateKey: seq<Byte>, base: Point)
    requires |publicKey| == |privateKey| == 32 && OnCurve(base) && base.y == DecodedY(publicKey)
    ensures SharedSecret(publicKey, privateKey) == U(Mul(Exponent(privateKey), base).y)
  {
    hide Stands, U, Mul, Run, Binary;
    var u, e := U(base.y), Ed25519.Clamped(privateKey);
    CongSelf(u);
    AffineU(u, base.y);
    TopBitClear(e);
    RunStands(u, ScalarBits(e), 0, base);
    var s := Run(u, ScalarBits(e), 0);
    QuotientIs(s.x2, s.z2);
    CongSelf(Pow(s.z2, P - 2));
    CongSelf(s.x2 * Pow(s.z2, P - 2));
    Finish(u, s.x2, s.z2, base, LE(e), Pow(s.z2, P - 2), s.x2 * Pow(s.z2, P - 2));
  }

  lemma Finish(u: int, x: int, z: int, base: Point, n: nat, i: int, r: int)
    requires OnCurve(base) && Cong(u, U(base.y)) && Stands(u, x, z, Mul(n, base))
    requires Cong(i, Pow(z, P - 2)) && Cong(r, x * i)
    ensures r % P == U(Mul(n, base).y)
  {
    hide Stands, U, Mul;
    InverseOrZero(z, i);
    MulOnCurve(n, base);
    VanishingU(base);
    VanishingU(Mul(n, base));
    if Cong(u, 0) {
      CongSym(u, U(base.y));
      CongTrans(U(base.y), u, 0);
      MultipleOnAxis(n, base);
    }
    StandsQuotient(u, x, z, Mul(n, base), i, r);
    URange(Mul(n, base).y);
    CongMod(r, U(Mul(n, base).y));
  }

  lemma URange(y: int)
    ensures 0 <= U(y) < P
  {
    QuotientRange(1 + y, 1 - y);
  }

  lemma InverseOrZero(z: int, i: int)
    requires Cong(i, Pow(z, P - 2))
    ensures if Cong(z, 0) then Cong(i, 0) else Cong(z * i, 1)
  {
    if Cong(z, 0) {
      CurveConstants.PowOfZero(z, P - 2);
      CongTrans(i, Pow(z, P - 2), 0);
    } else {
      Inverse(z);
      CongScale(z, i, Pow(z, P - 2));
      CongTrans(z * i, z * Pow(z, P - 2), 1);
    }
  }
}
