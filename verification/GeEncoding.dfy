/** Points as 32 bytes (keypair/ge.c): y in the low 255 bits, the parity of x in the top bit. */
module GeEncoding {
  import opened Bits
  import opened Bytes
  import opened Power
  import opened PrimeField
  import opened PrimeModulus
  import opened FieldElement
  import opened FieldOps
  import opened FieldBytes
  import opened FieldPower
  import opened CurveGroup
  import opened PointForms
  import opened Ge

  /** The little-endian value of the encoding of p. */
  function Encoding(p: Point): int {
    p.y + TWO_255 * (p.x % 2)
  }

  // -------------------------------------------------------------------------------------------
  // Encoding
  // -------------------------------------------------------------------------------------------

  /** X/Z, by the inverse of Z. */
  lemma Divided(x: int, a: int, z: int, r: int, q: int)
    requires !Cong(z, 0) && Cong(x, a * z) && Cong(r, Pow(z, P - 2)) && Cong(q, x * r)
    ensures Cong(q, a)
  {
    Inverse(z);
    CongScale(z, r, Pow(z, P - 2));
    CongTrans(z * r, z * Pow(z, P - 2), 1);
    CongScale(r, x, a * z);
    CongScale(a, z * r, 1);
    assert r * (a * z) == a * (z * r);
    CongTrans(q, r * x, r * (a * z));
    CongTrans(q, a * (z * r), a);
  }

  lemma ResidueOf(v: int, a: int)
    requires Cong(v, a) && 0 <= a < P
    ensures v % P == a
  {
    CongMod(v, a);
  }

  /** x ^ 2^n for x below 2^n. */
  lemma {:induction false} XorAbove(x: nat, n: nat)
    requires x < Pow2(n)
    ensures Xor(x, Pow2(n)) == x + Pow2(n)
  {
    if n > 0 {
      XorAbove(x / 2, n - 1);
    } else {
      assert Xor(0, 1) == 1 + 2 * Xor(0, 0);
    }
  }

  lemma SignXor(x: nat, sign: nat)
    requires x < 128 && sign <= 1
    ensures Xor(x, sign * 128) == x + sign * 128
  {
    if sign == 0 {
      XorZero(x);
    } else {
      assert Pow2(7) == 128;
      XorAbove(x, 7);
    }
  }

  /** The last of 32 bytes, in its place. */
  function TopPlace(b: Byte): nat {
    var x: int := b;
    0x100_0000_0000_0000_0000_0000_0000_0000_0000_0000_0000_0000_0000_0000_0000_0000 * x
  }

  lemma Scaled31(x: int)
    ensures Scaled(31, x) == 0x100_0000_0000_0000_0000_0000_0000_0000_0000_0000_0000_0000_0000_0000_0000_0000 * x
  {
    assert Scaled(8, x) == 0x1_0000_0000_0000_0000 * x;
    assert Scaled(16, x) == 0x1_0000_0000_0000_0000 * Scaled(8, x);
    assert Scaled(24, x) == 0x1_0000_0000_0000_0000 * Scaled(16, x);
    assert Scaled(31, x) == 0x100_0000_0000_0000 * Scaled(24, x);
  }

  lemma TopByte(s: seq<Byte>)
    requires |s| == 32
    ensures LE(s) == LE(s[..31]) + TopPlace(s[31])
  {
    LEConcat(s[..31], s[31..], 0);
    assert s == s[..31] + s[31..];
    assert LEFrom(s[31..], 0) == s[31] + 256 * LEFrom(s[31..], 1);
    Scaled31(s[31]);
  }

  lemma LowBound(s: seq<Byte>)
    requires |s| == 31
    ensures LE(s) < 0x100_0000_0000_0000_0000_0000_0000_0000_0000_0000_0000_0000_0000_0000_0000_0000
  {
    LEBound(s, 0);
    Scaled31(1);
  }

  lemma {:induction false} LEBound(s: seq<Byte>, i: nat)
    requires i <= |s|
    ensures LEFrom(s, i) < Scaled(|s| - i, 1)
    decreases |s| - i
  {
    if i < |s| {
      LEBound(s, i + 1);
    }
  }

  /** s[31] ^= sign << 7, for a number below 2^255. */
  method SetSign(s: array<Byte>, sign: nat)
    requires s.Length >= 32 && sign <= 1 && LE(s[..32]) < TWO_255
    modifies s
    ensures LE(s[..32]) == old(LE(s[..32])) + TWO_255 * sign && s[32..] == old(s[32..])
  {
    ghost var was := s[..32];
    TopByte(was);
    SignXor(s[31], sign);
    s[31] := Xor(s[31], sign * 128);
    TopByte(s[..32]);
    assert s[..32][..31] == was[..31];
  }

  // The two encoders of ge.c differ in the type of the point only.

  method EncodeAffine(s: array<Byte>, x: Limbs, y: Limbs, z: Limbs, ghost a: Point)
    requires s.Length >= 32 && OnCurve(a) && Projective(Val(x), Val(y), Val(z), a)
    requires Within(x, 110) && Within(y, 110) && Within(z, 110)
    modifies s
    ensures LE(s[..32]) == Encoding(a) && s[32..] == old(s[32..])
  {
    OnCurveIs(a);
    var recip := FeInvert(z, 110);
    var u := FeMul(x, recip, 110, 101);
    var v := FeMul(y, recip, 110, 101);
    Divided(Val(x), a.x, Val(z), Val(recip), Val(u));
    Divided(Val(y), a.y, Val(z), Val(recip), Val(v));
    ResidueOf(Val(u), a.x);
    ResidueOf(Val(v), a.y);
    WithinMonotone(u, 101, 220);
    WithinMonotone(v, 101, 220);
    FeToBytes(s, v);
    var sign := FeIsNegative(u);
    SetSign(s, sign);
  }

  method GeToBytes(s: array<Byte>, h: GeP2, ghost a: Point)
    requires s.Length >= 32 && IsP2(h, a)
    modifies s
    ensures LE(s[..32]) == Encoding(a) && s[32..] == old(s[32..])
  {
    EncodeAffine(s, h.X, h.Y, h.Z, a);
  }

  method GeP3ToBytes(s: array<Byte>, h: GeP3, ghost a: Point)
    requires s.Length >= 32 && IsP3(h, a)
    modifies s
    ensures LE(s[..32]) == Encoding(a) && s[32..] == old(s[32..])
  {
    EncodeAffine(s, h.X, h.Y, h.Z, a);
  }
}
