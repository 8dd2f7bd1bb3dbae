/** Key pairs, signatures and their verification (keypair/keypair.c, sign.c and verify.c). */
module Ed25519 {
  import opened Bits
  import opened Bytes
  import opened PrimeField
  import opened CurveGroup
  import opened FieldBytes
  import opened Ge
  import opened GeEncoding
  import opened GeDecoding
  import opened DoubleScalarMult
  import opened BaseScalarMult
  import opened ScalarLimbs
  import opened Scalar
  import opened Sha512
  import Recoding
  import BasePoint
  import BaseOrder

  /** The tables of precomp_data.h, for the base point B. */
  ghost predicate Tables(rows: seq<seq<GePrecomp>>, bi: seq<GePrecomp>, b: Point)
    reads set i, j | 0 <= i < |rows| && 0 <= j < |rows[i]| :: rows[i][j]
    reads bi
  {
    BaseTable(rows, b) && OddPrecomp(bi, b) && OnCurve(b)
  }

  const MAX_MESSAGE: nat := 0x1fff_ffff_ffff_ffbf

  // -------------------------------------------------------------------------------------------
  // Keys
  // -------------------------------------------------------------------------------------------

  /** Bytes with the first 32 turned into a scalar: the low three bits and the top bit cleared, the
      second highest bit set. */
  function Clamped(d: seq<Byte>): (c: seq<Byte>)
    requires |d| >= 32
    ensures |c| == |d| && 64 <= c[31] <= 127
  {
    d[0 := d[0] / 8 * 8][31 := d[31] % 64 + 64]
  }

  const TWO_254: int := 0x4000_0000_0000_0000_0000_0000_0000_0000_0000_0000_0000_0000_0000_0000_0000_0000

  /** Section 5.1.5 of RFC 8032: the first half becomes a multiple of 8 from 2^254 to 2^255, with the bits in
      between from the input; the rest stays. */
  lemma ClampedIs(d: seq<Byte>)
    requires |d| >= 32
    ensures LE(Clamped(d)[..32]) == TWO_254 + 8 * (LE(d[..32]) % TWO_254 / 8)
    ensures Clamped(d)[32..] == d[32..]
  {
    var s, c := d[..32], Clamped(d)[..32];
    ByteEnds(s);
    ByteEnds(c);
    assert c[1..31] == s[1..31];
    ClampedNumber(s[0], LE(s[1..31]), s[31]);
  }

  /** The first and the last of 32 bytes. */
  lemma ByteEnds(s: seq<Byte>)
    requires |s| == 32
    ensures LE(s) == s[0] + 0x100 * LE(s[1..31]) + TopPlace(s[31]) && 0x100 * LE(s[1..31]) < TopPlace(1)
  {
    TopByte(s);
    LowBound(s[..31]);
    assert s[..31] == [s[0]] + s[1..31];
    LEShift([s[0]], s[1..31], 0);
    assert LE(s[..31]) == s[0] + 256 * LEFrom(s[..31], 1);
  }

  lemma ClampedNumber(a: int, m: int, t: int)
    requires 0 <= a < 256 && 0 <= m && 0x100 * m < TopPlace(1) && 0 <= t < 256
    ensures a / 8 * 8 + 0x100 * m + TopPlace(t % 64 + 64)
            == TWO_254 + 8 * ((a + 0x100 * m + TopPlace(t)) % TWO_254 / 8)
  {
    var n := a + 0x100 * m + TopPlace(t % 64);
    DivModUnique(a + 0x100 * m + TopPlace(t), TWO_254, t / 64, n);
    DivModUnique(n, 8, a / 8 + 32 * m + TopPlace(t % 64) / 8, a % 8);
  }

  /** The digest of a seed, clamped. */
  function Expanded(seed: seq<Byte>): (d: seq<Byte>)
    requires |seed| == 32
    ensures |d| == 64 && 64 <= d[31] <= 127
  {
    Clamped(Digest(seed))
  }

  lemma And248(x: Byte)
    ensures And(x, 248) == x / 8 * 8
  {
    hide And;
    AndEven(x, 124);
    AndEven(x / 2, 62);
    AndEven(x / 4, 31);
    Thirds(x);
    And31(x / 8);
  }

  lemma And31(x: nat)
    ensures And(x, 31) == x % 32
  {
    assert Pow2(5) == 32;
    AndMod(x, 5);
  }

  lemma Thirds(x: nat)
    ensures x / 2 / 2 == x / 4 && x / 4 / 2 == x / 8
  {
  }

  lemma And63(x: Byte)
    ensures And(x, 63) == x % 64
  {
    assert Pow2(6) == 64;
    AndMod(x, 6);
  }

  lemma Or64(x: nat)
    requires x < 64
    ensures Or(x, 64) == x + 64
  {
    assert Pow2(6) == 64;
    OrDisjoint(x, 64, 6);
  }

  /** x[0] &= 248; x[31] &= 63; x[31] |= 64 */
  method Clamp(x: array<Byte>)
    requires x.Length >= 32
    modifies x
    ensures x[..] == Clamped(old(x[..]))
  {
    And248(x[0]);
    And63(x[31]);
    Or64(x[31] % 64);
    x[0] := And(x[0], 248);
    x[31] := And(x[31], 63);
    x[31] := Or(x[31], 64);
  }

  method ExpandSeed(expanded: array<Byte>, seed: seq<Byte>)
    requires expanded.Length == 64 && |seed| == 32
    modifies expanded
    ensures expanded[..] == Expanded(seed)
  {
    hide Digest;
    Hash(seed, expanded);
    assert expanded[..] == expanded[..64];
    Clamp(expanded);
  }

  /** The secret scalar of a seed. */
  function Secret(seed: seq<Byte>): nat
    requires |seed| == 32
  {
    LE(Expanded(seed)[..32])
  }

  lemma SecretIs(seed: seq<Byte>)
    requires |seed| == 32
    ensures Secret(seed) == TWO_254 + 8 * (LE(Digest(seed)[..32]) % TWO_254 / 8)
    ensures Expanded(seed)[32..] == Digest(seed)[32..]
  {
    hide Digest, Clamped;
    ClampedIs(Digest(seed));
  }

  /** The private key may be null. */
  method CreateKeypair(publicKey: array<Byte>, privateKey: array?<Byte>, seed: seq<Byte>,
                       rows: seq<seq<GePrecomp>>, bi: seq<GePrecomp>, ghost b: Point)
    requires Tables(rows, bi, b) && publicKey.Length == |seed| == 32
    requires privateKey != null ==> privateKey.Length == 32 && publicKey != privateKey
    modifies publicKey, privateKey
    ensures LE(publicKey[..]) == Encoding(Mul(Secret(seed), b))
    ensures privateKey != null ==> privateKey[..] == seed
  {
    hide Secret, Mul, IsP3, IsPrecomp, Encoding;
    DerivePublicKey(publicKey, seed, rows, bi, b);
    if privateKey != null {
      Store(privateKey, 0, seed);
    }
  }

  /** ed25519_derive_public_key */
  method DerivePublicKey(publicKey: array<Byte>, privateKey: seq<Byte>, rows: seq<seq<GePrecomp>>, bi: seq<GePrecomp>,
                         ghost b: Point)
    requires Tables(rows, bi, b) && publicKey.Length == |privateKey| == 32
    modifies publicKey
    ensures LE(publicKey[..]) == Encoding(Mul(Secret(privateKey), b))
  {
    hide Expanded, Mul, IsP3, IsPrecomp;
    var expanded := new Byte[64];
    ExpandSeed(expanded, privateKey);
    var a := new GeP3();
    GeScalarMultBase(a, expanded[..32], rows, b);
    GeP3ToBytes(publicKey, a, Mul(Secret(privateKey), b));
    assert publicKey[..] == publicKey[..32];
  }

  // -------------------------------------------------------------------------------------------
  // Signing
  // -------------------------------------------------------------------------------------------

  /** The hash of some parts, reduced to a scalar. */
  method HashToScalar(out: array<Byte>, parts: seq<seq<Byte>>)
    requires out.Length == 64 && |Concat(parts)| < 0x2000_0000_0000_0000
    modifies out
    ensures LE(out[..32]) == LE(Digest(Concat(parts))) % L
  {
    hide Digest, Concat;
    HashParts(parts, out);
    assert out[..] == out[..64];
    ScReduce(out);
  }

  lemma ConcatFew(a: seq<Byte>, b: seq<Byte>, c: seq<Byte>)
    ensures Concat([a, b]) == a + b && Concat([a, b, c]) == a + b + c
  {
    assert [a, b, c][1..] == [b, c] && [b, c][1..] == [c] && [c][1..] == [] && [a, b][1..] == [b] && [b][1..] == [];
    assert Concat([c]) == c && Concat([b]) == b;
    assert Concat([b, c]) == b + c;
  }

  /** The scalar that signer and verifier hash from R, the public key and the message. */
  function Challenge(r: seq<Byte>, publicKey: seq<Byte>, message: seq<Byte>): nat
    requires |r| == |publicKey| == 32 && |message| <= MAX_MESSAGE
  {
    LE(Digest(r + publicKey + message)) % L
  }

  /** The secret nonce. */
  function Nonce(seed: seq<Byte>, message: seq<Byte>): nat
    requires |seed| == 32 && |message| <= MAX_MESSAGE
  {
    LE(Digest(Expanded(seed)[32..] + message)) % L
  }

  /** Section 5.1.6 of RFC 8032: R = r B and S = r + k s mod l. */
  ghost predicate IsSignature(signature: seq<Byte>, message: seq<Byte>, publicKey: seq<Byte>, seed: seq<Byte>, b: Point)
    requires |signature| == 64 && |publicKey| == |seed| == 32 && |message| <= MAX_MESSAGE
  {
    && LE(signature[..32]) == Encoding(Mul(Nonce(seed, message), b))
    && LE(signature[32..]) == (Challenge(signature[..32], publicKey, message) * Secret(seed) + Nonce(seed, message)) % L
  }

  lemma ReducedSum(a: nat, s: nat, r: nat)
    ensures ((a % L) * s + r % L) % L == (a * s + r) % L
  {
    var q, t := a / L, r / L;
    var n := (a % L) * s + r % L;
    assert a * s + r == n + L * (q * s + t) by {
      assert (L * q + a % L) * s == L * (q * s) + (a % L) * s;
      assert L * (q * s + t) == L * (q * s) + L * t;
    }
    DivModUnique(a * s + r, L, n / L + q * s + t, n % L);
  }

  /** The same, with everything that is hashed written out. */
  lemma SignatureIs(signature: seq<Byte>, message: seq<Byte>, publicKey: seq<Byte>, seed: seq<Byte>, b: Point)
    requires |signature| == 64 && |publicKey| == |seed| == 32 && |message| <= MAX_MESSAGE
    ensures IsSignature(signature, message, publicKey, seed, b) <==>
              var h, hram := Digest(seed), LE(Digest(signature[..32] + publicKey + message));
              var s, r := TWO_254 + 8 * (LE(h[..32]) % TWO_254 / 8), LE(Digest(h[32..] + message));
              LE(signature[..32]) == Encoding(Mul(r % L, b)) && LE(signature[32..]) == (hram * s + r) % L
  {
    hide Digest, Expanded, Secret, Encoding, Mul;
    SecretIs(seed);
    ReducedSum(LE(Digest(signature[..32] + publicKey + message)), Secret(seed),
               LE(Digest(Digest(seed)[32..] + message)));
  }

  /** A scalar below l has its top three bits clear. */
  lemma ScalarTop(s: seq<Byte>)
    requires |s| == 32 && LE(s) < L
    ensures s[31] < 32
  {
    TopByte(s);
  }

  method Sign(signature: array<Byte>, message: seq<Byte>, publicKey: seq<Byte>, privateKey: seq<Byte>,
              rows: seq<seq<GePrecomp>>, bi: seq<GePrecomp>, ghost b: Point)
    requires Tables(rows, bi, b) && signature.Length == 64
    requires |publicKey| == |privateKey| == 32 && |message| <= MAX_MESSAGE
    modifies signature
    ensures IsSignature(signature[..], message, publicKey, privateKey, b)
  {
    hide Digest, Expanded, Mul, IsP3, IsPrecomp, Encoding;
    var expanded := new Byte[64];
    ExpandSeed(expanded, privateKey);
    var r := new Byte[64];
    ConcatFew(expanded[32..], message, []);
    HashToScalar(r, [expanded[32..], message]);
    ScalarTop(r[..32]);
    var bigR := new GeP3();
    GeScalarMultBase(bigR, r[..32], rows, b);
    GeP3ToBytes(signature, bigR, Mul(LE(r[..32]), b));
    ghost var first := signature[..32];
    var hram := new Byte[64];
    ConcatFew(signature[..32], publicKey, message);
    HashToScalar(hram, [signature[..32], publicKey, message]);
    ScMulAdd(signature, 32, hram[..32], expanded[..32], r[..32]);
    assert signature[..32] == first && signature[32..64] == signature[32..];
  }

  // -------------------------------------------------------------------------------------------
  // Verification
  // -------------------------------------------------------------------------------------------

  /** What section 5.1.7 of RFC 8032 asks for, for the negated point that the public key decodes to. */
  ghost predicate Accepts(signature: seq<Byte>, message: seq<Byte>, publicKey: seq<Byte>, b: Point, p: Point)
    requires |signature| == 64 && |publicKey| == 32 && |message| <= MAX_MESSAGE
  {
    && signature[63] < 32
    && Encoding(Combination(Challenge(signature[..32], publicKey, message), p, LE(signature[32..]), b))
        == LE(signature[..32])
  }

  lemma AcceptsIs(signature: seq<Byte>, message: seq<Byte>, publicKey: seq<Byte>, b: Point, p: Point)
    requires |signature| == 64 && |publicKey| == 32 && |message| <= MAX_MESSAGE
    ensures Accepts(signature, message, publicKey, b, p) <==>
              var hram := LE(Digest(signature[..32] + publicKey + message)) % L;
              && signature[63] < 32
              && LE(signature[..32]) == Encoding(CurveGroup.Add(Mul(hram, p), Mul(LE(signature[32..]), b)))
  {
    hide Digest, Encoding, Mul;
  }

  /** p is the point that the bytes decode to, negated. */
  ghost predicate Decodes(s: seq<Byte>, p: Point)
    requires |s| == 32
  {
    OnCurve(p) && p.y == DecodedY(s) && (p.x != 0 ==> p.x % 2 != LE(s) / FieldBytes.TWO_255)
  }

  lemma OneParity(x: int, r: int, sign: nat)
    requires 0 <= x < P && 0 <= r < P && (x == r || x == -r % P) && sign <= 1
    requires (x != 0 ==> x % 2 != sign) && (r != 0 ==> r % 2 != sign)
    ensures x == r
  {
  }

  lemma DecodesOnce(s: seq<Byte>, p: Point, q: Point)
    requires |s| == 32 && Decodes(s, p) && Decodes(s, q)
    ensures p == q
  {
    hide OnCurve;
    SameY(p, q);
    TopBit(s);
    Ranges(p);
    Ranges(q);
    OneParity(p.x, q.x, LE(s) / FieldBytes.TWO_255);
  }

  /** Masks whose low bits are clear. */
  lemma And224(x: Byte)
    ensures And(x, 224) == 0 <==> x < 32
  {
    hide And;
    AndEven(x, 112);
    AndEven(x / 2, 56);
    AndEven(x / 4, 28);
    AndEven(x / 8, 14);
    AndEven(x / 16, 7);
    Halves(x);
    And7(x / 32);
  }

  lemma And7(x: nat)
    ensures And(x, 7) == x % 8
  {
    assert Pow2(3) == 8;
    AndMod(x, 3);
  }

  lemma Halves(x: nat)
    ensures x / 2 / 2 == x / 4 && x / 4 / 2 == x / 8 && x / 8 / 2 == x / 16 && x / 16 / 2 == x / 32
  {
  }

  /** 1 when the two 32-byte strings are equal: differences are or-ed together. */
  method ConsttimeEqual(x: seq<Byte>, y: seq<Byte>) returns (equal: int)
    requires |x| == |y| == 32
    ensures equal == if x == y then 1 else 0
  {
    var r := Xor(x[0], y[0]);
    XorEqual(x[0], y[0]);
    for i := 1 to 32
      invariant r == 0 <==> x[..i] == y[..i]
    {
      XorEqual(x[i], y[i]);
      OrZero(r, Xor(x[i], y[i]));
      assert x[..i + 1] == x[..i] + [x[i]] && y[..i + 1] == y[..i] + [y[i]];
      r := Or(r, Xor(x[i], y[i]));
    }
    assert x[..32] == x && y[..32] == y;
    equal := if r == 0 then 1 else 0;
  }

  lemma TopBits(s: seq<Byte>)
    requires |s| == 32 && s[31] < 32
    ensures LE(s) < Recoding.TWO_255
  {
    TopByte(s);
    LowBound(s[..31]);
  }

  lemma {:induction false} LEInjective(s: seq<Byte>, t: seq<Byte>, i: nat)
    requires |s| == |t| && i <= |s| && LEFrom(s, i) == LEFrom(t, i)
    ensures s[i..] == t[i..]
    decreases |s| - i
  {
    if i < |s| {
      var x: int, y: int := s[i], t[i];
      assert x == LEFrom(s, i) % 256 && y == LEFrom(t, i) % 256;
      LEInjective(s, t, i + 1);
      assert s[i..] == [s[i]] + s[i + 1..] && t[i..] == [t[i]] + t[i + 1..];
    }
  }

  lemma SameBytes(s: seq<Byte>, t: seq<Byte>)
    requires |s| == |t|
    ensures s == t <==> LE(s) == LE(t)
  {
    if LE(s) == LE(t) {
      LEInjective(s, t, 0);
      assert s[0..] == s && t[0..] == t;
    }
  }

  lemma ScalarFits(n: nat)
    requires n < L
    ensures n < Recoding.TWO_255
  {
  }

  /** The bytes of h (-A) + S B, for a challenge and the second half of a signature. */
  method Check(a: GeP3, hash: seq<Byte>, s: seq<Byte>, bi: seq<GePrecomp>, ghost p: Point, ghost b: Point)
    returns (checker: seq<Byte>)
    requires IsP3(a, p) && OnCurve(p) && OnCurve(b) && OddPrecomp(bi, b)
    requires |hash| == |s| == 32 && LE(hash) < L && s[31] < 32
    ensures |checker| == 32 && LE(checker) == Encoding(Combination(LE(hash), p, LE(s), b))
  {
    hide IsP3, IsPrecomp, Add, Mul, Combination;
    ScalarFits(LE(hash));
    TopBits(s);
    var r := new GeP2();
    GeDoubleScalarMultVartime(r, hash, a, s, bi, p, b);
    var bytes := new Byte[32];
    GeToBytes(bytes, r, Combination(LE(hash), p, LE(s), b));
    checker := bytes[..32];
  }

  /** 1 exactly when the public key decodes to a point that accepts the signature. */
  method Verify(signature: seq<Byte>, message: seq<Byte>, publicKey: seq<Byte>, bi: seq<GePrecomp>, ghost b: Point)
    returns (result: int)
    requires OnCurve(b) && OddPrecomp(bi, b)
    requires |signature| == 64 && |publicKey| == 32 && |message| <= MAX_MESSAGE
    ensures result == 0 || result == 1
    ensures result == 1 <==> exists p :: Decodes(publicKey, p) && Accepts(signature, message, publicKey, b, p)
  {
    hide Digest, Combination, Encoding, IsP3, IsPrecomp, OnCurve;
    And224(signature[63]);
    if And(signature[63], 224) != 0 {
      return 0;
    }
    var a := new GeP3();
    var ret;
    ghost var p;
    ret, p := GeFromBytesNegateVartime(a, publicKey);
    if ret != 0 {
      return 0;
    }
    var h := new Byte[64];
    ConcatFew(signature[..32], publicKey, message);
    HashToScalar(h, [signature[..32], publicKey, message]);
    DecodedIs(publicKey, p, a);
    assert signature[32..][31] == signature[63];
    var checker := Check(a, h[..32], signature[32..], bi, p, b);
    var equal := ConsttimeEqual(checker, signature[..32]);
    SameBytes(checker, signature[..32]);
    forall q | Decodes(publicKey, q)
      ensures q == p
    {
      DecodesOnce(publicKey, p, q);
    }
    result := if equal == 0 then 0 else 1;
  }

  lemma DecodedIs(s: seq<Byte>, p: Point, a: GeP3)
    requires |s| == 32 && IsP3(a, p) && p.y == DecodedY(s) && (p.x != 0 ==> p.x % 2 != LE(s) / FieldBytes.TWO_255)
    ensures Decodes(s, p) && OnCurve(p)
  {
  }

  // -------------------------------------------------------------------------------------------
  // Every signature is accepted
  // -------------------------------------------------------------------------------------------

  lemma OppositeParity(x: int)
    requires 0 <= x < P
    ensures x != 0 ==> -x % P == P - x && (P - x) % 2 != x % 2
    ensures x == 0 ==> -x % P == 0
  {
  }

  lemma EncodingParts(n: nat, x: int, y: int)
    requires 0 <= y < P && n == y + FieldBytes.TWO_255 * (x % 2)
    ensures n / FieldBytes.TWO_255 == x % 2 && (n % FieldBytes.TWO_255) % P == y
  {
    DivModUnique(n, FieldBytes.TWO_255, x % 2, y);
  }

  lemma Ranges(p: Point)
    requires OnCurve(p)
    ensures 0 <= p.x < P && 0 <= p.y < P
  {
    OnCurveIs(p);
  }

  lemma EncodingDecodes(s: seq<Byte>, a: Point)
    requires |s| == 32 && OnCurve(a) && LE(s) == Encoding(a)
    ensures Decodes(s, Neg(a))
  {
    hide OnCurve;
    NegOnCurve(a);
    Ranges(a);
    EncodingParts(LE(s), a.x, a.y);
    OppositeParity(a.x);
  }

  /** Of the bytes that decode to a point, only those with a reduced y, and with a clear top bit when x = 0,
      are its encoding. */
  lemma CanonicalDecoding(s: seq<Byte>, p: Point)
    requires |s| == 32 && Decodes(s, p)
    ensures LE(s) == Encoding(Neg(p))
            <==> LE(s) % FieldBytes.TWO_255 < P && (p.x == 0 ==> LE(s) < FieldBytes.TWO_255)
  {
    hide OnCurve;
    TopBit(s);
    Ranges(p);
    OppositeParity(p.x);
    NegOnCurve(p);
    Ranges(Neg(p));
  }

  /** Two strings that are no encoding of any point: y = p + 1, and y = 1 with the sign bit. */
  predicate Unencoded(s: seq<Byte>)
    requires |s| == 32
  {
    LE(s) == P + 1 || LE(s) == FieldBytes.TWO_255 + 1
  }

  lemma NoEncoding(s: seq<Byte>, q: Point)
    requires |s| == 32 && Unencoded(s) && OnCurve(q)
    ensures LE(s) != Encoding(q) && DecodedY(s) == 1
  {
    Ranges(q);
    if LE(s) == Encoding(q) {
      EncodingParts(LE(s), q.x, q.y);
      ZeroOnCurve();
      SameY(q, ZERO);
    }
  }

  /** ge_frombytes_negate_vartime accepts them. */
  method DecodeUnencoded(h: GeP3, s: seq<Byte>) returns (ret: int)
    requires |s| == 32 && Unencoded(s)
    modifies h
    ensures ret == 0 && forall q :: OnCurve(q) ==> LE(s) != Encoding(q)
  {
    hide OnCurve;
    ghost var p;
    ret, p := GeFromBytesNegateVartime(h, s);
    forall q | OnCurve(q)
      ensures LE(s) != Encoding(q)
    {
      NoEncoding(s, q);
    }
    ZeroOnCurve();
    NoEncoding(s, ZERO);
  }

  /** Multiples of B depend on the scalar mod l only. */
  lemma MulMod(n: int, b: Point)
    requires OnCurve(b) && CurveGroup.Mul(L, b) == ZERO
    ensures CurveGroup.Mul(n % L, b) == CurveGroup.Mul(n, b)
  {
    var q := n / L;
    MulMul(q, 0, b);
    MulMul(q, L, b);
    assert n == q * L + n % L;
    MulAdd(q * L, n % L, b);
    MulOnCurve(n % L, b);
    AddZero(CurveGroup.Mul(n % L, b));
  }

  lemma NegatedMultiple(k: int, s: int, b: Point)
    requires OnCurve(b)
    ensures CurveGroup.Mul(k, Neg(CurveGroup.Mul(s, b))) == CurveGroup.Mul(-(k * s), b)
  {
    hide CurveGroup.Mul, OnCurve;
    MulOnCurve(s, b);
    MulNeg(k, CurveGroup.Mul(s, b));
    MulMul(-k, s, b);
    assert -k * s == -(k * s);
  }

  lemma Cancels(n: int, r: int, b: Point)
    requires OnCurve(b) && CurveGroup.Mul(L, b) == ZERO
    ensures CurveGroup.Add(CurveGroup.Mul(-n, b), CurveGroup.Mul((n + r) % L, b)) == CurveGroup.Mul(r, b)
  {
    hide CurveGroup.Mul, CurveGroup.Add, OnCurve;
    MulMod(n + r, b);
    MulAdd(-n, n + r, b);
  }

  /** What Sign writes is what Verify accepts, for a key pair of CreateKeypair. */
  lemma SignedAccepts(signature: seq<Byte>, message: seq<Byte>, publicKey: seq<Byte>, seed: seq<Byte>, b: Point)
    requires OnCurve(b) && CurveGroup.Mul(L, b) == ZERO
    requires |signature| == 64 && |publicKey| == |seed| == 32 && |message| <= MAX_MESSAGE
    requires LE(publicKey) == Encoding(CurveGroup.Mul(Secret(seed), b))
    requires IsSignature(signature, message, publicKey, seed, b)
    ensures var p := Neg(CurveGroup.Mul(Secret(seed), b));
            Decodes(publicKey, p) && Accepts(signature, message, publicKey, b, p)
  {
    hide Digest, Expanded, CurveGroup.Add, CurveGroup.Mul, OnCurve, Encoding, Decodes;
    MulOnCurve(Secret(seed), b);
    EncodingDecodes(publicKey, CurveGroup.Mul(Secret(seed), b));
    var k := Challenge(signature[..32], publicKey, message);
    NegatedMultiple(k, Secret(seed), b);
    Cancels(k * Secret(seed), Nonce(seed, message), b);
    ScalarTop(signature[32..]);
    assert signature[32..][31] == signature[63];
  }

  /** A key has one signature of a message. */
  lemma SignatureUnique(s: seq<Byte>, t: seq<Byte>, message: seq<Byte>, publicKey: seq<Byte>, seed: seq<Byte>, b: Point)
    requires |s| == |t| == 64 && |publicKey| == |seed| == 32 && |message| <= MAX_MESSAGE
    requires IsSignature(s, message, publicKey, seed, b) && IsSignature(t, message, publicKey, seed, b)
    ensures s == t
  {
    hide Digest, Expanded, Encoding, CurveGroup.Mul;
    SameBytes(s[..32], t[..32]);
    SameBytes(s[32..], t[32..]);
    assert s == s[..32] + s[32..] && t == t[..32] + t[32..];
  }

  /** A key pair from any seed, a signature of any message with it, and its verification. */
  method SignThenVerify(seed: seq<Byte>, message: seq<Byte>, rows: seq<seq<GePrecomp>>, bi: seq<GePrecomp>)
    returns (result: int)
    requires Tables(rows, bi, BasePoint.B) && |seed| == 32 && |message| <= MAX_MESSAGE
    ensures result == 1
  {
    hide IsSignature, Accepts, Decodes, Secret, IsPrecomp, CurveGroup.Mul;
    var publicKey := new Byte[32];
    var privateKey := new Byte[32];
    CreateKeypair(publicKey, privateKey, seed, rows, bi, BasePoint.B);
    var signature := new Byte[64];
    Sign(signature, message, publicKey[..], privateKey[..], rows, bi, BasePoint.B);
    BaseOrder.OrderOfBase();
    SignedAccepts(signature[..], message, publicKey[..], seed, BasePoint.B);
    result := Verify(signature[..], message, publicKey[..], bi, BasePoint.B);
  }
}
