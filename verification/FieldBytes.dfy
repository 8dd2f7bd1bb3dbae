/** fe_frombytes, fe_tobytes and the two predicates built on it (keypair/fe.c). */
module FieldBytes {
  import opened Machine
  import opened Bits
  import opened Bytes
  import opened PrimeField
  import opened FieldElement
  import opened FieldProduct
  import opened FieldOps

  const TWO_230: int := 0x40_0000_0000_0000_0000_0000_0000_0000_0000_0000_0000_0000_0000_0000_0000
  const TWO_231: int := 0x80_0000_0000_0000_0000_0000_0000_0000_0000_0000_0000_0000_0000_0000_0000
  const TWO_254: int := 0x4000_0000_0000_0000_0000_0000_0000_0000_0000_0000_0000_0000_0000_0000_0000_0000
  const TWO_255: int := 0x8000_0000_0000_0000_0000_0000_0000_0000_0000_0000_0000_0000_0000_0000_0000_0000

  // -------------------------------------------------------------------------------------------
  // Reading
  // -------------------------------------------------------------------------------------------

  /** Ten consecutive groups of bytes and the limbs cut from them. */
  lemma Regroup(h: Limbs, b0: nat, b1: nat, b2: nat, b3: nat, b4: nat, b5: nat, b6: nat, b7: nat, b8: nat, b9: nat)
    requires h == [b0, b1 * 64, b2 * 32, b3 * 8, b4 * 4, b5, b6 * 128, b7 * 32, b8 * 16, (b9 % 8388608) * 4]
    ensures b0 + 0x1_0000_0000 * (b1 + 0x100_0000 * (b2 + 0x100_0000 * (b3 + 0x100_0000 * (b4 + 0x100_0000 *
            (b5 + 0x1_0000_0000 * (b6 + 0x100_0000 * (b7 + 0x100_0000 * (b8 + 0x100_0000 * b9))))))))
            == Val(h) + TWO_255 * (b9 / 8388608)
  {
    ValExplicit(h);
  }

  lemma RegroupedBounds(h: Limbs, b0: nat, b1: nat, b2: nat, b3: nat, b4: nat, b5: nat, b6: nat, b7: nat, b8: nat,
                        b9: nat)
    requires h == [b0, b1 * 64, b2 * 32, b3 * 8, b4 * 4, b5, b6 * 128, b7 * 32, b8 * 16, (b9 % 8388608) * 4]
    requires b0 < 0x1_0000_0000 && b1 < 0x100_0000 && b2 < 0x100_0000 && b3 < 0x100_0000 && b4 < 0x100_0000
    requires b5 < 0x1_0000_0000 && b6 < 0x100_0000 && b7 < 0x100_0000 && b8 < 0x100_0000
    ensures 0 <= Val(h) < TWO_255 && Small(h, 0x1000_0000_0000)
  {
    ValExplicit(h);
  }

  lemma Remainder(n: nat, v: nat, top: nat)
    requires n == v + TWO_255 * top && v < TWO_255
    ensures v == n % TWO_255
  {
  }

  /** The byte groups of fe_frombytes: 4, 3, 3, 3, 3, 4, 3, 3, 3 and 3 bytes. */
  method LoadGroups(s: seq<Byte>)
    returns (b0: nat, b1: nat, b2: nat, b3: nat, b4: nat, b5: nat, b6: nat, b7: nat, b8: nat, b9: nat)
    requires |s| == 32
    ensures LE(s) == b0 + 0x1_0000_0000 * (b1 + 0x100_0000 * (b2 + 0x100_0000 * (b3 + 0x100_0000 * (b4 + 0x100_0000 *
                     (b5 + 0x1_0000_0000 * (b6 + 0x100_0000 * (b7 + 0x100_0000 * (b8 + 0x100_0000 * b9))))))))
    ensures b0 < 0x1_0000_0000 && b1 < 0x100_0000 && b2 < 0x100_0000 && b3 < 0x100_0000 && b4 < 0x100_0000
    ensures b5 < 0x1_0000_0000 && b6 < 0x100_0000 && b7 < 0x100_0000 && b8 < 0x100_0000
  {
    b9 := Load3(s, 29);
    b8 := Load3(s, 26);
    b7 := Load3(s, 23);
    b6 := Load3(s, 20);
    b5 := Load4(s, 16);
    b4 := Load3(s, 13);
    b3 := Load3(s, 10);
    b2 := Load3(s, 7);
    b1 := Load3(s, 4);
    b0 := Load4(s, 0);
  }

  method MaskTop(b: nat) returns (r: nat)
    ensures r == b % 8388608
  {
    PowersOfTwo();
    AndMod(b, 23);
    r := And(b, 8388607);
  }

  /** The limbs that fe_frombytes cuts out of 32 bytes, before carrying; the top bit is masked away. */
  method Unpack(s: seq<Byte>) returns (h: Limbs)
    requires |s| == 32
    ensures Val(h) == LE(s) % TWO_255 && Small(h, 0x1000_0000_0000)
  {
    var b0, b1, b2, b3, b4, b5, b6, b7, b8, b9 := LoadGroups(s);
    var masked := MaskTop(b9);
    h := [b0, b1 * 64, b2 * 32, b3 * 8, b4 * 4, b5, b6 * 128, b7 * 32, b8 * 16, masked * 4];
    Regroup(h, b0, b1, b2, b3, b4, b5, b6, b7, b8, b9);
    RegroupedBounds(h, b0, b1, b2, b3, b4, b5, b6, b7, b8, b9);
    Remainder(LE(s), Val(h), b9 / 8388608);
  }

  method FeFromBytes(s: seq<Byte>) returns (h: Limbs)
    requires |s| == 32
    ensures Cong(Val(h), LE(s) % TWO_255) && Within(h, 110)
  {
    var t := Unpack(s);
    var r := CarryShort(t);
    WithinFits(r, 110);
    h := Stored(r);
  }

  // -------------------------------------------------------------------------------------------
  // Writing
  // -------------------------------------------------------------------------------------------

  /** x >> 26 or x >> 25, with the bits shifted out. */
  method ShiftOut(x: int, i: nat) returns (c: int, r: nat)
    requires IsI32(x)
    ensures i % 2 == 0 ==> x == c * 0x400_0000 + r && r < 0x400_0000
    ensures i % 2 == 1 ==> x == c * 0x200_0000 + r && r < 0x200_0000
    ensures -64 <= c <= 64
  {
    if i % 2 == 0 {
      c, r := x / 0x400_0000, x % 0x400_0000;
    } else {
      c, r := x / 0x200_0000, x % 0x200_0000;
    }
  }

  /** Shifts through limbs 0 to 4: what is shifted out of a limb is added to the next one. */
  method ShiftLow(h: Limbs, x0: int) returns (r0: nat, r1: nat, r2: nat, r3: nat, r4: nat, c: int)
    requires Within(h, 220) && -100 <= x0 <= 100
    ensures r0 < 0x400_0000 && r1 < 0x200_0000 && r2 < 0x400_0000 && r3 < 0x200_0000 && r4 < 0x400_0000
    ensures x0 + h[0] + 0x400_0000 * (h[1] + 0x200_0000 * (h[2] + 0x400_0000 * (h[3] + 0x200_0000 * h[4])))
            == r0 + 0x400_0000 * (r1 + 0x200_0000 * (r2 + 0x400_0000 * (r3 + 0x200_0000 * (r4 + 0x400_0000 * c))))
    ensures -64 <= c <= 64
  {
    c, r0 := ShiftOut(I32(h[0] + x0), 0);
    c, r1 := ShiftOut(I32(h[1] + c), 1);
    c, r2 := ShiftOut(I32(h[2] + c), 2);
    c, r3 := ShiftOut(I32(h[3] + c), 3);
    c, r4 := ShiftOut(I32(h[4] + c), 4);
  }

  /** Shifts through limbs 5 to 9. */
  method ShiftHigh(h: Limbs, x: int) returns (r5: nat, r6: nat, r7: nat, r8: nat, r9: nat, c: int)
    requires Within(h, 220) && -64 <= x <= 64
    ensures r5 < 0x200_0000 && r6 < 0x400_0000 && r7 < 0x200_0000 && r8 < 0x400_0000 && r9 < 0x200_0000
    ensures x + h[5] + 0x200_0000 * (h[6] + 0x400_0000 * (h[7] + 0x200_0000 * (h[8] + 0x400_0000 * h[9])))
            == r5 + 0x200_0000 * (r6 + 0x400_0000 * (r7 + 0x200_0000 * (r8 + 0x400_0000 * (r9 + 0x200_0000 * c))))
  {
    c, r5 := ShiftOut(I32(h[5] + x), 5);
    c, r6 := ShiftOut(I32(h[6] + c), 6);
    c, r7 := ShiftOut(I32(h[7] + c), 7);
    c, r8 := ShiftOut(I32(h[8] + c), 8);
    c, r9 := ShiftOut(I32(h[9] + c), 9);
  }

  lemma ValHalves(h: Limbs)
    ensures Val(h) == h[0] + 0x400_0000 * (h[1] + 0x200_0000 * (h[2] + 0x400_0000 * (h[3] + 0x200_0000 * h[4])))
                      + 0x1_0000_0000_0000_0000_0000_0000_0000_0000 *
                        (h[5] + 0x200_0000 * (h[6] + 0x400_0000 * (h[7] + 0x200_0000 * (h[8] + 0x400_0000 * h[9]))))
  {
    ValExplicit(h);
  }

  /** Nonnegative limbs of 26 and 25 bits. */
  predicate Unsigned(r: Limbs) {
    && 0 <= r[0] < 0x400_0000 && 0 <= r[1] < 0x200_0000 && 0 <= r[2] < 0x400_0000 && 0 <= r[3] < 0x200_0000
    && 0 <= r[4] < 0x400_0000 && 0 <= r[5] < 0x200_0000 && 0 <= r[6] < 0x400_0000 && 0 <= r[7] < 0x200_0000
    && 0 <= r[8] < 0x400_0000 && 0 <= r[9] < 0x200_0000
  }

  lemma UnsignedValue(r: Limbs)
    requires Unsigned(r)
    ensures 0 <= Val(r) < TWO_255
  {
    ValHalves(r);
  }

  /** One pass of shifts over all limbs, with x0 entering at limb 0 and x leaving limb 9. */
  method ShiftThrough(h: Limbs, x0: int) returns (r: Limbs, x: int)
    requires Within(h, 220) && -100 <= x0 <= 100
    ensures Val(h) + x0 == Val(r) + TWO_255 * x && Unsigned(r)
  {
    var r0, r1, r2, r3, r4, c := ShiftLow(h, x0);
    var r5, r6, r7, r8, r9, top := ShiftHigh(h, c);
    r, x := [r0, r1, r2, r3, r4, r5, r6, r7, r8, r9], top;
    ValHalves(h);
    ValHalves(r);
  }

  lemma LowLimbs(h: Limbs)
    requires Within(h, 220)
    ensures -TWO_231 <= Val(h) - TWO_230 * h[9] <= TWO_231
  {
    ValExplicit(h);
  }

  /** The quotient by p. */
  lemma QuotientEstimate(v: int, h9: int, q0: int, r: int, q: int)
    requires -TWO_231 <= v - TWO_230 * h9 <= TWO_231
    requires 0x200_0000 * q0 <= 19 * h9 + 0x100_0000 < 0x200_0000 * q0 + 0x200_0000 && -100 <= q0 <= 100
    requires v + q0 == r + TWO_255 * q && 0 <= r < TWO_255
    ensures 0 <= v - P * q < P
  {
    var d, e := v - TWO_230 * h9, 19 * h9 + 0x100_0000 - 0x200_0000 * q0;
    var w := v - P * q;
    assert w == r - q0 + 19 * q;
    assert TWO_255 * w == P * r + 19 * d + 19 * q0 - TWO_254 + TWO_230 * e;
    Squeeze(w, P * r + 19 * d + 19 * q0 - TWO_254 + TWO_230 * e);
  }

  lemma Squeeze(w: int, x: int)
    requires TWO_255 * w == x && -TWO_255 < x < TWO_255 * P
    ensures 0 <= w < P
  {
  }

  lemma Reduced(v: int, w: int, q: int, x: int)
    requires 0 <= v - P * q < P && v + 19 * q == w + TWO_255 * x && 0 <= w < TWO_255
    ensures w == v % P
  {
    assert w - (v - P * q) == TWO_255 * (q - x);
    assert q == x;
  }

  /** With |v| up to 1.1 * 2^255, the quotient lies between -2 and 1. */
  lemma QuotientRange(h: Limbs, q0: int, r: int, q: int)
    requires Within(h, 220) && -100 <= q0 <= 100 && Val(h) + q0 == r + TWO_255 * q && 0 <= r < TWO_255
    ensures -2 <= q <= 1
  {
    ValExplicit(h);
  }

  lemma QuotientIs(h: Limbs, q0: int, r: int, q: int)
    requires Within(h, 220) && 0x200_0000 * q0 <= 19 * h[9] + 0x100_0000 < 0x200_0000 * q0 + 0x200_0000
    requires Val(h) + q0 == r + TWO_255 * q && 0 <= r < TWO_255
    ensures -2 <= q <= 1 && 0 <= Val(h) - P * q < P
  {
    assert -100 <= q0 <= 100;
    QuotientRange(h, q0, r, q);
    LowLimbs(h);
    QuotientEstimate(Val(h), h[9], q0, r, q);
  }

  const LOWEST: Limbs := [-73819750, -36909875, -73819750, -36909875, -73819750, -36909875, -73819750, -36909875,
                          -73819750, -36909875]

  /** The quotient is -2 exactly for values below -p ... */
  lemma QuotientMinusTwo(h: Limbs, q0: int, r: int, q: int)
    requires Within(h, 220) && 0x200_0000 * q0 <= 19 * h[9] + 0x100_0000 < 0x200_0000 * q0 + 0x200_0000
    requires Val(h) + q0 == r + TWO_255 * q && 0 <= r < TWO_255
    ensures q == -2 <==> Val(h) < -P
  {
    QuotientIs(h, q0, r, q);
  }

  /** ... and there are such values within the bounds. */
  lemma LowestValue()
    ensures Within(LOWEST, 220) && Val(LOWEST) < -P
  {
    ValExplicit(LOWEST);
  }

  /** The byte (h3 >> 19) | (h4 << 6) is right although the shift of 26 bits leaves int32_t. */
  lemma ShiftLeavesWord()
    ensures Unsigned([0, 0, 0, 0, 0x3ff_ffff, 0, 0, 0, 0, 0]) && !IsI32(0x3ff_ffff * 64)
  {
  }

  /** q = (19 h9 + 2^24) >> 25. */
  method FirstQuotient(h: Limbs) returns (q0: int)
    requires Within(h, 220)
    ensures -100 <= q0 <= 100
    ensures 0x200_0000 * q0 <= 19 * h[9] + 0x100_0000 < 0x200_0000 * q0 + 0x200_0000
  {
    q0 := I32(I32(19 * h[9]) + 0x100_0000) / 0x200_0000;
  }

  /** The limbs of the representative of h in [0, p). */
  method Canonical(h: Limbs) returns (r: Limbs)
    requires Within(h, 220)
    ensures Val(r) == Val(h) % P && Unsigned(r)
  {
    var q0 := FirstQuotient(h);
    var q, x;
    r, q := ShiftThrough(h, q0);
    UnsignedValue(r);
    QuotientIs(h, q0, Val(r), q);
    r, x := ShiftThrough(h, I32(19 * q));
    UnsignedValue(r);
    Reduced(Val(h), Val(r), q, x);
  }

  lemma SumLow(s: seq<Byte>, h: Limbs)
    requires Unsigned(h) && |s| == 16
    requires s[0] == h[0] % 0x100
    requires Triple(s[1], s[2], s[3]) == h[0] / 0x100 + 0x4_0000 * (h[1] % 0x40)
    requires Triple(s[4], s[5], s[6]) == h[1] / 0x40 + 0x8_0000 * (h[2] % 0x20)
    requires Triple(s[7], s[8], s[9]) == h[2] / 0x20 + 0x20_0000 * (h[3] % 8)
    requires Triple(s[10], s[11], s[12]) == h[3] / 8 + 0x40_0000 * (h[4] % 4)
    requires Triple(s[13], s[14], s[15]) == h[4] / 4
    ensures LE(s) == h[0] + 0x400_0000 * (h[1] + 0x200_0000 * (h[2] + 0x400_0000 * (h[3] + 0x200_0000 * h[4])))
  {
    Three(s, 1);
    Three(s, 4);
    Three(s, 7);
    Three(s, 10);
    Three(s, 13);
  }

  /** The 16 bytes of the limbs 0 to 4, of 26, 25, 26, 25 and 26 bits. */
  method PackLow(h: Limbs) returns (s: seq<Byte>)
    requires Unsigned(h)
    ensures |s| == 16
    ensures LE(s) == h[0] + 0x400_0000 * (h[1] + 0x200_0000 * (h[2] + 0x400_0000 * (h[3] + 0x200_0000 * h[4])))
  {
    PowersOfTwo();
    var s1, s2, s3 := Cut(h[0] / 0x100, 2, h[1], 32, 0x4_0000, 0x40);
    var s4, s5, s6 := Cut(h[1] / 0x40, 3, h[2], 32, 0x8_0000, 0x20);
    var s7, s8, s9 := Cut(h[2] / 0x20, 5, h[3], 32, 0x20_0000, 8);
    var s10, s11, s12 := Cut(h[3] / 8, 6, h[4], 32, 0x40_0000, 4);
    var s13, s14, s15 := Cut(h[4] / 4, 8, 0, 32, 0x100_0000, 1);
    s := [Low(h[0]), s1, s2, s3, s4, s5, s6, s7, s8, s9, s10, s11, s12, s13, s14, s15];
    SumLow(s, h);
  }

  lemma SumHigh(s: seq<Byte>, h: Limbs)
    requires Unsigned(h) && |s| == 16
    requires s[0] == h[5] % 0x100
    requires Triple(s[1], s[2], s[3]) == h[5] / 0x100 + 0x2_0000 * (h[6] % 0x80)
    requires Triple(s[4], s[5], s[6]) == h[6] / 0x80 + 0x8_0000 * (h[7] % 0x20)
    requires Triple(s[7], s[8], s[9]) == h[7] / 0x20 + 0x10_0000 * (h[8] % 0x10)
    requires Triple(s[10], s[11], s[12]) == h[8] / 0x10 + 0x40_0000 * (h[9] % 4)
    requires Triple(s[13], s[14], s[15]) == h[9] / 4
    ensures LE(s) == h[5] + 0x200_0000 * (h[6] + 0x400_0000 * (h[7] + 0x200_0000 * (h[8] + 0x400_0000 * h[9])))
  {
    Three(s, 1);
    Three(s, 4);
    Three(s, 7);
    Three(s, 10);
    Three(s, 13);
  }

  /** The 16 bytes of the limbs 5 to 9, of 25, 26, 25, 26 and 25 bits. */
  method PackHigh(h: Limbs) returns (s: seq<Byte>)
    requires Unsigned(h)
    ensures |s| == 16
    ensures LE(s) == h[5] + 0x200_0000 * (h[6] + 0x400_0000 * (h[7] + 0x200_0000 * (h[8] + 0x400_0000 * h[9])))
  {
    PowersOfTwo();
    var s1, s2, s3 := Cut(h[5] / 0x100, 1, h[6], 32, 0x2_0000, 0x80);
    var s4, s5, s6 := Cut(h[6] / 0x80, 3, h[7], 32, 0x8_0000, 0x20);
    var s7, s8, s9 := Cut(h[7] / 0x20, 4, h[8], 32, 0x10_0000, 0x10);
    var s10, s11, s12 := Cut(h[8] / 0x10, 6, h[9], 32, 0x40_0000, 4);
    var s13, s14, s15 := Cut(h[9] / 4, 8, 0, 32, 0x100_0000, 1);
    s := [Low(h[5]), s1, s2, s3, s4, s5, s6, s7, s8, s9, s10, s11, s12, s13, s14, s15];
    SumHigh(s, h);
  }

  method Pack(h: Limbs) returns (s: seq<Byte>)
    requires Unsigned(h)
    ensures |s| == 32 && LE(s) == Val(h)
  {
    var low := PackLow(h);
    var high := PackHigh(h);
    s := low + high;
    LEConcat16(low, high);
    ValHalves(h);
  }

  /** Writes the 32 bytes of the representative of h in [0, p). */
  method FeToBytes(s: array<Byte>, h: Limbs)
    requires s.Length >= 32 && Within(h, 220)
    modifies s
    ensures LE(s[..32]) == Val(h) % P && s[32..] == old(s[32..])
  {
    var r := Canonical(h);
    var t := Pack(r);
    Store(s, 0, t);
    assert s[..32] == t;
  }

  /** What is read is written back, reduced: without the top bit, and mod p. */
  method FeReduceBytes(out: array<Byte>, s: seq<Byte>)
    requires |s| == 32 && out.Length >= 32
    modifies out
    ensures LE(out[..32]) == (LE(s) % TWO_255) % P && out[32..] == old(out[32..])
  {
    var h := FeFromBytes(s);
    WithinMonotone(h, 110, 220);
    CongMod(Val(h), LE(s) % TWO_255);
    FeToBytes(out, h);
  }

  lemma {:induction false} LEZero(s: seq<Byte>, i: nat)
    requires i <= |s|
    ensures LEFrom(s, i) == 0 <==> forall k :: i <= k < |s| ==> s[k] == 0
    decreases |s| - i
  {
    if i < |s| {
      LEZero(s, i + 1);
    }
  }

  lemma Parity(s: seq<Byte>)
    requires |s| > 0
    ensures LE(s) % 2 == s[0] % 2
  {
    var x: int := s[0];
    assert LE(s) == x + 2 * (128 * LEFrom(s, 1));
  }

  lemma AndOne(x: nat)
    ensures And(x, 1) == x % 2
  {
    AndMod(x, 1);
  }

  /** 1 when the representative in [0, p) is odd. */
  method FeIsNegative(h: Limbs) returns (r: nat)
    requires Within(h, 220)
    ensures r == (Val(h) % P) % 2
  {
    var s := new Byte[32];
    FeToBytes(s, h);
    assert s[..] == s[..32];
    Parity(s[..]);
    AndOne(s[0]);
    r := And(s[0], 1);
  }

  /** 1 when h is not zero in Z/p: the bytes are or-ed together, one after the other. */
  method FeIsNonzero(h: Limbs) returns (r: nat)
    requires Within(h, 220)
    ensures r == if Cong(Val(h), 0) then 0 else 1
  {
    var s := new Byte[32];
    FeToBytes(s, h);
    assert s[..] == s[..32];
    var acc: nat := s[0];
    for i := 1 to 32
      invariant acc == 0 <==> forall k :: 0 <= k < i ==> s[..][k] == 0
      invariant LE(s[..]) == Val(h) % P
    {
      OrZero(acc, s[i]);
      acc := Or(acc, s[i]);
    }
    LEZero(s[..], 0);
    CongMod(Val(h), 0);
    r := if acc != 0 then 1 else 0;
  }
}
