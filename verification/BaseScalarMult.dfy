/** ge_scalarmult_base (keypair/ge.c): signed radix-16 digits, branch-free table lookups, and the sum of
    the odd digits, times 16, plus the even ones. */
module BaseScalarMult {
  import opened Bits
  import opened Bytes
  import opened Power
  import opened FieldElement
  import opened FieldOps
  import opened CurveGroup
  import opened PointForms
  import opened Ge

  // -------------------------------------------------------------------------------------------
  // Recoding
  // -------------------------------------------------------------------------------------------

  /** e[i] + 16 e[i + 1] + 256 e[i + 2] + ... */
  function Radix16(e: seq<int>, i: nat): int
    decreases |e| - i, e
  {
    if i >= |e| then 0 else e[i] + 16 * Radix16(e, i + 1)
  }

  lemma {:induction false} Radix16Frame(e: seq<int>, f: seq<int>, i: nat)
    requires |e| == |f| && forall k :: i <= k < |e| ==> e[k] == f[k]
    ensures Radix16(e, i) == Radix16(f, i)
    decreases |e| - i
  {
    if i < |e| {
      Radix16Frame(e, f, i + 1);
    }
  }

  lemma {:induction false} Radix16Below(e: seq<int>, f: seq<int>, i: nat, j: nat)
    requires |e| == |f| && j <= i <= |e| && Radix16(e, i) == Radix16(f, i)
    requires forall k :: 0 <= k < i ==> e[k] == f[k]
    ensures Radix16(e, j) == Radix16(f, j)
    decreases i - j
  {
    if j < i {
      Radix16Below(e, f, i, j + 1);
    }
  }

  lemma {:induction false} Nibbles(e: seq<int>, a: seq<Byte>, j: nat)
    requires |e| == 64 && |a| == 32 && j <= 32
    requires forall i :: 0 <= i < 32 ==> e[2 * i] == a[i] % 16 && e[2 * i + 1] == a[i] / 16
    ensures Radix16(e, 2 * j) == LEFrom(a, j)
    decreases 32 - j
  {
    if j < 32 {
      Nibbles(e, a, j + 1);
      var x: int := a[j];
      assert Radix16(e, 2 * j) == e[2 * j] + 16 * Radix16(e, 2 * j + 1);
      assert Radix16(e, 2 * j + 1) == e[2 * j + 1] + 16 * Radix16(e, 2 * j + 2);
      assert x == x % 16 + 16 * (x / 16);
    }
  }

  lemma Nibble(x: nat)
    ensures And(x, 15) == x % 16
  {
    assert Pow2(4) == 16;
    AndMod(x, 4);
  }

  /** e[2i] = a[i] & 15 and e[2i + 1] = (a[i] >> 4) & 15. */
  method LoadNibbles(e: array<int>, a: seq<Byte>)
    requires e.Length == 64 && |a| == 32
    modifies e
    ensures Radix16(e[..], 0) == LE(a)
    ensures forall i :: 0 <= i < 64 ==> 0 <= e[i] <= 15
    ensures e[63] == a[31] / 16
  {
    for i := 0 to 32
      invariant forall k :: 0 <= k < i ==> e[2 * k] == a[k] % 16 && e[2 * k + 1] == a[k] / 16
    {
      Nibble(a[i]);
      Nibble(a[i] / 16);
      e[2 * i] := And(a[i], 15);
      e[2 * i + 1] := And(a[i] / 16, 15);
    }
    Nibbles(e[..], a, 0);
    forall i | 0 <= i < 64
      ensures 0 <= e[i] <= 15
    {
      assert e[2 * (i / 2)] == a[i / 2] % 16 && e[2 * (i / 2) + 1] == a[i / 2] / 16;
    }
    assert e[2 * 31 + 1] == a[31] / 16;
  }

  /** Digits between -8 and 8 of the same number. */
  method Recode(e: array<int>, a: seq<Byte>)
    requires e.Length == 64 && |a| == 32 && a[31] <= 127
    modifies e
    ensures Radix16(e[..], 0) == LE(a)
    ensures forall i :: 0 <= i < 64 ==> -8 <= e[i] <= 8
  {
    LoadNibbles(e, a);
    ghost var s := e[..];
    var carry := 0;
    assert e[..] == e[..][0 := e[0] + carry];
    for i := 0 to 63
      invariant 0 <= carry <= 1
      invariant forall k :: 0 <= k < i ==> -8 <= e[k] <= 8
      invariant forall k :: i <= k < 64 ==> e[k] == s[k]
      invariant Radix16(e[..][i := e[i] + carry], 0) == LE(a)
    {
      ghost var before := e[..][i := e[i] + carry];
      e[i] := e[i] + carry;
      carry := (e[i] + 8) / 16;
      e[i] := e[i] - carry * 16;
      ghost var after := e[..][i + 1 := e[i + 1] + carry];
      Radix16Frame(before, after, i + 2);
      assert Radix16(before, i) == before[i] + 16 * Radix16(before, i + 1);
      assert Radix16(after, i) == after[i] + 16 * Radix16(after, i + 1);
      Radix16Below(before, after, i, 0);
    }
    e[63] := e[63] + carry;
    assert e[..] == e[..][63 := e[63]];
  }

  // -------------------------------------------------------------------------------------------
  // Lookup
  // -------------------------------------------------------------------------------------------

  function Wrap64(x: int): nat {
    x % 0x1_0000_0000_0000_0000
  }

  /** equal(b, c) on signed chars: ((uint64_t) (b ^ c) - 1) >> 63. */
  function Equal(b: int, c: int): int {
    Wrap64(Xor(b % 256, c % 256) - 1) / 0x8000_0000_0000_0000
  }

  lemma XorByte(x: nat, y: nat)
    requires x < 256 && y < 256
    ensures Xor(x, y) < 256 && (Xor(x, y) == 0 <==> x == y)
  {
    PowersOfTwo();
    XorBound(x, y, 8);
    XorEqual(x, y);
  }

  lemma EqualIs(b: int, c: int)
    requires -128 <= b < 128 && -128 <= c < 128
    ensures Equal(b, c) == if b == c then 1 else 0
  {
    XorByte(b % 256, c % 256);
  }

  /** negative(b): (uint64_t) b >> 63. */
  function Negative(b: int): int {
    Wrap64(b) / 0x8000_0000_0000_0000
  }

  /** b - (((-bnegative) & b) << 1). */
  function Magnitude(b: int): int {
    b - 2 * Signed(And(Word(b), Word(-Negative(b))))
  }

  lemma MagnitudeIs(b: int)
    requires -128 < b < 128
    ensures Negative(b) == (if b < 0 then 1 else 0) && Magnitude(b) == if b < 0 then -b else b
  {
    SignedWord(b);
    MaskBit(Word(b), Negative(b));
  }

  /** A table row: entry j is (j + 1) Q. */
  ghost predicate Row(row: seq<GePrecomp>, q: Point)
    reads row
  {
    |row| == 8 && forall j :: 0 <= j < 8 ==> IsPrecomp(row[j], Mul(j + 1, q))
  }

  lemma PrecompFits(t: GePrecomp, p: Point)
    requires IsPrecomp(t, p)
    ensures FitsI32(t.yPlusX) && FitsI32(t.yMinusX) && FitsI32(t.xy2d)
  {
    WithinFits(t.yPlusX, 110);
    WithinFits(t.yMinusX, 110);
    WithinFits(t.xy2d, 110);
  }

  /** t becomes u when b is 1. */
  method Cmov(t: GePrecomp, u: GePrecomp, b: nat, ghost p: Point, ghost q: Point)
    requires b <= 1 && t != u && IsPrecomp(t, p) && IsPrecomp(u, q)
    modifies t
    ensures IsPrecomp(t, if b == 1 then q else p)
  {
    PrecompFits(t, p);
    PrecompFits(u, q);
    var plus := FeCmov(t.yPlusX, u.yPlusX, b);
    var minus := FeCmov(t.yMinusX, u.yMinusX, b);
    var product := FeCmov(t.xy2d, u.xy2d, b);
    t.yPlusX, t.yMinusX, t.xy2d := plus, minus, product;
  }

  /** The neutral element in affine form: 1, 1, 0. */
  method PrecompZero(t: GePrecomp)
    modifies t
    ensures IsPrecomp(t, ZERO)
  {
    var zero := FeConst(0);
    var one := FeConst(1);
    ZeroOnCurve();
    ZeroForms();
    WithinMonotone(zero, 1, 110);
    WithinMonotone(one, 1, 110);
    t.yPlusX, t.yMinusX, t.xy2d := one, one, zero;
  }

  method Negate(m: GePrecomp, t: GePrecomp, ghost p: Point)
    requires m != t && IsPrecomp(t, p)
    modifies m
    ensures IsPrecomp(m, Neg(p))
  {
    NegOnCurve(p);
    NegCached(Val(t.yPlusX), Val(t.yMinusX), 1, Val(t.xy2d), p);
    var product := FeNeg(t.xy2d, 110);
    m.yPlusX, m.yMinusX, m.xy2d := t.yMinusX, t.yPlusX, product;
  }

  /** t = b Q, by eight conditional moves and a conditional negation. */
  method Select(t: GePrecomp, row: seq<GePrecomp>, b: int, ghost q: Point)
    requires OnCurve(q) && Row(row, q) && t !in row && -8 <= b <= 8
    modifies t
    ensures IsPrecomp(t, Mul(b, q))
  {
    hide IsPrecomp, Add, Mul, Equal, Negative, Magnitude;
    MagnitudeIs(b);
    var bnegative := Negative(b);
    var babs := Magnitude(b);
    PrecompZero(t);
    MulZero(q);
    for j := 0 to 8
      invariant IsPrecomp(t, Mul(if babs <= j then babs else 0, q))
    {
      EqualIs(babs, j + 1);
      Cmov(t, row[j], Equal(babs, j + 1), Mul(if babs <= j then babs else 0, q), Mul(j + 1, q));
    }
    var minust := new GePrecomp();
    Negate(minust, t, Mul(babs, q));
    MulNeg(babs, q);
    Cmov(t, minust, bnegative, Mul(babs, q), Mul(-babs, q));
  }

  lemma MulZero(q: Point)
    ensures Mul(0, q) == ZERO
  {
  }

  // -------------------------------------------------------------------------------------------
  // The two passes
  // -------------------------------------------------------------------------------------------

  /** Row i of the table: (j + 1) 256^i B. */
  ghost predicate BaseTable(rows: seq<seq<GePrecomp>>, b: Point)
    reads set i, j | 0 <= i < |rows| && 0 <= j < |rows[i]| :: rows[i][j]
  {
    |rows| == 32 && forall i :: 0 <= i < 32 ==> Row(rows[i], Mul(Pow(256, i), b))
  }

  /** The digits at the positions s, s + 2, ..., s + 2k - 2, in radix 256. */
  function Pass(e: seq<int>, s: nat, k: nat): int
    requires s + 2 * k <= |e| + 1
    decreases k, e
  {
    if k == 0 then 0 else Pass(e, s, k - 1) + e[s + 2 * k - 2] * Pow(256, k - 1)
  }

  lemma PassStep(p: int, even: int, odd: int, rest: int)
    ensures p * (even + 16 * (odd + 16 * rest)) == even * p + 16 * (odd * p) + (256 * p) * rest
  {
  }

  /** The even digits plus 16 times the odd ones. */
  lemma {:induction false} Passes(e: seq<int>, k: nat)
    requires |e| == 64 && k <= 32
    ensures Radix16(e, 0) == Pass(e, 0, k) + 16 * Pass(e, 1, k) + Pow(256, k) * Radix16(e, 2 * k)
    decreases k
  {
    if k > 0 {
      Passes(e, k - 1);
      assert Radix16(e, 2 * k - 2) == e[2 * k - 2] + 16 * Radix16(e, 2 * k - 1);
      PassStep(Pow(256, k - 1), e[2 * k - 2], e[2 * k - 1], Radix16(e, 2 * k));
    }
  }

  /** c B + d (256^k B). */
  lemma AddDigit(c: int, d: int, k: nat, b: Point)
    requires OnCurve(b)
    ensures Add(Mul(c, b), Mul(d, Mul(Pow(256, k), b))) == Mul(c + d * Pow(256, k), b)
  {
    MulMul(d, Pow(256, k), b);
    MulAdd(c, d * Pow(256, k), b);
  }

  /** h = h + d Q. */
  method AddRow(h: GeP3, r: GeP1P1, t: GePrecomp, row: seq<GePrecomp>, d: int, ghost p: Point, ghost q: Point)
    requires OnCurve(q) && Row(row, q) && t !in row && -8 <= d <= 8 && IsP3(h, p)
    modifies h, r, t
    ensures IsP3(h, Add(p, Mul(d, q)))
  {
    hide IsPrecomp, IsP3, IsP1P1, Add, Mul;
    Select(t, row, d, q);
    GeMadd(r, h, t, p, Mul(d, q));
    GeP1P1ToP3(h, r, Add(p, Mul(d, q)));
  }

  /** Adds the digits at the positions s, s + 2, s + 4, ... */
  method SumPass(h: GeP3, e: seq<int>, s: nat, rows: seq<seq<GePrecomp>>, ghost start: int, ghost b: Point)
    requires OnCurve(b) && BaseTable(rows, b) && IsP3(h, Mul(start, b))
    requires |e| == 64 && s <= 1 && forall i :: 0 <= i < 64 ==> -8 <= e[i] <= 8
    modifies h
    ensures IsP3(h, Mul(start + Pass(e, s, 32), b))
  {
    hide IsPrecomp, IsP3, Add, Mul;
    var r := new GeP1P1();
    var t := new GePrecomp();
    var i := s;
    while i < 64
      invariant s <= i <= 64 + s && (i - s) % 2 == 0
      invariant IsP3(h, Mul(start + Pass(e, s, (i - s) / 2), b))
      invariant BaseTable(rows, b)
    {
      ghost var k := (i - s) / 2;
      MulOnCurve(Pow(256, k), b);
      AddRow(h, r, t, rows[i / 2], e[i], Mul(start + Pass(e, s, k), b), Mul(Pow(256, k), b));
      AddDigit(start + Pass(e, s, k), e[i], k, b);
      i := i + 2;
    }
  }

  lemma DoubleMultiple(n: int, b: Point)
    requires OnCurve(b)
    ensures Add(Mul(n, b), Mul(n, b)) == Mul(2 * n, b)
  {
    MulAdd(n, n, b);
  }

  /** h = 16 h, by four doublings. */
  method Times16(h: GeP3, ghost n: int, ghost b: Point)
    requires OnCurve(b) && IsP3(h, Mul(n, b))
    modifies h
    ensures IsP3(h, Mul(16 * n, b))
  {
    hide IsP3, IsP2, IsP1P1, Add, Mul;
    var r := new GeP1P1();
    var s := new GeP2();
    DoubleMultiple(n, b);
    DoubleMultiple(2 * n, b);
    DoubleMultiple(4 * n, b);
    DoubleMultiple(8 * n, b);
    GeP3Dbl(r, h, Mul(n, b));
    GeP1P1ToP2(s, r, Mul(2 * n, b));
    GeP2Dbl(r, s, Mul(2 * n, b));
    GeP1P1ToP2(s, r, Mul(4 * n, b));
    GeP2Dbl(r, s, Mul(4 * n, b));
    GeP1P1ToP2(s, r, Mul(8 * n, b));
    GeP2Dbl(r, s, Mul(8 * n, b));
    GeP1P1ToP3(h, r, Mul(16 * n, b));
  }

  /** h = a B. */
  method GeScalarMultBase(h: GeP3, a: seq<Byte>, rows: seq<seq<GePrecomp>>, ghost b: Point)
    requires OnCurve(b) && BaseTable(rows, b) && |a| == 32 && a[31] <= 127
    modifies h
    ensures IsP3(h, Mul(LE(a), b))
  {
    hide IsP3, IsPrecomp, Mul;
    var digits := new int[64];
    Recode(digits, a);
    var e := digits[..];
    MulZero(b);
    GeP3Zero(h);
    SumPass(h, e, 1, rows, 0, b);
    Times16(h, Pass(e, 1, 32), b);
    SumPass(h, e, 0, rows, 16 * Pass(e, 1, 32), b);
    Passes(e, 32);
  }
}
