/** sc_reduce and sc_muladd (keypair/sc.c): arithmetic mod l on byte strings. */
module Scalar {
  import opened Machine
  import opened Bytes
  import opened ScalarLimbs
  import opened ScalarReduction
  import opened ScalarBytes

  /** Overwrites the first 32 of 64 bytes with their value mod l. */
  method ScReduce(s: array<Byte>)
    requires s.Length == 64
    modifies s
    ensures LE(s[..32]) == LE(old(s[..])) % L
    ensures s[32..] == old(s[32..])
  {
    var d := LoadLimbs(s[..], 24);
    d := Reduce(d);
    var x := ScalarBytes.Pack(d);
    Store(s, 0, x);
    assert s[..32] == x;
  }

  // -------------------------------------------------------------------------------------------
  // The product of twelve-limb numbers
  // -------------------------------------------------------------------------------------------

  /** Limb k of the product of a from limb i on and b. */
  function Column(a: seq<int>, b: seq<int>, k: nat, i: nat): int
    requires |a| == |b| == 24
    decreases 12 - i, a
  {
    if i >= 12 || i > k then 0 else (if k - i < 12 then a[i] * b[k - i] else 0) + Column(a, b, k, i + 1)
  }

  ghost function Columns(a: seq<int>, b: seq<int>, i: nat): (s: seq<int>)
    requires |a| == |b| == 24
    ensures |s| == 24 && forall k :: 0 <= k < 24 ==> s[k] == Column(a, b, k, i)
  {
    seq(24, k requires 0 <= k < 24 => Column(a, b, k, i))
  }

  lemma Distribute(x: int, b: int, v: int)
    ensures x * (b + 0x20_0000 * v) == x * b + 0x20_0000 * (x * v)
  {
  }

  /** Row i of the product is a[i] times b, moved up i limbs. */
  lemma {:induction false} ColumnsFrom(a: seq<int>, b: seq<int>, i: nat, j: nat)
    requires |a| == |b| == 24 && i < 12 && i <= j <= 24 && forall k :: 12 <= k < 24 ==> b[k] == 0
    ensures ValFrom(Columns(a, b, i), j) == a[i] * ValFrom(b, j - i) + ValFrom(Columns(a, b, i + 1), j)
    decreases 24 - j
  {
    if j == 24 {
      ValZeros(b, 24 - i);
    } else {
      ColumnsFrom(a, b, i, j + 1);
      assert Columns(a, b, i)[j] == a[i] * b[j - i] + Columns(a, b, i + 1)[j];
      Distribute(a[i], b[j - i], ValFrom(b, j - i + 1));
    }
  }

  lemma {:induction false} ColumnsValue(a: seq<int>, b: seq<int>, i: nat)
    requires |a| == |b| == 24 && i <= 12
    requires forall k :: 12 <= k < 24 ==> a[k] == 0 && b[k] == 0
    ensures ValFrom(Columns(a, b, i), i) == ValFrom(a, i) * Val(b)
    decreases 12 - i
  {
    if i == 12 {
      ValZeros(a, 12);
      ValZeros(Columns(a, b, 12), 12);
    } else {
      ColumnsFrom(a, b, i, i);
      ColumnsValue(a, b, i + 1);
      assert Columns(a, b, i + 1)[i] == 0;
      Distribute(Val(b), a[i], ValFrom(a, i + 1));
    }
  }

  /** The limbs of a number of twelve limbs, the last of up to 25 bits. */
  predicate Twelve(a: Digits) {
    && (forall k :: 0 <= k < 11 ==> 0 <= a[k] < 0x20_0000) && 0 <= a[11] < 0x200_0000
    && forall k :: 12 <= k < 24 ==> a[k] == 0
  }

  lemma TermBound(x: int, y: int)
    requires 0 <= x < 0x200_0000 && 0 <= y < 0x200_0000
    ensures 0 <= x * y <= 0x4_0000_0000_0000
  {
    MulMonotone(x, 0, y);
    MulMonotone(x, y, 0x200_0000);
  }

  /** s_k = c_k + a_i b_{k-i} + a_{i+1} b_{k-i-1} + ..., from the first i that has a limb of b. */
  method MultiplyColumn(a: Digits, b: Digits, c: Digits, k: nat) returns (t: int)
    requires Twelve(a) && Twelve(b) && Twelve(c) && k < 24
    ensures t == c[k] + Columns(a, b, 0)[k] && 0 <= t <= 0x31_0000_0000_0000
  {
    t := c[k];
    var i := if k < 12 then 0 else k - 11;
    SkipLow(a, b, k, 0, i);
    while i < 12 && i <= k
      invariant 0 <= i <= 12 && k - 11 <= i
      invariant t + Column(a, b, k, i) == c[k] + Column(a, b, k, 0)
      invariant 0 <= t <= 0x200_0000 + i * 0x4_0000_0000_0000
    {
      TermBound(a[i], b[k - i]);
      t := I64(t + I64(a[i] * b[k - i]));
      i := i + 1;
    }
  }

  lemma {:induction false} SkipLow(a: seq<int>, b: seq<int>, k: nat, i: nat, j: nat)
    requires |a| == |b| == 24 && i <= j && (j == 0 || (j == k - 11 && k < 24))
    ensures Column(a, b, k, i) == Column(a, b, k, j)
    decreases j - i
  {
    if i < j {
      SkipLow(a, b, k, i + 1, j);
    }
  }

  lemma {:induction false} ValSum(s: seq<int>, x: seq<int>, y: seq<int>, i: nat)
    requires |s| == |x| == |y| && i <= |s| && forall k :: 0 <= k < |s| ==> s[k] == x[k] + y[k]
    ensures ValFrom(s, i) == ValFrom(x, i) + ValFrom(y, i)
    decreases |s| - i
  {
    if i < |s| {
      ValSum(s, x, y, i + 1);
    }
  }

  /** The limbs of a b + c before any carry. */
  method MultiplyLimbs(a: Digits, b: Digits, c: Digits) returns (s: Digits)
    requires Twelve(a) && Twelve(b) && Twelve(c)
    ensures Val(s) == Val(a) * Val(b) + Val(c) && Small(s, 0x31_0000_0000_0000) && s[23] == 0
  {
    s := seq(24, k => 0);
    for k := 0 to 23
      invariant s[23] == 0
      invariant forall j :: 0 <= j < k ==> s[j] == c[j] + Columns(a, b, 0)[j] && 0 <= s[j] <= 0x31_0000_0000_0000
    {
      var t := MultiplyColumn(a, b, c, k);
      s := s[k := t];
    }
    SkipLow(a, b, 23, 0, 12);
    ValSum(s, c, Columns(a, b, 0), 0);
    ColumnsValue(a, b, 0);
  }

  /** The value of (a b + c) mod l. */
  method MultiplyAdd(a: Digits, b: Digits, c: Digits) returns (r: Digits)
    requires Twelve(a) && Twelve(b) && Twelve(c)
    ensures Val(r) == (Val(a) * Val(b) + Val(c)) % L && Finished(r) && 0 <= r[11] < 0x40_0000
  {
    r := MultiplyLimbs(a, b, c);
    r := CarryAlternate(r, 0, 22, 0x31_0000_0000_0000, 0x1_A000_0000);
    r := CarryAlternate(r, 1, 21, 0x32_0000_0000_0000, 0x1_A000_0000);
    r := Reduce(r);
  }

  /** Writes (a b + c) mod l at s[i..i + 32], whatever else is in s.  The operands may lie in s. */
  method ScMulAdd(s: array<Byte>, i: nat, a: seq<Byte>, b: seq<Byte>, c: seq<Byte>)
    requires i + 32 <= s.Length && |a| == |b| == |c| == 32
    modifies s
    ensures LE(s[i..i + 32]) == (LE(a) * LE(b) + LE(c)) % L
    ensures s[..i] == old(s[..i]) && s[i + 32..] == old(s[i + 32..])
  {
    var x := LoadLimbs(a, 12);
    var y := LoadLimbs(b, 12);
    var z := LoadLimbs(c, 12);
    var r := MultiplyAdd(x, y, z);
    var t := ScalarBytes.Pack(r);
    Store(s, i, t);
    assert s[i..i + 32] == t;
  }
}
