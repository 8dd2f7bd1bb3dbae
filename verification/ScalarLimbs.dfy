/** Integers mod l as 24 signed limbs of 21 bits (keypair/sc.c): carries, and the folding of a high
    limb with 2^252 = l - 27742317777372353535851937790883648493. */
module ScalarLimbs {
  import opened Bits
  import opened Machine
  import Power

  /** The order of the base point. */
  const L: int := 0x1000_0000_0000_0000_0000_0000_0000_0000_14de_f9de_a2f7_9cd6_5812_631a_5cf5_d3ed

  /** The number that section 5.1 of RFC 8032 gives. */
  lemma OrderIs()
    ensures L == Pow2(252) + 27742317777372353535851937790883648493
  {
    Power.LargePower();
    Eighth(252);
  }

  lemma Eighth(n: nat)
    ensures Pow2(n + 3) == 8 * Pow2(n)
  {
    assert Pow2(n + 2) == 4 * Pow2(n);
  }

  /** The locals s0..s23. */
  type Digits = s: seq<int> | |s| == 24 witness seq(24, i => 0)

  function ValFrom(s: seq<int>, i: nat): int
    decreases |s| - i, s
  {
    if i >= |s| then 0 else s[i] + 0x20_0000 * ValFrom(s, i + 1)
  }

  /** s[0] + 2^21 s[1] + 2^42 s[2] + ... */
  function Val(s: seq<int>): int {
    ValFrom(s, 0)
  }

  /** The limbs from i on decide ValFrom(s, i). */
  lemma {:induction false} ValFrame(s: seq<int>, r: seq<int>, i: nat)
    requires |s| == |r| && forall j :: i <= j < |s| ==> s[j] == r[j]
    ensures ValFrom(s, i) == ValFrom(r, i)
    decreases |s| - i
  {
    if i < |s| {
      ValFrame(s, r, i + 1);
    }
  }

  /** Changes below i only are scaled by a power of 2^21: an equal suffix value stays equal. */
  lemma {:induction false} ValBelow(s: seq<int>, r: seq<int>, i: nat, j: nat)
    requires |s| == |r| && j <= i <= |s| && ValFrom(s, i) == ValFrom(r, i)
    requires forall k :: 0 <= k < i ==> s[k] == r[k]
    ensures ValFrom(s, j) == ValFrom(r, j)
    decreases i - j
  {
    if j < i {
      ValBelow(s, r, i, j + 1);
    }
  }

  predicate Small(s: seq<int>, m: int) {
    forall i :: 0 <= i < |s| ==> -m <= s[i] <= m
  }

  // -------------------------------------------------------------------------------------------
  // Carries
  // -------------------------------------------------------------------------------------------

  /** c moves out of limb i, times 2^21, into limb i + 1. */
  function Moved(s: Digits, i: nat, c: int): Digits
    requires i < 23
  {
    s[i := s[i] - 0x20_0000 * c][i + 1 := s[i + 1] + c]
  }

  lemma MovedValue(s: Digits, i: nat, c: int)
    requires i < 23
    ensures Val(Moved(s, i, c)) == Val(s)
  {
    var r := Moved(s, i, c);
    ValFrame(s, r, i + 2);
    assert ValFrom(r, i + 1) == ValFrom(s, i + 1) + c;
    ValBelow(s, r, i, 0);
  }

  /** carry = (s_i + (1 << 20)) >> 21; s_{i+1} += carry; s_i -= carry << 21. */
  method Carry(s: Digits, i: nat, ghost m: int, ghost d: int) returns (r: Digits)
    requires i < 23 && 0 <= m <= 0x1000_0000_0000_0000 && m + 0x20_0000 <= 0x20_0000 * d
    requires -m <= s[i] <= m && -m <= s[i + 1] <= m
    ensures Val(r) == Val(s) && -0x10_0000 <= r[i] < 0x10_0000
    ensures s[i + 1] - d <= r[i + 1] <= s[i + 1] + d
    ensures forall j :: 0 <= j < 24 && j != i && j != i + 1 ==> r[j] == s[j]
  {
    var carry := I64(s[i] + 0x10_0000) / 0x20_0000;
    r := s[i + 1 := I64(s[i + 1] + carry)];
    r := r[i := I64(r[i] - I64(carry * 0x20_0000))];
    assert r == Moved(s, i, carry);
    MovedValue(s, i, carry);
  }

  /** carry = s_i >> 21; s_{i+1} += carry; s_i -= carry << 21. */
  method CarryFloor(s: Digits, i: nat, ghost m: int, ghost d: int) returns (r: Digits)
    requires i < 23 && 0 <= m <= 0x1000_0000_0000_0000 && m + 0x20_0000 <= 0x20_0000 * d
    requires -m <= s[i] <= m && -m <= s[i + 1] <= m
    ensures Val(r) == Val(s) && 0 <= r[i] < 0x20_0000
    ensures s[i + 1] - d <= r[i + 1] <= s[i + 1] + d
    ensures forall j :: 0 <= j < 24 && j != i && j != i + 1 ==> r[j] == s[j]
  {
    var carry := s[i] / 0x20_0000;
    r := s[i + 1 := I64(s[i + 1] + carry)];
    r := r[i := I64(r[i] - I64(carry * 0x20_0000))];
    assert r == Moved(s, i, carry);
    MovedValue(s, i, carry);
  }

  /** Balanced carries out of the limbs i, i + 2, i + 4, ..., n. */
  method CarryAlternate(s: Digits, i: nat, n: nat, ghost m: int, ghost d: int) returns (r: Digits)
    requires i <= n < 23 && (n - i) % 2 == 0
    requires 0 <= m <= 0x1000_0000_0000_0000 && m + d + 0x20_0000 <= 0x20_0000 * d
    requires Small(s, m)
    ensures Val(r) == Val(s)
    ensures forall j :: 0 <= j < 24 && !(i <= j <= n + 1) ==> r[j] == s[j]
    ensures forall j :: i <= j <= n && (j - i) % 2 == 0 ==> -0x10_0000 <= r[j] <= 0x10_0000
    ensures forall j :: i <= j <= n + 1 && (j - i) % 2 == 1 ==> s[j] - d <= r[j] <= s[j] + d
  {
    r := s;
    var k := i;
    while k <= n
      invariant i <= k <= n + 2 && (k - i) % 2 == 0
      invariant Val(r) == Val(s)
      invariant forall j :: 0 <= j < 24 && !(i <= j < k) ==> r[j] == s[j]
      invariant forall j :: i <= j < k && (j - i) % 2 == 0 ==> -0x10_0000 <= r[j] <= 0x10_0000
      invariant forall j :: i <= j < k && (j - i) % 2 == 1 ==> s[j] - d <= r[j] <= s[j] + d
    {
      r := Carry(r, k, m, d);
      k := k + 2;
    }
  }

  /** Carries out of the limbs 0, 1, ..., n - 1 in turn, rounding down. */
  method CarryThrough(s: Digits, n: nat, ghost m: int, ghost d: int) returns (r: Digits)
    requires n <= 12 && 0 <= m <= 0x800_0000_0000_0000 && m + d + 0x20_0000 <= 0x20_0000 * d && d <= m
    requires Small(s, m)
    ensures Val(r) == Val(s)
    ensures forall j :: 0 <= j < n ==> 0 <= r[j] < 0x20_0000
    ensures forall j :: n < j < 24 ==> r[j] == s[j]
  {
    r := s;
    for i := 0 to n
      invariant Val(r) == Val(s)
      invariant forall j :: 0 <= j < i ==> 0 <= r[j] < 0x20_0000
      invariant forall j :: i < j < 24 ==> r[j] == s[j]
      invariant s[i] - d <= r[i] <= s[i] + d
    {
      r := CarryFloor(r, i, m + d, d);
    }
  }

  // -------------------------------------------------------------------------------------------
  // Folding
  // -------------------------------------------------------------------------------------------

  /** Limb k replaced by its multiple of 2^252 - l, six limbs wide. */
  function Folded(s: Digits, k: nat): Digits
    requires 12 <= k < 24
  {
    var x := s[k];
    s[k - 12 := s[k - 12] + x * 666643]
     [k - 11 := s[k - 11] + x * 470296]
     [k - 10 := s[k - 10] + x * 654183]
     [k - 9 := s[k - 9] - x * 997805]
     [k - 8 := s[k - 8] + x * 136657]
     [k - 7 := s[k - 7] - x * 683901]
     [k := 0]
  }

  lemma FoldedHigh(s: Digits, k: nat)
    requires 12 <= k < 24
    ensures ValFrom(s, k - 6) == ValFrom(Folded(s, k), k - 6) + 0x4000_0000_0000_0000_0000_0000_0000_0000 * s[k]
  {
    var r := Folded(s, k);
    ValFrame(s, r, k + 1);
    assert ValFrom(s, k) == ValFrom(r, k) + s[k];
    assert ValFrom(s, k - 1) == ValFrom(r, k - 1) + 0x20_0000 * s[k];
    assert ValFrom(s, k - 2) == ValFrom(r, k - 2) + 0x400_0000_0000 * s[k];
    assert ValFrom(s, k - 3) == ValFrom(r, k - 3) + 0x8000_0000_0000_0000 * s[k];
    assert ValFrom(s, k - 4) == ValFrom(r, k - 4) + 0x10_0000_0000_0000_0000_0000 * s[k];
    assert ValFrom(s, k - 5) == ValFrom(r, k - 5) + 0x200_0000_0000_0000_0000_0000_0000 * s[k];
  }

  lemma FoldedStep(s: Digits, k: nat, i: nat, x: int, y: int, d: int)
    requires 12 <= k < 24 && i < 24 && ValFrom(s, i + 1) == ValFrom(Folded(s, k), i + 1) + x
    requires Folded(s, k)[i] == s[i] + d && y == 0x20_0000 * x - d
    ensures ValFrom(s, i) == ValFrom(Folded(s, k), i) + y
  {
  }

  const FOLD_9: int := 0x2000000000000000000000000000000029bdf3bd45ef39ad

  lemma FoldedUpper(s: Digits, k: nat)
    requires 12 <= k < 24
    ensures ValFrom(s, k - 9) == ValFrom(Folded(s, k), k - 9) + FOLD_9 * s[k]
  {
    var x := s[k];
    FoldedHigh(s, k);
    var x6 := 0x4000_0000_0000_0000_0000_0000_0000_0000 * x;
    var x7 := 0x20_0000 * x6 + 683901 * x;
    var x8 := 0x20_0000 * x7 - 136657 * x;
    FoldedStep(s, k, k - 7, x6, x7, -683901 * x);
    FoldedStep(s, k, k - 8, x7, x8, 136657 * x);
    FoldedStep(s, k, k - 9, x8, FOLD_9 * x, -997805 * x);
  }

  lemma FoldedMiddle(s: Digits, k: nat)
    requires 12 <= k < 24
    ensures ValFrom(s, k - 12) == ValFrom(Folded(s, k), k - 12) + L * s[k]
  {
    var x := s[k];
    FoldedUpper(s, k);
    var x9 := FOLD_9 * x;
    var x10 := 0x20_0000 * x9 - 654183 * x;
    var x11 := 0x20_0000 * x10 - 470296 * x;
    FoldedStep(s, k, k - 10, x9, x10, 654183 * x);
    FoldedStep(s, k, k - 11, x10, x11, 470296 * x);
    FoldedStep(s, k, k - 12, x11, L * x, 666643 * x);
  }

  /** Folding takes a multiple of l away. */
  lemma {:induction false} FoldedFrom(s: Digits, k: nat, i: nat) returns (q: int)
    requires 12 <= k < 24 && i <= k - 12
    ensures ValFrom(s, i) == ValFrom(Folded(s, k), i) + L * q
    ensures i == k - 12 ==> q == s[k]
    decreases k - 12 - i
  {
    if i == k - 12 {
      FoldedMiddle(s, k);
      q := s[k];
    } else {
      var p := FoldedFrom(s, k, i + 1);
      q := 0x20_0000 * p;
    }
  }

  /** s_{k-12} += s_k * 666643; ...; s_{k-7} -= s_k * 683901; s_k = 0. */
  method Fold(s: Digits, k: nat, ghost m: int, ghost b: int) returns (r: Digits, ghost q: int)
    requires 12 <= k < 24 && 0 <= m <= 0x1000_0000_0000_0000 && 0 <= b <= 0x100_0000_0000
    requires -b <= s[k] <= b && forall j :: k - 12 <= j < k - 6 ==> -m <= s[j] <= m
    ensures r == Folded(s, k) && Val(s) == Val(r) + L * q && (k == 12 ==> q == s[12])
    ensures forall j :: 0 <= j < 24 && j != k && !(k - 12 <= j < k - 6) ==> r[j] == s[j]
    ensures r[k] == 0 && forall j :: k - 12 <= j < k - 6 ==> s[j] - 997805 * b <= r[j] <= s[j] + 997805 * b
  {
    var x := s[k];
    r := s[k - 12 := I64(s[k - 12] + I64(x * 666643))];
    r := r[k - 11 := I64(r[k - 11] + I64(x * 470296))];
    r := r[k - 10 := I64(r[k - 10] + I64(x * 654183))];
    r := r[k - 9 := I64(r[k - 9] - I64(x * 997805))];
    r := r[k - 8 := I64(r[k - 8] + I64(x * 136657))];
    r := r[k - 7 := I64(r[k - 7] - I64(x * 683901))];
    r := r[k := 0];
    q := FoldedFrom(s, k, 0);
  }
}
