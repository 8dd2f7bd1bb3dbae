/** The reduction that sc_reduce and sc_muladd share: two rounds of folding and carrying, then two
    exact folds of the limb s12 (keypair/sc.c). */
module ScalarReduction {
  import opened Machine
  import opened ScalarLimbs

  const TWO_252: int := 0x1000_0000_0000_0000_0000_0000_0000_0000_0000_0000_0000_0000_0000_0000_0000_0000

  lemma OneMore(n: int, w: int, x: int)
    requires x == n * w && 0 <= n < 6 && 0 <= w
    ensures x + w == (n + 1) * w && x + w <= 6 * w
  {
    MulMonotone(w, n + 1, 6);
  }

  /** Folds the six limbs h, h - 1, ..., h - 5. */
  method FoldSix(s: Digits, h: nat, ghost m: int, ghost b: int, ghost w: int) returns (r: Digits, ghost q: int)
    requires 17 <= h < 24 && 0 <= m <= 0x100_0000_0000_0000 && 0 <= b <= 0x10_0000_0000 && w == 997805 * b
    requires Small(s, m) && forall j :: h - 5 <= j <= h ==> -b <= s[j] <= b
    ensures Val(s) == Val(r) + L * q
    ensures forall j :: h - 5 <= j <= h ==> r[j] == 0
    ensures forall j :: h < j < 24 || j == h - 6 ==> r[j] == s[j]
    ensures forall j :: 0 <= j < h - 6 ==> -m - 6 * w <= r[j] <= m + 6 * w
  {
    r, q := s, 0;
    var k := h;
    ghost var x := 0;
    while k > h - 6
      invariant h - 6 <= k <= h && x == (h - k) * w && x <= 6 * w
      invariant Val(s) == Val(r) + L * q
      invariant forall j :: h - 6 <= j <= k ==> r[j] == s[j]
      invariant forall j :: k < j <= h ==> r[j] == 0
      invariant forall j :: h < j < 24 || j == h - 6 ==> r[j] == s[j]
      invariant forall j :: 0 <= j < h - 6 ==> -m - x <= r[j] <= m + x
    {
      OneMore(h - k, w, x);
      ghost var p;
      r, p := Fold(r, k, m + x, b);
      q, x := q + p, x + w;
      k := k - 1;
    }
  }

  /** Limbs 18 to 23, then carries out of 6 to 16, then limbs 12 to 17. */
  method FoldHigh(s: Digits) returns (r: Digits, ghost q: int)
    requires Small(s, 0x2_0000_0000)
    ensures Val(s) == Val(r) + L * q && Small(r, 0x800_0000_0000_0000)
    ensures forall j :: 12 <= j < 24 ==> r[j] == 0
  {
    ghost var p;
    r, q := FoldSix(s, 23, 0x2_0000_0000, 0x2_0000_0000, 997805 * 0x2_0000_0000);
    r := CarryAlternate(r, 6, 16, 0xE0_0000_0000_0000, 0x8_0000_0000);
    r := CarryAlternate(r, 7, 15, 0xF0_0000_0000_0000, 0x8_0000_0000);
    r, p := FoldSix(r, 17, 0x100_0000_0000_0000, 0x10_0000_0000, 997805 * 0x10_0000_0000);
    q := q + p;
  }

  /** The limbs after the last balanced carries. */
  predicate Balanced(r: Digits) {
    && (forall j :: 0 <= j < 6 ==> -0x800_0000_0000_0000 <= r[j] <= 0x800_0000_0000_0000)
    && (forall j :: 6 <= j < 11 ==> -0x100_0000_0000 <= r[j] <= 0x100_0000_0000)
    && -0x10_0000 <= r[11] <= 0x10_0000
    && forall j :: 12 <= j < 24 ==> r[j] == 0
  }

  /** Carries out of 0 to 11, even limbs first, then limb 12. */
  method Balance(s: Digits) returns (r: Digits, ghost q: int)
    requires Small(s, 0x800_0000_0000_0000) && forall j :: 12 <= j < 24 ==> s[j] == 0
    ensures Val(s) == Val(r) + L * q && Balanced(r)
  {
    r := CarryAlternate(s, 0, 10, 0x800_0000_0000_0000, 0x80_0000_0000);
    r := CarryAlternate(r, 1, 11, 0x800_0080_0000_0000, 0x80_0000_0000);
    r, q := Fold(r, 12, 0x100_0000_0000, 0x80_0000_0000);
  }

  lemma ValOfTwelve(r: Digits)
    requires forall j :: 13 <= j < 24 ==> r[j] == 0
    ensures Val(r) == r[0] + 0x20_0000 * (r[1] + 0x20_0000 * (r[2] + 0x20_0000 * (r[3] + 0x20_0000 * (r[4] +
                      0x20_0000 * (r[5] + 0x20_0000 * (r[6] + 0x20_0000 * (r[7] + 0x20_0000 * (r[8] +
                      0x20_0000 * (r[9] + 0x20_0000 * (r[10] + 0x20_0000 * (r[11] + 0x20_0000 * r[12])))))))))))
  {
    ValZeros(r, 13);
    assert ValFrom(r, 12) == r[12] + 0x20_0000 * ValFrom(r, 13);
    assert ValFrom(r, 10) == r[10] + 0x20_0000 * ValFrom(r, 11);
    assert ValFrom(r, 9) == r[9] + 0x20_0000 * ValFrom(r, 10);
    assert ValFrom(r, 7) == r[7] + 0x20_0000 * ValFrom(r, 8);
    assert ValFrom(r, 5) == r[5] + 0x20_0000 * ValFrom(r, 6);
    assert ValFrom(r, 3) == r[3] + 0x20_0000 * ValFrom(r, 4);
    assert ValFrom(r, 1) == r[1] + 0x20_0000 * ValFrom(r, 2);
  }

  lemma {:induction false} ValZeros(s: Digits, i: nat)
    requires i <= 24 && forall j :: i <= j < 24 ==> s[j] == 0
    ensures ValFrom(s, i) == 0
    decreases 24 - i
  {
    if i < 24 {
      ValZeros(s, i + 1);
    }
  }

  /** After the balanced carries the value lies strictly between -2^252 and 2^252. */
  lemma BalancedValue(r: Digits)
    requires Balanced(r)
    ensures -TWO_252 < Val(r) < TWO_252
  {
    ValOfTwelve(r);
  }

  /** Twelve limbs of 21 bits, and what the carry out of the last one is: the value divided by 2^252. */
  lemma CarriedValue(r: Digits)
    requires forall j :: 0 <= j < 12 ==> 0 <= r[j] < 0x20_0000
    requires forall j :: 13 <= j < 24 ==> r[j] == 0
    ensures TWO_252 * r[12] <= Val(r) < TWO_252 * r[12] + TWO_252
  {
    ValOfTwelve(r);
  }

  predicate Finished(r: Digits) {
    && (forall j :: 0 <= j < 11 ==> 0 <= r[j] < 0x20_0000)
    && (forall j :: 12 <= j < 24 ==> r[j] == 0)
  }

  /** The last digit folded is -1 or 0, so the result is fully reduced. */
  method Finish(s: Digits) returns (r: Digits, ghost q: int)
    requires Balanced(s)
    ensures Val(s) == Val(r) + L * q && 0 <= Val(r) < L
    ensures Finished(r)
  {
    BalancedValue(s);
    r := CarryThrough(s, 12, 0x800_0000_0000_0000, 0x80_0000_0000);
    CarriedValue(r);
    assert -1 <= r[12] <= 0;
    r, q := Fold(r, 12, 0x20_0000, 1);
    r := CarryThrough(r, 11, 0x40_0000, 0x20_0000);
  }

  lemma FinishedValue(r: Digits)
    requires Finished(r) && 0 <= Val(r) < L
    ensures 0 <= r[11] < 0x40_0000
  {
    ValOfTwelve(r);
  }

  lemma Residue(v: int, r: int, q: int)
    requires v == r + L * q && 0 <= r < L
    ensures r == v % L
  {
  }

  /** From 24 limbs to the residue mod l. */
  method Reduce(s: Digits) returns (r: Digits)
    requires Small(s, 0x2_0000_0000)
    ensures Val(r) == Val(s) % L && Finished(r) && 0 <= r[11] < 0x40_0000
  {
    ghost var q0, q1, q2;
    r, q0 := FoldHigh(s);
    r, q1 := Balance(r);
    r, q2 := Finish(r);
    FinishedValue(r);
    Residue(Val(s), Val(r), q0 + q1 + q2);
  }
}
