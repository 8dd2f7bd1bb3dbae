/** Field elements as ten signed limbs (keypair/fe.h), their carry chains, and the integer and
    residue they represent.

    The local limbs h0..h9 of a C function are one sequence that a method reassigns; one carry
    `c = (h_i + half) >> bits; h_{i+1} += c; h_i -= c << bits` is one call of Carry. */
module FieldElement {
  import opened Machine
  import opened PrimeField

  type Limbs = s: seq<int> | |s| == 10 witness [0, 0, 0, 0, 0, 0, 0, 0, 0, 0]

  // -------------------------------------------------------------------------------------------
  // The integer that limbs represent
  // -------------------------------------------------------------------------------------------

  function ValFrom(h: Limbs, i: nat): int
    requires i <= 10
    decreases 10 - i, h
  {
    if i == 10 then 0
    else if i % 2 == 0 then h[i] + 0x400_0000 * ValFrom(h, i + 1)
    else h[i] + 0x200_0000 * ValFrom(h, i + 1)
  }

  /** h[0] + 2^26 h[1] + 2^51 h[2] + 2^77 h[3] + ... + 2^230 h[9], in mixed-radix Horner form. */
  function Val(h: Limbs): int {
    ValFrom(h, 0)
  }

  lemma ValExplicit(h: Limbs)
    ensures Val(h) == h[0] + 0x400_0000 * h[1] + 0x8_0000_0000_0000 * h[2]
                      + 0x2000_0000_0000_0000_0000 * h[3] + 0x40_0000_0000_0000_0000_0000_0000 * h[4]
                      + 0x1_0000_0000_0000_0000_0000_0000_0000_0000 * h[5]
                      + 0x200_0000_0000_0000_0000_0000_0000_0000_0000_0000 * h[6]
                      + 0x8_0000_0000_0000_0000_0000_0000_0000_0000_0000_0000_0000 * h[7]
                      + 0x1000_0000_0000_0000_0000_0000_0000_0000_0000_0000_0000_0000_0000 * h[8]
                      + 0x40_0000_0000_0000_0000_0000_0000_0000_0000_0000_0000_0000_0000_0000_0000 * h[9]
  {
    assert ValFrom(h, 9) == h[9] + 0x200_0000 * ValFrom(h, 10);
    assert ValFrom(h, 7) == h[7] + 0x200_0000 * ValFrom(h, 8);
    assert ValFrom(h, 5) == h[5] + 0x200_0000 * ValFrom(h, 6);
    assert ValFrom(h, 3) == h[3] + 0x200_0000 * ValFrom(h, 4);
    assert ValFrom(h, 1) == h[1] + 0x200_0000 * ValFrom(h, 2);
  }

  lemma {:induction false} ValFrame(s: Limbs, r: Limbs, i: nat)
    requires i <= 10 && s[i..] == r[i..]
    ensures ValFrom(s, i) == ValFrom(r, i)
    decreases 10 - i
  {
    if i < 10 {
      assert s[i..][1..] == s[i + 1..] && r[i..][1..] == r[i + 1..] && s[i..][0] == r[i..][0];
      ValFrame(s, r, i + 1);
    }
  }

  // -------------------------------------------------------------------------------------------
  // Bounds
  // -------------------------------------------------------------------------------------------

  /** Even limbs are at most c/100 * 2^25 in magnitude and odd limbs at most c/100 * 2^24.
      The bounds in the comments of fe.c are c = 101, 110, 220 and 330 (1.65 * 2^26). */
  predicate Within(h: Limbs, c: int) {
    forall i :: 0 <= i < 10 ==>
      if i % 2 == 0 then -c * 0x200_0000 <= 100 * h[i] <= c * 0x200_0000
      else -c * 0x100_0000 <= 100 * h[i] <= c * 0x100_0000
  }

  predicate Small(h: Limbs, m: int) {
    forall i :: 0 <= i < 10 ==> -m <= h[i] <= m
  }

  lemma WithinFrom(r: Limbs, odd: int, c: int)
    requires -0x200_0000 <= r[0] <= 0x200_0000 && -odd <= r[1] <= odd
    requires -0x200_0000 <= r[2] <= 0x200_0000 && -odd <= r[3] <= odd
    requires -0x200_0000 <= r[4] <= 0x200_0000 && -odd <= r[5] <= odd
    requires -0x200_0000 <= r[6] <= 0x200_0000 && -odd <= r[7] <= odd
    requires -0x200_0000 <= r[8] <= 0x200_0000 && -odd <= r[9] <= odd
    requires 100 <= c && 100 * odd <= c * 0x100_0000
    ensures Within(r, c)
  {
  }

  lemma WithinMonotone(h: Limbs, c: int, d: int)
    requires Within(h, c) && c <= d
    ensures Within(h, d)
  {
  }

  // -------------------------------------------------------------------------------------------
  // Carries
  // -------------------------------------------------------------------------------------------

  /** (x + half) >> bits, where limb i has `bits` bits. */
  function Quotient(x: int, i: nat): (c: int)
    ensures i % 2 == 0 ==> -0x200_0000 <= x - c * 0x400_0000 < 0x200_0000
    ensures i % 2 == 1 ==> -0x100_0000 <= x - c * 0x200_0000 < 0x100_0000
  {
    if i % 2 == 0 then (x + 0x200_0000) / 0x400_0000 else (x + 0x100_0000) / 0x200_0000
  }

  function Shifted(c: int, i: nat): int {
    if i % 2 == 0 then c * 0x400_0000 else c * 0x200_0000
  }

  /** The limbs after the rounded high part of limb i moves to limb i + 1, or, from limb 9 and times
      19, to limb 0. */
  function Carried(h: Limbs, i: nat): Limbs
    requires i < 10
  {
    var c := Quotient(h[i], i);
    var n := (i + 1) % 10;
    h[n := h[n] + if i == 9 then 19 * c else c][i := h[i] - Shifted(c, i)]
  }

  lemma {:induction false} CarriedFrom(h: Limbs, i: nat, j: nat)
    requires j <= i < 9
    ensures ValFrom(Carried(h, i), j) == ValFrom(h, j)
    decreases i - j
  {
    var r := Carried(h, i);
    if j < i {
      CarriedFrom(h, i, j + 1);
    } else {
      assert h[i + 2..] == r[i + 2..];
      ValFrame(h, r, i + 2);
      assert ValFrom(h, i + 1) - ValFrom(r, i + 1) == h[i + 1] - r[i + 1];
    }
  }

  lemma CarriedWrap(h: Limbs)
    ensures Val(Carried(h, 9)) == Val(h) - P * Quotient(h[9], 9)
  {
    var c := Quotient(h[9], 9);
    var r := Carried(h, 9);
    assert r[0] == h[0] + 19 * c && r[9] == h[9] - 0x200_0000 * c;
    ValExplicit(h);
    ValExplicit(r);
  }

  /** A carry keeps the represented integer, except that the one out of limb 9 takes a multiple of p away. */
  lemma CarriedValue(h: Limbs, i: nat)
    requires i < 10
    ensures i < 9 ==> Val(Carried(h, i)) == Val(h)
    ensures Cong(Val(Carried(h, i)), Val(h))
  {
    if i < 9 {
      CarriedFrom(h, i, 0);
      CongBy(Val(h), Val(h), 0);
    } else {
      CarriedWrap(h);
      CongBy(Val(Carried(h, 9)), Val(h), -Quotient(h[9], 9));
    }
  }

  lemma CarriedSmall(h: Limbs, i: nat, m: int)
    requires i < 10 && Small(h, m) && 0x200_0000 <= m <= 0x6000_0000_0000_0000
    ensures Small(Carried(h, i), m + 0x800_0000_0000)
  {
  }

  /** One carry in int64_t arithmetic. */
  method Carry(h: Limbs, i: nat, ghost m: int) returns (r: Limbs)
    requires i < 10 && Small(h, m) && 0x200_0000 <= m <= 0x6000_0000_0000_0000
    ensures r == Carried(h, i)
    ensures Small(r, m + 0x800_0000_0000)
    ensures if i % 2 == 0 then -0x200_0000 <= r[i] < 0x200_0000 else -0x100_0000 <= r[i] < 0x100_0000
    ensures forall j :: 0 <= j < 10 && j != i && j != (i + 1) % 10 ==> r[j] == h[j]
    ensures var x, d := (if h[i] < 0 then -h[i] else h[i]), r[(i + 1) % 10] - h[(i + 1) % 10];
            if i == 9 then -19 * (x + 0x100_0000) <= 0x200_0000 * d <= 19 * (x + 0x100_0000)
            else if i % 2 == 1 then -x - 0x100_0000 <= 0x200_0000 * d <= x + 0x100_0000
            else -x - 0x200_0000 <= 0x400_0000 * d <= x + 0x200_0000
  {
    var c := if i % 2 == 0 then I64(h[i] + 0x200_0000) / 0x400_0000 else I64(h[i] + 0x100_0000) / 0x200_0000;
    var n := (i + 1) % 10;
    r := h[n := I64(h[n] + if i == 9 then I64(19 * c) else c)];
    r := r[i := I64(r[i] - I64(Shifted(c, i)))];
  }
}
