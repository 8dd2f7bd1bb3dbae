/** ed25519_key_exchange (keypair/key_exchange.c): a Montgomery ladder on the u-coordinate of the public
    key, with the swaps of the registers put off to the next step. */
module KeyExchange {
  import opened Bits
  import opened Bytes
  import opened Power
  import opened PrimeField
  import opened PrimeModulus
  import opened CurveGroup
  import opened FieldElement
  import opened FieldOps
  import opened FieldBytes
  import opened FieldPower
  import opened GeDecoding
  import opened Recoding
  import opened Montgomery
  import opened Ladder
  import Ed25519

  /** Four registers. */
  datatype Registers = Registers(x2: Limbs, z2: Limbs, x3: Limbs, z3: Limbs)

  /** The bounds that a step asks for and keeps. */
  ghost predicate Tight(r: Registers) {
    Within(r.x2, 110) && Within(r.z2, 110) && Within(r.x3, 110) && Within(r.z3, 110)
  }

  function Values(r: Registers): Pairs {
    Pairs(Val(r.x2), Val(r.z2), Val(r.x3), Val(r.z3))
  }

  /** The registers hold the pairs, in the other order if a swap is pending. */
  ghost predicate Hold(r: Registers, s: Pairs, swap: nat) {
    Tight(r) && Same(Values(r), if swap == 0 then s else Swapped(s))
  }

  /** fe_cswap of both pairs. */
  method SwapRegisters(r: Registers, swap: nat) returns (s: Registers)
    requires swap <= 1 && Tight(r)
    ensures s == if swap == 1 then Registers(r.x3, r.z3, r.x2, r.z2) else r
  {
    WithinFits(r.x2, 110);
    WithinFits(r.z2, 110);
    WithinFits(r.x3, 110);
    WithinFits(r.z3, 110);
    var x2, x3 := FeCswap(r.x2, r.x3, swap);
    var z2, z3 := FeCswap(r.z2, r.z3, swap);
    s := Registers(x2, z2, x3, z3);
  }

  lemma SumsOf(s: Pairs, t: Pairs)
    requires Same(s, t)
    ensures Cong(s.x2 + s.z2, t.x2 + t.z2) && Cong(s.x2 - s.z2, t.x2 - t.z2)
    ensures Cong(s.x3 + s.z3, t.x3 + t.z3) && Cong(s.x3 - s.z3, t.x3 - t.z3)
  {
    SumsCong(s.x2, t.x2, s.z2, t.z2);
    SumsCong(s.x3, t.x3, s.z3, t.z3);
  }

  /** What the products of the loop body make of the registers. */
  lemma StepCong(s: Pairs, t: Pairs, u: int, v: int, da: int, cb: int, aa: int, bb: int, f: int, square: int, r: Pairs)
    requires Same(s, t) && Cong(u, v)
    requires Cong(da, (s.x3 - s.z3) * (s.x2 + s.z2)) && Cong(cb, (s.x3 + s.z3) * (s.x2 - s.z2))
    requires Cong(aa, (s.x2 + s.z2) * (s.x2 + s.z2)) && Cong(bb, (s.x2 - s.z2) * (s.x2 - s.z2))
    requires Cong(f, 121666 * (aa - bb)) && Cong(square, (da - cb) * (da - cb))
    requires Cong(r.x2, aa * bb) && Cong(r.z2, (aa - bb) * (bb + f))
    requires Cong(r.x3, (da + cb) * (da + cb)) && Cong(r.z3, u * square)
    ensures Same(r, Advanced(v, t))
  {
    var a, b, c, d := t.x2 + t.z2, t.x2 - t.z2, t.x3 + t.z3, t.x3 - t.z3;
    SumsOf(s, t);
    SquareCong(aa, s.x2 + s.z2, a);
    SquareCong(bb, s.x2 - s.z2, b);
    ProductCong(da, s.x3 - s.z3, s.x2 + s.z2, d, a);
    ProductCong(cb, s.x3 + s.z3, s.x2 - s.z2, c, b);
    DoubledHalf(aa, bb, f, a * a, b * b, r.x2, r.z2);
    SummedHalf(da, cb, u, d * a, c * b, v, square, r.x3, r.z3);
  }

  /** The body of the loop after the swaps, for registers of any value. */
  method Step(x1: Limbs, r: Registers, ghost v: int, ghost t: Pairs) returns (s: Registers)
    requires Within(x1, 101) && Cong(Val(x1), v) && Tight(r) && Same(Values(r), t)
    ensures Tight(s) && Same(Values(s), Advanced(v, t))
  {
    hide Within, Val, Same, Advanced;
    var tmp0 := FeSub(r.x3, r.z3, 110, 110);
    var tmp1 := FeSub(r.x2, r.z2, 110, 110);
    var x2 := FeAdd(r.x2, r.z2, 110, 110);
    var z2 := FeAdd(r.x3, r.z3, 110, 110);
    var z3 := FeMul(tmp0, x2, 220, 220);
    z2 := FeMul(z2, tmp1, 220, 220);
    ghost var da, cb := Val(z3), Val(z2);
    tmp0 := FeSq(tmp1, 220);
    tmp1 := FeSq(x2, 220);
    ghost var bb, aa := Val(tmp0), Val(tmp1);
    var x3 := FeAdd(z3, z2, 101, 101);
    z2 := FeSub(z3, z2, 101, 101);
    x2 := FeMul(tmp1, tmp0, 101, 101);
    tmp1 := FeSub(tmp1, tmp0, 101, 101);
    z2 := FeSq(z2, 202);
    z3 := FeMul121666(tmp1, 202);
    ghost var f, square := Val(z3), Val(z2);
    x3 := FeSq(x3, 202);
    tmp0 := FeAdd(tmp0, z3, 101, 110);
    z3 := FeMul(x1, z2, 101, 101);
    z2 := FeMul(tmp1, tmp0, 202, 211);
    WithinMonotone(x2, 101, 110);
    WithinMonotone(z2, 101, 110);
    WithinMonotone(x3, 101, 110);
    WithinMonotone(z3, 101, 110);
    s := Registers(x2, z2, x3, z3);
    StepCong(Values(r), t, Val(x1), v, da, cb, aa, bb, f, square, Values(s));
  }

  /** swap ^= b */
  function Xor1(swap: nat, b: nat): (s: nat)
    requires swap <= 1 && b <= 1
    ensures s == if swap == b then 0 else 1
  {
    Xor(swap, b)
  }

  /** One turn of the loop: the pending swap and that of the bit are made together, and the swap back is
      left for later.  The registers hold what the ladder without swaps has. */
  method LadderStep(x1: Limbs, r: Registers, swap: nat, b: nat, ghost v: int, ghost t: Pairs) returns (s: Registers)
    requires swap <= 1 && b <= 1 && Within(x1, 101) && Cong(Val(x1), v) && Hold(r, t, swap)
    ensures Hold(s, WithBit(v, t, b), b)
  {
    hide Cong, Advanced;
    s := SwapRegisters(r, Xor1(swap, b));
    s := Step(x1, s, v, if b == 0 then t else Swapped(t));
  }

  /** u of the public key, (y + 1)/(1 - y), for any 32 bytes. */
  method PublicU(publicKey: seq<Byte>) returns (x1: Limbs)
    requires |publicKey| == 32
    ensures Within(x1, 101) && Cong(Val(x1), U(DecodedY(publicKey)))
  {
    x1 := FeFromBytes(publicKey);
    ghost var y := Val(x1);
    var tmp1 := FeConst(1);
    var tmp0 := FeAdd(x1, tmp1, 110, 1);
    tmp1 := FeSub(tmp1, x1, 1, 110);
    tmp1 := FeInvert(tmp1, 111);
    x1 := FeMul(tmp0, tmp1, 111, 101);
    UOfResidue(y, LE(publicKey) % FieldBytes.TWO_255, Val(tmp1), Val(x1));
  }

  lemma UOfResidue(y: int, n: int, inverse: int, u: int)
    requires Cong(y, n) && Cong(inverse, Pow(1 - y, P - 2)) && Cong(u, (y + 1) * inverse)
    ensures Cong(u, U(n % P))
  {
    CurveGroup.QuotientIs(1 + n % P, 1 - n % P);
    CongSelf(n);
    CongTrans(y, n, n % P);
    CongSelf(1);
    CongAdd(1, 1, y, n % P);
    CongPow(1 - y, 1 - n % P, P - 2);
    CongTrans(inverse, Pow(1 - y, P - 2), Pow(1 - n % P, P - 2));
    CongMul(y + 1, 1 + n % P, inverse, Pow(1 - n % P, P - 2));
    CongTrans(u, (y + 1) * inverse, (1 + n % P) * Pow(1 - n % P, P - 2));
    CongSelf((1 + n % P) * Pow(1 - n % P, P - 2));
    CongTrans(u, (1 + n % P) * Pow(1 - n % P, P - 2), U(n % P));
  }

  lemma StartHolds(x1: Limbs, one: Limbs, zero: Limbs, v: int)
    requires Within(x1, 101) && Within(one, 1) && Within(zero, 1) && Val(one) == 1 && Val(zero) == 0 && Cong(Val(x1), v)
    ensures Hold(Registers(one, zero, x1, one), Pairs(1, 0, v, 1), 0)
  {
    CongSelf(1);
    CongSelf(0);
    WithinMonotone(x1, 101, 110);
    WithinMonotone(one, 1, 110);
    WithinMonotone(zero, 1, 110);
  }

  /** The loop of 255 steps and the last swap. */
  method RunLadder(x1: Limbs, e: seq<Byte>, ghost v: int) returns (x2: Limbs, z2: Limbs)
    requires Within(x1, 101) && Cong(Val(x1), v) && |e| == 32
    ensures var s := Run(v, ScalarBits(e), 0);
            Within(x2, 110) && Within(z2, 110) && Cong(Val(x2), s.x2) && Cong(Val(z2), s.z2)
  {
    hide Cong, WithBit;
    var one := FeConst(1);
    var zero := FeConst(0);
    var r := Registers(one, zero, x1, one);
    var swap: nat := 0;
    ghost var bits := ScalarBits(e);
    StartHolds(x1, one, zero, v);
    var pos := 255;
    while pos > 0
      invariant 0 <= pos <= 255 && swap <= 1
      invariant Hold(r, Run(v, bits, pos), swap)
    {
      pos := pos - 1;
      var b := BitOf(e[pos / 8], pos % 8);
      BitIs(e[pos / 8], pos % 8);
      r := LadderStep(x1, r, swap, b, v, Run(v, bits, pos + 1));
      swap := b;
      assert Run(v, bits, pos) == NextRun(v, bits, pos);
    }
    r := SwapRegisters(r, swap);
    x2, z2 := r.x2, r.z2;
  }

  lemma QuotientCong(x: int, z: int, i: int, r: int, a: int, b: int)
    requires Cong(x, a) && Cong(z, b) && Cong(i, Pow(z, P - 2)) && Cong(r, x * i)
    ensures r % P == CurveGroup.Quotient(a, b)
  {
    CurveGroup.QuotientIs(a, b);
    CongPow(z, b, P - 2);
    CongTrans(i, Pow(z, P - 2), Pow(b, P - 2));
    ProductCong(r, x, i, a, Pow(b, P - 2));
    CongMod(r, a * Pow(b, P - 2));
  }

  /** ed25519_key_exchange, for every public key and every private key. */
  method KeyExchange(sharedSecret: array<Byte>, publicKey: seq<Byte>, privateKey: seq<Byte>)
    requires |publicKey| == |privateKey| == 32 && sharedSecret.Length >= 32
    modifies sharedSecret
    ensures LE(sharedSecret[..32]) == SharedSecret(publicKey, privateKey)
    ensures sharedSecret[32..] == old(sharedSecret[32..])
  {
    hide U, Run, CurveGroup.Quotient, Ed25519.Clamped;
    var e := new Byte[32];
    Store(e, 0, privateKey);
    assert e[..] == privateKey;
    Ed25519.Clamp(e);
    var x1 := PublicU(publicKey);
    ghost var v := U(DecodedY(publicKey));
    var x2, z2 := RunLadder(x1, e[..], v);
    ghost var s, x := Run(v, ScalarBits(e[..]), 0), Val(x2);
    var i := FeInvert(z2, 110);
    x2 := FeMul(x2, i, 110, 101);
    WithinMonotone(x2, 101, 220);
    QuotientCong(x, Val(z2), Val(i), Val(x2), s.x2, s.z2);
    FeToBytes(sharedSecret, x2);
  }
}
