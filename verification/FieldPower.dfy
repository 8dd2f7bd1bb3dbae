/** fe_invert and fe_pow22523: fixed addition chains of squarings and products (keypair/fe.c). */
module FieldPower {
  import opened Bits
  import opened Power
  import opened PrimeField
  import opened FieldElement
  import opened FieldOps

  /** The limbs h represent z^e and may enter a product. */
  ghost predicate IsPower(h: Limbs, z: int, e: nat) {
    Within(h, 330) && Cong(Val(h), Pow(z, e))
  }

  lemma PowerProduct(h: int, f: int, g: int, z: int, a: nat, b: nat)
    requires Cong(h, f * g) && Cong(f, Pow(z, a)) && Cong(g, Pow(z, b))
    ensures Cong(h, Pow(z, a + b))
  {
    CongMul(f, Pow(z, a), g, Pow(z, b));
    PowAdd(z, a, b);
    CongTrans(h, f * g, Pow(z, a + b));
  }

  method MulPower(f: Limbs, g: Limbs, ghost z: int, ghost a: nat, ghost b: nat, ghost e: nat) returns (h: Limbs)
    requires e == a + b && IsPower(f, z, a) && IsPower(g, z, b)
    ensures IsPower(h, z, e) && Within(h, 101)
  {
    h := FeMul(f, g, 330, 330);
    PowerProduct(Val(h), Val(f), Val(g), z, a, b);
    WithinMonotone(h, 101, 330);
  }

  method SqOnce(f: Limbs, ghost z: int, ghost a: nat, ghost e: nat) returns (h: Limbs)
    requires e == a + a && IsPower(f, z, a)
    ensures IsPower(h, z, e)
  {
    h := FeSq(f, 330);
    PowerProduct(Val(h), Val(f), Val(f), z, a, a);
    WithinMonotone(h, 101, 330);
  }

  /** fe_sq(h, f), then k - 1 times fe_sq(h, h). */
  method SqPower(f: Limbs, k: nat, ghost z: int, ghost a: nat, ghost e: nat) returns (h: Limbs)
    requires k > 0 && e == Shl(a, k) && IsPower(f, z, a)
    ensures IsPower(h, z, e)
  {
    assert Shl(a, 1) == 2 * Shl(a, 0);
    h := SqOnce(f, z, a, Shl(a, 1));
    for i := 1 to k
      invariant IsPower(h, z, Shl(a, i))
    {
      h := SqOnce(h, z, Shl(a, i), Shl(a, i + 1));
    }
  }

  /** Squaring z^(2^n - 1) k times and multiplying by z^(2^k - 1) gives z^(2^(n + k) - 1). */
  lemma {:induction false} Ones(n: nat, k: nat)
    ensures Shl(Pow2(n) - 1, k) + Pow2(k) == Pow2(n + k)
  {
    if k > 0 {
      Ones(n, k - 1);
    }
  }

  /** One link of the chain: f^(2^k) g, for f = z^(2^n - 1) and g = z^(2^k - 1). */
  method Link(f: Limbs, g: Limbs, ghost z: int, ghost n: nat, k: nat) returns (h: Limbs)
    requires k > 0 && IsPower(f, z, Pow2(n) - 1) && IsPower(g, z, Pow2(k) - 1)
    ensures IsPower(h, z, Pow2(n + k) - 1)
  {
    Ones(n, k);
    h := SqPower(f, k, z, Pow2(n) - 1, Shl(Pow2(n) - 1, k));
    h := MulPower(h, g, z, Shl(Pow2(n) - 1, k), Pow2(k) - 1, Pow2(n + k) - 1);
  }

  /** From z^(2^n - 1) to z^(2^(10 n) - 1); the C code has n = 5. */
  method ChainStart(z1: Limbs, n: nat, ghost z: int) returns (a: Limbs)
    requires n > 0 && IsPower(z1, z, Pow2(n) - 1)
    ensures IsPower(a, z, Pow2(10 * n) - 1)
  {
    hide IsPower, Pow2;
    a := Link(z1, z1, z, n, n);
    var b := Link(a, a, z, 2 * n, 2 * n);
    b := Link(b, b, z, 4 * n, 4 * n);
    a := Link(b, a, z, 8 * n, 2 * n);
  }

  /** From z^(2^n - 1) to z^(2^(5 n) - 1); the C code has n = 50. */
  method ChainEnd(z1: Limbs, n: nat, ghost z: int) returns (a: Limbs)
    requires n > 0 && IsPower(z1, z, Pow2(n) - 1)
    ensures IsPower(a, z, Pow2(5 * n) - 1)
  {
    hide IsPower, Pow2;
    var b := Link(z1, z1, z, n, n);
    b := Link(b, b, z, 2 * n, 2 * n);
    a := Link(b, z1, z, 4 * n, n);
  }

  /** z^(2^250 - 1) from z^31. */
  method LongChain(z1: Limbs, ghost z: int) returns (a: Limbs)
    requires IsPower(z1, z, 31)
    ensures IsPower(a, z, TWO_250 - 1)
  {
    assert Pow2(5) == 32;
    a := ChainStart(z1, 5, z);
    a := ChainEnd(a, 50, z);
    Pow2Of250();
  }

  const TWO_250: nat := 0x400_0000_0000_0000_0000_0000_0000_0000_0000_0000_0000_0000_0000_0000_0000_0000

  lemma Pow2Of100()
    ensures Pow2(50) == 0x4_0000_0000_0000 && Pow2(100) == 0x10_0000_0000_0000_0000_0000_0000
  {
    PowersOfTwo();
    assert Pow2(25) == 2 * Pow2(24);
    Pow2Add(25, 25);
    Pow2Add(50, 50);
  }

  lemma Pow2Of250()
    ensures Pow2(250) == TWO_250
  {
    Pow2Of100();
    Pow2Add(100, 100);
    Pow2Add(200, 50);
  }

  lemma PowOne(x: int)
    ensures Pow(x, 1) == x && Cong(x, Pow(x, 1))
  {
    assert Pow(x, 1) == x * Pow(x, 0);
    CongBy(x, x, 0);
  }

  lemma DoubledBy(a: nat)
    ensures Shl(a, 1) == 2 * a && Shl(a, 2) == 4 * a && Shl(a, 5) == 32 * a
  {
    assert Shl(a, 1) == 2 * Shl(a, 0);
    assert Shl(a, 3) == 2 * Shl(a, 2);
    assert Shl(a, 5) == 2 * Shl(a, 4);
  }

  /** z^11, z^9 and z^31: how both chains start. */
  method Begin(z: Limbs) returns (t0: Limbs, t1: Limbs)
    requires Within(z, 330)
    ensures IsPower(t0, Val(z), 11) && IsPower(t1, Val(z), 31)
  {
    ghost var v := Val(z);
    PowOne(v);
    DoubledBy(1);
    DoubledBy(2);
    DoubledBy(11);
    t0 := SqPower(z, 1, v, 1, 2);
    t1 := SqPower(t0, 2, v, 2, 8);
    t1 := MulPower(z, t1, v, 1, 8, 9);
    t0 := MulPower(t0, t1, v, 2, 9, 11);
    var t2 := SqPower(t0, 1, v, 11, 22);
    t1 := MulPower(t1, t2, v, 9, 22, 31);
  }

  /** out = z^(p - 2). */
  method FeInvert(z: Limbs, ghost c: int) returns (out: Limbs)
    requires Within(z, c) && c <= 330
    ensures Cong(Val(out), Pow(Val(z), P - 2)) && Within(out, 101)
  {
    ghost var v := Val(z);
    WithinMonotone(z, c, 330);
    var t0, t1 := Begin(z);
    t1 := LongChain(t1, v);
    DoubledBy(TWO_250 - 1);
    t1 := SqPower(t1, 5, v, TWO_250 - 1, 32 * (TWO_250 - 1));
    out := MulPower(t1, t0, v, 32 * (TWO_250 - 1), 11, P - 2);
  }

  /** out = z^((p - 5) / 8). */
  method FePow22523(z: Limbs, ghost c: int) returns (out: Limbs)
    requires Within(z, c) && c <= 330
    ensures Cong(Val(out), Pow(Val(z), (P - 5) / 8)) && Within(out, 101)
  {
    ghost var v := Val(z);
    WithinMonotone(z, c, 330);
    var t0, t1 := Begin(z);
    t0 := LongChain(t1, v);
    DoubledBy(TWO_250 - 1);
    t0 := SqPower(t0, 2, v, TWO_250 - 1, 4 * (TWO_250 - 1));
    PowOne(v);
    out := MulPower(t0, z, v, 4 * (TWO_250 - 1), 1, (P - 5) / 8);
  }
}
