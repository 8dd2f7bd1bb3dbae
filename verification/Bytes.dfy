/** Byte strings, their little-endian values, and the shift-and-mask code that cuts words into bytes. */
module Bytes {
  import opened Bits
  import Machine
  import Power

  type Byte = b: int | 0 <= b < 256

  /** The byte strings of a list, one after the other. */
  function Concat(l: seq<seq<Byte>>): seq<Byte> {
    if l == [] then [] else l[0] + Concat(l[1..])
  }

  /** The little-endian value of the bytes of s from index i on. */
  function LEFrom(s: seq<Byte>, i: nat): (n: nat)
    requires i <= |s|
    decreases |s| - i
  {
    if i == |s| then 0 else s[i] + 256 * LEFrom(s, i + 1)
  }

  function LE(s: seq<Byte>): nat {
    LEFrom(s, 0)
  }

  lemma DivDiv(x: nat, a: nat, b: nat)
    requires a > 0 && b > 0
    ensures a * b > 0 && x / (a * b) == (x / a) / b
  {
    var y := x / a;
    var q, r := y / b, y % b;
    assert x == a * y + x % a && y == b * q + r;
    assert a * y == (a * b) * q + a * r by {
      assert a * (b * q + r) == (a * b) * q + a * r;
    }
    assert a * r + x % a < a * b by {
      Machine.MulMonotone(a, r, b - 1);
    }
    DivModUnique(x, a * b, q, a * r + x % a);
  }

  /** The low byte of an expression, as a cast to unsigned char keeps it. */
  function Low(x: int): Byte {
    x % 256
  }

  /** The byte ((x >> k) | (y << j)) for x >> k below 2^j. */
  function Joined(x: nat, y: nat): Byte {
    Low(Or(x, y))
  }

  lemma SplitProduct(a: int, b: int, y: int, q: int, r: int)
    requires a * b == 256 && y == b * q + r
    ensures y * a == 256 * q + a * r
  {
    assert a * (b * q) == (a * b) * q;
  }

  lemma JoinedArithmetic(t: nat, a: nat, b: nat, y: nat)
    requires a * b == 256 && t < a && b > 0
    ensures (t + y * a) % 256 == t + a * (y % b)
  {
    var q, r := y / b, y % b;
    SplitProduct(a, b, y, q, r);
    Machine.MulMonotone(a, r, b - 1);
    assert a * (b - 1) == a * b - a;
    DivModUnique(t + y * a, 256, q, t + a * r);
  }

  lemma MultipleMod(y: nat, a: nat)
    requires a > 0
    ensures (y * a) % a == 0
  {
    DivModUnique(y * a, a, y, 0);
  }

  lemma JoinedValue(t: nat, y: nat, n: nat)
    requires n <= 8 && t < Pow2(n)
    ensures Joined(t, y * Pow2(n)) == t + Pow2(n) * (y % Pow2(8 - n))
  {
    Power.Pow2Add(n, 8 - n);
    MultipleMod(y, Pow2(n));
    OrDisjoint(t, y * Pow2(n), n);
    JoinedArithmetic(t, Pow2(n), Pow2(8 - n), y);
  }

  /** y << n in a word of the given width: what is shifted out of the top is lost. */
  function Shifted(y: nat, n: nat, width: nat): nat {
    (y * Pow2(n)) % Pow2(width)
  }

  lemma ShiftedValue(y: nat, n: nat, width: nat)
    requires n <= 8 <= width
    ensures Shifted(y, n, width) == (y % Pow2(width - n)) * Pow2(n)
    ensures (y % Pow2(width - n)) % Pow2(8 - n) == y % Pow2(8 - n)
  {
    Power.Pow2Add(width - n, n);
    Power.Pow2Add(8 - n, width - 8);
    ShiftedParts(y, Pow2(width - n), Pow2(n));
    ModMod(y, Pow2(8 - n), Pow2(width - 8));
  }

  lemma ShiftedParts(y: nat, a: nat, b: nat)
    requires a > 0 && b > 0
    ensures a * b > 0 && (y * b) % (a * b) == (y % a) * b
  {
    var q, r := y / a, y % a;
    Machine.MulMonotone(b, 1, a);
    Machine.MulMonotone(b, r, a - 1);
    Machine.MulMonotone(b, 0, r);
    assert (q * a + r) * b == (a * b) * q + r * b by {
      assert (q * a) * b == (a * b) * q;
    }
    assert b * (a - 1) == a * b - b;
    DivModUnique(y * b, a * b, q, r * b);
  }

  lemma ModMod(y: nat, a: nat, b: nat)
    requires a > 0 && b > 0
    ensures a * b > 0 && (y % (a * b)) % a == y % a
  {
    Machine.MulMonotone(a, 1, b);
    var q, r := y / (a * b), y % (a * b);
    assert y == a * (b * q + r / a) + r % a by {
      assert (a * b) * q == a * (b * q);
      assert a * (b * q + r / a) == a * (b * q) + a * (r / a);
    }
    DivModUnique(y, a, b * q + r / a, r % a);
  }

  function Triple(a: Byte, b: Byte, c: Byte): nat {
    var x: int, y: int, z: int := a, b, c;
    x + 256 * (y + 256 * z)
  }

  /** Three bytes of a packed number: two inside the limb z, and one that takes the top n bits of z
      and the bottom 8 - n bits of the next limb y. */
  lemma Pack(z: nat, n: nat, y: nat, width: nat)
    requires n <= 8 <= width && z < 0x1_0000 * Pow2(n)
    ensures Triple(Low(z), Low(z / 256), Joined(z / 0x1_0000, Shifted(y, n, width)))
            == z + 0x1_0000 * (Pow2(n) * (y % Pow2(8 - n)))
  {
    DivDiv(z, 256, 256);
    ShiftedValue(y, n, width);
    JoinedValue(z / 0x1_0000, y % Pow2(width - n), n);
  }

  lemma Regroup(p: int, q: int)
    ensures 0x1_0000 * (p * q) == (0x1_0000 * p) * q
  {
  }

  /** Three bytes from a limb z whose top n bits share the last byte with the next limb y:
      z, z >> 8 and (z >> 16) | (y << n), in words of the given width. */
  method Cut(z: nat, n: nat, y: nat, width: nat, ghost high: nat, ghost low: nat) returns (a: Byte, b: Byte, c: Byte)
    requires n <= 8 <= width && high == 0x1_0000 * Pow2(n) && low == Pow2(8 - n) && z < high
    ensures Triple(a, b, c) == z + high * (y % low)
  {
    a, b, c := Low(z), Low(z / 256), Joined(z / 0x1_0000, Shifted(y, n, width));
    Pack(z, n, y, width);
    Regroup(Pow2(n), y % low);
  }

  lemma Three(s: seq<Byte>, i: nat)
    requires i + 3 <= |s|
    ensures LEFrom(s, i) == Triple(s[i], s[i + 1], s[i + 2]) + 0x100_0000 * LEFrom(s, i + 3)
  {
    assert LEFrom(s, i + 1) == s[i + 1] + 256 * LEFrom(s, i + 2);
    assert LEFrom(s, i + 2) == s[i + 2] + 256 * LEFrom(s, i + 3);
  }

  /** The byte b in place k of a word. */
  function Placed(b: Byte, k: nat): nat {
    b * Pow2(k)
  }

  lemma OrByte(x: nat, b: Byte, n: nat)
    requires x < Pow2(n)
    ensures Or(x, Placed(b, n)) == x + Pow2(n) * b
  {
    MultipleMod(b, Pow2(n));
    OrDisjoint(x, Placed(b, n), n);
  }

  /** load_3: the three bytes from index i on, or-ed together. */
  method Load3(s: seq<Byte>, i: nat) returns (r: nat)
    requires i + 3 <= |s|
    ensures r < 0x100_0000
    ensures LEFrom(s, i) == r + 0x100_0000 * LEFrom(s, i + 3)
  {
    PowersOfTwo();
    var a: int, b: int, c: int := s[i], s[i + 1], s[i + 2];
    r := Or(Or(a, Placed(b, 8)), Placed(c, 16));
    OrByte(a, b, 8);
    OrByte(a + 0x100 * b, c, 16);
    assert LEFrom(s, i + 1) == b + 256 * LEFrom(s, i + 2);
    assert LEFrom(s, i + 2) == c + 256 * LEFrom(s, i + 3);
  }

  method Load4(s: seq<Byte>, i: nat) returns (r: nat)
    requires i + 4 <= |s|
    ensures r < 0x1_0000_0000
    ensures LEFrom(s, i) == r + 0x1_0000_0000 * LEFrom(s, i + 4)
  {
    PowersOfTwo();
    var low := Load3(s, i);
    r := Or(low, Placed(s[i + 3], 24));
    OrByte(low, s[i + 3], 24);
  }

  /** 256^n, written so that it stays a product of constants. */
  function Scaled(n: nat, v: int): int
    decreases n
  {
    if n == 0 then v else 256 * Scaled(n - 1, v)
  }

  lemma {:induction false} LEShift(s: seq<Byte>, t: seq<Byte>, i: nat)
    requires i <= |t|
    ensures LEFrom(s + t, |s| + i) == LEFrom(t, i)
    decreases |t| - i
  {
    if i < |t| {
      LEShift(s, t, i + 1);
    }
  }

  lemma {:induction false} LEConcat(s: seq<Byte>, t: seq<Byte>, i: nat)
    requires i <= |s|
    ensures LEFrom(s + t, i) == LEFrom(s, i) + Scaled(|s| - i, LE(t))
    decreases |s| - i
  {
    if i < |s| {
      LEConcat(s, t, i + 1);
    } else {
      LEShift(s, t, 0);
    }
  }

  lemma LEConcat16(s: seq<Byte>, t: seq<Byte>)
    requires |s| == 16
    ensures LE(s + t) == LE(s) + 0x1_0000_0000_0000_0000_0000_0000_0000_0000 * LE(t)
  {
    LEConcat(s, t, 0);
    assert Scaled(16, LE(t)) == 0x1_0000_0000_0000_0000 * Scaled(8, LE(t));
  }

  /** Overwrites t with the bytes x from index i on. */
  method Store(t: array<Byte>, i: nat, x: seq<Byte>)
    requires i + |x| <= t.Length
    modifies t
    ensures t[..] == old(t[..i]) + x + old(t[i + |x|..])
  {
    forall k | 0 <= k < |x| {
      t[i + k] := x[k];
    }
  }
}
