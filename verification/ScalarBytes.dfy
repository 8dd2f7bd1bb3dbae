/** How sc.c cuts byte strings into limbs of 21 bits, and back. */
module ScalarBytes {
  import opened Bits
  import opened Bytes
  import opened ScalarLimbs
  import opened ScalarReduction

  // -------------------------------------------------------------------------------------------
  // Reading
  // -------------------------------------------------------------------------------------------

  /** y >> k for a shift inside a byte. */
  function Shr(y: nat, k: nat): nat {
    match k
    case 0 => y
    case 1 => y / 2
    case 2 => y / 4
    case 3 => y / 8
    case 4 => y / 16
    case 5 => y / 32
    case 6 => y / 64
    case _ => y / 128
  }

  /** The next 21 bits start two bytes further, or three. */
  lemma NextDigit(y: nat, k: nat)
    requires k < 8
    ensures k < 3 ==> Shr(y, k) == Shr(y, k) % 0x20_0000 + 0x20_0000 * Shr(y / 0x1_0000, k + 5)
    ensures k >= 3 ==> Shr(y, k) == Shr(y, k) % 0x20_0000 + 0x20_0000 * Shr(y / 0x100_0000, k - 3)
  {
    match k
    case 0 => NextBy(y, 1, 0x1_0000, 32);
    case 1 => NextBy(y, 2, 0x1_0000, 64);
    case 2 => NextBy(y, 4, 0x1_0000, 128);
    case 3 => NextBy(y, 8, 0x100_0000, 1);
    case 4 => NextBy(y, 16, 0x100_0000, 2);
    case 5 => NextBy(y, 32, 0x100_0000, 4);
    case 6 => NextBy(y, 64, 0x100_0000, 8);
    case _ => NextBy(y, 128, 0x100_0000, 16);
  }

  lemma NextBy(y: nat, c: nat, e: nat, f: nat)
    requires c > 0 && e > 0 && f > 0 && c * 0x20_0000 == e * f
    ensures y / c == (y / c) % 0x20_0000 + 0x20_0000 * ((y / e) / f)
  {
    DivDiv(y, c, 0x20_0000);
    DivDiv(y, e, f);
  }

  lemma LoadedBy(r: nat, rest: nat, c: nat, e: nat)
    requires c > 0
    ensures ((r + c * (0x20_0000 * (e * rest))) / c) % 0x20_0000 == (r / c) % 0x20_0000
  {
    DivModUnique(r + c * (0x20_0000 * (e * rest)), c, r / c + 0x20_0000 * (e * rest), r % c);
  }

  lemma Loaded3(r: nat, rest: nat, k: nat)
    requires k <= 3
    ensures Shr(r + 0x100_0000 * rest, k) % 0x20_0000 == Shr(r, k) % 0x20_0000
  {
    match k
    case 0 => LoadedBy(r, rest, 1, 8);
    case 1 => LoadedBy(r, rest, 2, 4);
    case 2 => LoadedBy(r, rest, 4, 2);
    case _ => LoadedBy(r, rest, 8, 1);
  }

  lemma Loaded4(r: nat, rest: nat, k: nat)
    requires 4 <= k < 8
    ensures Shr(r + 0x1_0000_0000 * rest, k) % 0x20_0000 == Shr(r, k) % 0x20_0000
  {
    match k
    case 4 => LoadedBy(r, rest, 16, 128);
    case 5 => LoadedBy(r, rest, 32, 64);
    case 6 => LoadedBy(r, rest, 64, 32);
    case _ => LoadedBy(r, rest, 128, 16);
  }

  /** 2097151 & (load_3(s + i) >> k), or load_4 when three bytes are not enough. */
  method LoadDigit(s: seq<Byte>, i: nat, k: nat) returns (d: nat)
    requires k < 8 && i + 4 <= |s|
    ensures d == Shr(LEFrom(s, i), k) % 0x20_0000
  {
    var word: nat;
    if k <= 3 {
      word := Load3(s, i);
      Loaded3(word, LEFrom(s, i + 3), k);
    } else {
      word := Load4(s, i);
      Loaded4(word, LEFrom(s, i + 4), k);
    }
    assert Pow2(21) == 0x20_0000 by {
      PowersOfTwo();
    }
    AndMod(Shr(word, k), 21);
    d := And(Shr(word, k), 2097151);
  }

  lemma Skip(s: seq<Byte>, i: nat)
    requires i + 3 <= |s|
    ensures LEFrom(s, i) / 0x1_0000 == LEFrom(s, i + 2)
    ensures LEFrom(s, i) / 0x100_0000 == LEFrom(s, i + 3)
  {
    assert LEFrom(s, i + 1) == s[i + 1] + 256 * LEFrom(s, i + 2);
    assert LEFrom(s, i + 2) == s[i + 2] + 256 * LEFrom(s, i + 3);
  }

  /** What is left of the number s from limb j on: byte offset 21 j / 8, shift 21 j % 8. */
  function Rest(s: seq<Byte>, j: nat): nat
    requires 21 * j / 8 <= |s|
  {
    Shr(LEFrom(s, 21 * j / 8), 21 * j % 8)
  }

  lemma RestStep(s: seq<Byte>, j: nat)
    requires 21 * j / 8 + 3 <= |s|
    ensures Rest(s, j) == Rest(s, j) % 0x20_0000 + 0x20_0000 * Rest(s, j + 1)
  {
    Skip(s, 21 * j / 8);
    NextDigit(LEFrom(s, 21 * j / 8), 21 * j % 8);
  }

  lemma TopRest(s: seq<Byte>, n: nat, top: nat)
    requires (|s| == 32 && n == 12) || (|s| == 64 && n == 24)
    requires LEFrom(s, |s| - 4) == top + 0x1_0000_0000 * LEFrom(s, |s|) && top < 0x1_0000_0000
    ensures Rest(s, n - 1) == Shr(top, 21 * (n - 1) % 8) < 0x2000_0000
    ensures n == 12 ==> Rest(s, n - 1) < 0x200_0000
  {
  }

  /** The limb n - 1 takes what is left; the limbs below take 21 bits each, at the byte offsets and
      shifts that the C code writes out. */
  method LoadLimbs(s: seq<Byte>, n: nat) returns (d: Digits)
    requires (|s| == 32 && n == 12) || (|s| == 64 && n == 24)
    ensures Val(d) == LE(s)
    ensures forall j :: 0 <= j < n - 1 ==> 0 <= d[j] < 0x20_0000
    ensures 0 <= d[n - 1] < 0x2000_0000 && (n == 12 ==> d[n - 1] < 0x200_0000)
    ensures forall j :: n <= j < 24 ==> d[j] == 0
  {
    var top := Load4(s, |s| - 4);
    TopRest(s, n, top);
    d := seq(24, j => 0)[n - 1 := Shr(top, 21 * (n - 1) % 8)];
    ValZeros(d, n);
    for j := n - 1 downto 0
      invariant ValFrom(d, j) == Rest(s, j)
      invariant d[n - 1] == Rest(s, n - 1)
      invariant forall l :: j <= l < n - 1 ==> 0 <= d[l] < 0x20_0000
      invariant forall l :: n <= l < 24 ==> d[l] == 0
    {
      ghost var was := d;
      var digit := LoadDigit(s, 21 * j / 8, 21 * j % 8);
      d := d[j := digit];
      ValFrame(was, d, j + 1);
      RestStep(s, j);
    }
  }

  // -------------------------------------------------------------------------------------------
  // Writing
  // -------------------------------------------------------------------------------------------

  function Pair(a: Byte, b: Byte): nat {
    var x: int, y: int := a, b;
    x + 256 * y
  }

  /** Two bytes: one inside the limb z, and one that takes the top n bits of z and the bottom
      8 - n bits of the next limb y. */
  method CutPair(z: nat, n: nat, y: nat, width: nat, ghost high: nat, ghost low: nat) returns (a: Byte, b: Byte)
    requires n <= 8 <= width && high == 0x100 * Pow2(n) && low == Pow2(8 - n) && z < high
    ensures Pair(a, b) == z + high * (y % low)
  {
    a, b := Low(z), Joined(z / 0x100, Shifted(y, n, width));
    ShiftedValue(y, n, width);
    JoinedValue(z / 0x100, y % Pow2(width - n), n);
    RegroupPair(Pow2(n), y % low);
  }

  lemma RegroupPair(p: int, q: int)
    ensures 0x100 * (p * q) == (0x100 * p) * q
  {
  }

  lemma Two(s: seq<Byte>, i: nat)
    requires i + 2 <= |s|
    ensures LEFrom(s, i) == Pair(s[i], s[i + 1]) + 0x1_0000 * LEFrom(s, i + 2)
  {
    assert LEFrom(s, i + 1) == s[i + 1] + 256 * LEFrom(s, i + 2);
  }

  lemma SumFirst(s: seq<Byte>, h: Digits)
    requires |s| == 11 && forall j :: 0 <= j < 5 ==> 0 <= h[j] < 0x20_0000
    requires Triple(s[0], s[1], s[2]) == h[0] + 0x20_0000 * (h[1] % 8)
    requires Triple(s[3], s[4], s[5]) == h[1] / 8 + 0x4_0000 * (h[2] % 0x40)
    requires Pair(s[6], s[7]) == h[2] / 0x40 + 0x8000 * (h[3] % 2)
    requires Triple(s[8], s[9], s[10]) == h[3] / 2 + 0x10_0000 * (h[4] % 0x10)
    ensures LE(s) == h[0] + 0x20_0000 * (h[1] + 0x20_0000 * (h[2] + 0x20_0000 * (h[3] + 0x20_0000 * (h[4] % 0x10))))
  {
    Three(s, 0);
    Three(s, 3);
    Two(s, 6);
    Three(s, 8);
  }

  /** The 11 bytes of the limbs 0 to 3 and four bits of limb 4. */
  method PackFirst(h: Digits) returns (s: seq<Byte>)
    requires forall j :: 0 <= j < 5 ==> 0 <= h[j] < 0x20_0000
    ensures |s| == 11
    ensures LE(s) == h[0] + 0x20_0000 * (h[1] + 0x20_0000 * (h[2] + 0x20_0000 * (h[3] + 0x20_0000 * (h[4] % 0x10))))
  {
    PowersOfTwo();
    var s0, s1, s2 := Cut(h[0], 5, h[1], 64, 0x20_0000, 8);
    var s3, s4, s5 := Cut(h[1] / 8, 2, h[2], 64, 0x4_0000, 0x40);
    var s6, s7 := CutPair(h[2] / 0x40, 7, h[3], 64, 0x8000, 2);
    var s8, s9, s10 := Cut(h[3] / 2, 4, h[4], 64, 0x10_0000, 0x10);
    s := [s0, s1, s2, s3, s4, s5, s6, s7, s8, s9, s10];
    SumFirst(s, h);
  }

  lemma SumSecond(s: seq<Byte>, h: Digits)
    requires |s| == 10 && forall j :: 4 <= j < 8 ==> 0 <= h[j] < 0x20_0000
    requires Triple(s[0], s[1], s[2]) == h[4] / 0x10 + 0x2_0000 * (h[5] % 0x80)
    requires Pair(s[3], s[4]) == h[5] / 0x80 + 0x4000 * (h[6] % 4)
    requires Triple(s[5], s[6], s[7]) == h[6] / 4 + 0x8_0000 * (h[7] % 0x20)
    requires Pair(s[8], s[9]) == h[7] / 0x20
    ensures LE(s) == h[4] / 0x10 + 0x2_0000 * (h[5] + 0x20_0000 * (h[6] + 0x20_0000 * h[7]))
  {
    Three(s, 0);
    Two(s, 3);
    Three(s, 5);
    Two(s, 8);
  }

  /** The 10 bytes of the rest of limb 4 and the limbs 5 to 7. */
  method PackSecond(h: Digits) returns (s: seq<Byte>)
    requires forall j :: 4 <= j < 8 ==> 0 <= h[j] < 0x20_0000
    ensures |s| == 10
    ensures LE(s) == h[4] / 0x10 + 0x2_0000 * (h[5] + 0x20_0000 * (h[6] + 0x20_0000 * h[7]))
  {
    PowersOfTwo();
    var s11, s12, s13 := Cut(h[4] / 0x10, 1, h[5], 64, 0x2_0000, 0x80);
    var s14, s15 := CutPair(h[5] / 0x80, 6, h[6], 64, 0x4000, 4);
    var s16, s17, s18 := Cut(h[6] / 4, 3, h[7], 64, 0x8_0000, 0x20);
    var s19, s20 := CutPair(h[7] / 0x20, 8, 0, 64, 0x1_0000, 1);
    s := [s11, s12, s13, s14, s15, s16, s17, s18, s19, s20];
    SumSecond(s, h);
  }

  lemma LEConcat11(s: seq<Byte>, t: seq<Byte>)
    requires |s| == 11
    ensures LE(s + t) == LE(s) + 0x100_0000_0000_0000_0000_0000 * LE(t)
  {
    LEConcat(s, t, 0);
    assert Scaled(11, LE(t)) == 0x1_0000_0000_0000_0000 * Scaled(3, LE(t));
  }

  /** The 21 bytes of the limbs 0 to 7. */
  method PackLow(h: Digits) returns (s: seq<Byte>)
    requires forall j :: 0 <= j < 9 ==> 0 <= h[j] < 0x20_0000
    ensures |s| == 21
    ensures LE(s) == h[0] + 0x20_0000 * (h[1] + 0x20_0000 * (h[2] + 0x20_0000 * (h[3] + 0x20_0000 * (h[4] +
                     0x20_0000 * (h[5] + 0x20_0000 * (h[6] + 0x20_0000 * h[7]))))))
  {
    var first := PackFirst(h);
    var second := PackSecond(h);
    s := first + second;
    LEConcat11(first, second);
  }

  lemma SumHigh(s: seq<Byte>, h: Digits)
    requires |s| == 11 && forall j :: 8 <= j < 11 ==> 0 <= h[j] < 0x20_0000
    requires 0 <= h[11] < 0x40_0000
    requires Triple(s[0], s[1], s[2]) == h[8] + 0x20_0000 * (h[9] % 8)
    requires Triple(s[3], s[4], s[5]) == h[9] / 8 + 0x4_0000 * (h[10] % 0x40)
    requires Pair(s[6], s[7]) == h[10] / 0x40 + 0x8000 * (h[11] % 2)
    requires Triple(s[8], s[9], s[10]) == h[11] / 2
    ensures LE(s) == h[8] + 0x20_0000 * (h[9] + 0x20_0000 * (h[10] + 0x20_0000 * h[11]))
  {
    Three(s, 0);
    Three(s, 3);
    Two(s, 6);
    Three(s, 8);
  }

  /** The 11 bytes of the limbs 8 to 11. */
  method PackHigh(h: Digits) returns (s: seq<Byte>)
    requires (forall j :: 8 <= j < 11 ==> 0 <= h[j] < 0x20_0000) && 0 <= h[11] < 0x40_0000
    ensures |s| == 11
    ensures LE(s) == h[8] + 0x20_0000 * (h[9] + 0x20_0000 * (h[10] + 0x20_0000 * h[11]))
  {
    PowersOfTwo();
    var s0, s1, s2 := Cut(h[8], 5, h[9], 64, 0x20_0000, 8);
    var s3, s4, s5 := Cut(h[9] / 8, 2, h[10], 64, 0x4_0000, 0x40);
    var s6, s7 := CutPair(h[10] / 0x40, 7, h[11], 64, 0x8000, 2);
    var s8, s9, s10 := Cut(h[11] / 2, 8, 0, 64, 0x100_0000, 1);
    s := [s0, s1, s2, s3, s4, s5, s6, s7, s8, s9, s10];
    SumHigh(s, h);
  }

  lemma LEConcat21(s: seq<Byte>, t: seq<Byte>)
    requires |s| == 21
    ensures LE(s + t) == LE(s) + 0x100_0000_0000_0000_0000_0000_0000_0000_0000_0000_0000 * LE(t)
  {
    LEConcat(s, t, 0);
    assert Scaled(21, LE(t)) == 0x1_0000_0000_0000_0000 * Scaled(13, LE(t));
    assert Scaled(13, LE(t)) == 0x1_0000_0000_0000_0000 * Scaled(5, LE(t));
  }

  method Pack(h: Digits) returns (s: seq<Byte>)
    requires Finished(h) && 0 <= h[11] < 0x40_0000
    ensures |s| == 32 && LE(s) == Val(h)
  {
    var low := PackLow(h);
    var high := PackHigh(h);
    s := low + high;
    LEConcat21(low, high);
    ValOfTwelve(h);
  }
}
