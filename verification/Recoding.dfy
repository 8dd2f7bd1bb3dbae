/** The sliding-window recoding of scalars in keypair/ge.c (slide). */
module Recoding {
  import opened Bits
  import opened Bytes

  /** r[i] + 2 r[i + 1] + 4 r[i + 2] + ... */
  function Binary(r: seq<int>, i: nat): int
    decreases |r| - i, r
  {
    if i >= |r| then 0 else r[i] + 2 * Binary(r, i + 1)
  }

  predicate IsBits(r: seq<int>, i: nat) {
    forall k :: i <= k < |r| ==> r[k] == 0 || r[k] == 1
  }

  predicate Zeros(r: seq<int>, i: nat, j: nat) {
    forall k :: i <= k < j && k < |r| ==> r[k] == 0
  }

  lemma {:induction false} BinaryFrame(r: seq<int>, s: seq<int>, i: nat)
    requires |r| == |s| && forall k :: i <= k < |r| ==> r[k] == s[k]
    ensures Binary(r, i) == Binary(s, i)
    decreases |r| - i
  {
    if i < |r| {
      BinaryFrame(r, s, i + 1);
    }
  }

  /** Digits below i are the same: what is added from i on counts 2^(i - j) times from j on. */
  lemma {:induction false} BinaryBelow(r: seq<int>, s: seq<int>, i: nat, j: nat, x: int)
    requires |r| == |s| && j <= i <= |r| && Binary(s, i) == Binary(r, i) + x
    requires forall k :: 0 <= k < i ==> r[k] == s[k]
    ensures Binary(s, j) == Binary(r, j) + Shl(x, i - j)
    decreases i - j
  {
    if j < i {
      BinaryBelow(r, s, i, j + 1, x);
    }
  }

  lemma {:induction false} BinaryNonnegative(r: seq<int>, i: nat)
    requires IsBits(r, i)
    ensures Binary(r, i) >= 0
    decreases |r| - i
  {
    if i < |r| {
      BinaryNonnegative(r, i + 1);
    }
  }

  lemma {:induction false} BinaryBound(r: seq<int>, i: nat)
    requires IsBits(r, i) && i <= |r|
    ensures 0 <= Binary(r, i) < Shl(1, |r| - i)
    decreases |r| - i
  {
    if i < |r| {
      BinaryBound(r, i + 1);
    }
  }

  lemma {:induction false} BinaryZeros(r: seq<int>, i: nat, j: nat)
    requires i <= j <= |r| && Zeros(r, i, j)
    ensures Binary(r, i) == Shl(Binary(r, j), j - i)
    decreases j - i
  {
    if i < j {
      BinaryZeros(r, i + 1, j);
    }
  }

  lemma {:induction false} ShlTwice(x: int, b: nat)
    ensures Shl(2 * x, b) == Shl(x, b + 1)
  {
    if b > 0 {
      ShlTwice(x, b - 1);
    }
  }

  lemma {:induction false} ShlSum(x: int, y: int, b: nat)
    ensures Shl(x + y, b) == Shl(x, b) + Shl(y, b) && Shl(x - y, b) == Shl(x, b) - Shl(y, b)
  {
    if b > 0 {
      ShlSum(x, y, b - 1);
    }
  }

  lemma {:induction false} ShlMonotone(x: int, y: int, b: nat)
    requires x <= y
    ensures Shl(x, b) <= Shl(y, b)
  {
    if b > 0 {
      ShlMonotone(x, y, b - 1);
    }
  }

  lemma {:induction false} ShlShl(x: int, a: nat, b: nat)
    ensures Shl(Shl(x, a), b) == Shl(x, a + b)
  {
    if b > 0 {
      ShlShl(x, a, b - 1);
    }
  }

  lemma {:induction false} ShlGrows(a: nat, b: nat)
    requires a <= b
    ensures 1 <= Shl(1, a) <= Shl(1, b)
    decreases b
  {
    if b > a {
      ShlGrows(a, b - 1);
    } else if b > 0 {
      ShlGrows(a - 1, b - 1);
    }
  }

  lemma ShlOne(b: nat)
    requires b <= 6
    ensures Shl(1, b) == Power2(b)
  {
    assert Shl(1, 2) == 2 * Shl(1, 1);
    assert Shl(1, 4) == 2 * Shl(1, 3);
    assert Shl(1, 6) == 2 * Shl(1, 5);
  }

  const TWO_255: int := 0x8000_0000_0000_0000_0000_0000_0000_0000_0000_0000_0000_0000_0000_0000_0000_0000
  const TWO_256: int := 0x1_0000_0000_0000_0000_0000_0000_0000_0000_0000_0000_0000_0000_0000_0000_0000_0000

  lemma ShlByte(x: int)
    ensures Shl(x, 8) == 0x100 * x
  {
    assert Shl(x, 2) == 2 * Shl(x, 1);
    assert Shl(x, 4) == 2 * Shl(x, 3);
    assert Shl(x, 6) == 2 * Shl(x, 5);
  }

  lemma ShlWord(x: int)
    ensures Shl(x, 32) == 0x1_0000_0000 * x
  {
    ShlByte(x);
    ShlByte(0x100 * x);
    ShlByte(0x1_0000 * x);
    ShlByte(0x100_0000 * x);
    ShlShl(x, 8, 8);
    ShlShl(x, 16, 8);
    ShlShl(x, 24, 8);
  }

  lemma ShlQuad(x: int)
    ensures Shl(x, 128) == 0x1_0000_0000_0000_0000_0000_0000_0000_0000 * x
  {
    ShlWord(x);
    ShlWord(0x1_0000_0000 * x);
    ShlWord(0x1_0000_0000_0000_0000 * x);
    ShlWord(0x1_0000_0000_0000_0000_0000_0000 * x);
    ShlShl(x, 32, 32);
    ShlShl(x, 64, 32);
    ShlShl(x, 96, 32);
  }

  lemma Shl256()
    ensures Shl(1, 255) == TWO_255 && Shl(1, 256) == TWO_256
  {
    ShlQuad(1);
    ShlShl(1, 128, 128);
    ShlQuad(0x1_0000_0000_0000_0000_0000_0000_0000_0000);
    assert Shl(1, 256) == 2 * Shl(1, 255);
  }

  lemma ShlNext(x: int, b: nat)
    ensures Shl(x, b + 1) == 2 * Shl(x, b) && Shl(x, 0) == x
  {
  }

  lemma ShlThree(x: int)
    ensures Shl(x, 3) == 8 * x
  {
    assert Shl(x, 2) == 2 * Shl(x, 1);
  }

  lemma ShlFour(x: int)
    ensures Shl(x, 4) == 16 * x
  {
    ShlThree(x);
  }

  lemma ShlFive(x: int)
    ensures Shl(x, 5) == 32 * x
  {
    ShlFour(x);
  }

  lemma {:induction false} ShlZero(b: nat)
    ensures Shl(0, b) == 0
  {
    if b > 0 {
      ShlZero(b - 1);
    }
  }

  // -------------------------------------------------------------------------------------------
  // What the recoding is
  // -------------------------------------------------------------------------------------------

  /** The digit j is zero, or odd and at most 15 in magnitude with four zeros after it. */
  predicate Digit(r: seq<int>, j: nat)
    requires j < |r|
  {
    r[j] == 0 || (r[j] % 2 == 1 && -15 <= r[j] <= 15 && Zeros(r, j + 1, j + 5))
  }

  /** The digit of an odd number: the residue mod 32 that is at most 15 in magnitude. */
  function WindowDigit(w: int): (d: int)
    ensures (w - d) % 32 == 0 && (w % 2 == 1 ==> -15 <= d <= 15)
  {
    if w % 32 < 16 then w % 32 else w % 32 - 32
  }

  /** The recoding of a number of n bits carries out of the top: what is left after some digit is 2^n. */
  predicate CarriesOut(w: int, n: nat)
    decreases n, w
  {
    if n == 0 then false
    else if w % 2 == 0 then CarriesOut(w / 2, n - 1)
    else n >= 5 && (w - WindowDigit(w) == Shl(1, n) || CarriesOut((w - WindowDigit(w)) / 2, n - 1))
  }

  /** The value of the digits: a carry out of position 255 is lost. */
  function Recoded(a: nat): int {
    if CarriesOut(a, 256) then a - TWO_256 else a
  }

  lemma {:induction false} ZeroStays(n: nat)
    ensures !CarriesOut(0, n)
  {
    if n > 0 {
      ZeroStays(n - 1);
    }
  }

  /** Nothing is lost of a number that is at most half of the range. */
  lemma {:induction false} HalfStays(w: int, n: nat)
    requires n > 0 && 0 <= w <= Shl(1, n - 1)
    ensures !CarriesOut(w, n)
    decreases n
  {
    if w % 2 == 0 {
      if n > 1 {
        HalfStays(w / 2, n - 1);
      }
    } else if n >= 5 {
      HalfRange(n);
      NextHalf(w, Shl(1, n - 5));
      HalfStays((w - WindowDigit(w)) / 2, n - 1);
    }
  }

  lemma HalfRange(n: nat)
    requires n >= 5
    ensures var x := Shl(1, n - 5);
            && Shl(1, n) == 32 * x && Shl(1, n - 1) == 16 * x && Shl(1, n - 2) == 8 * x
            && x >= 1 && (x == 1 || x % 2 == 0)
  {
    hide Shl;
    ShlNext(1, n - 5);
    ShlNext(1, n - 4);
    ShlNext(1, n - 3);
    ShlNext(1, n - 2);
    ShlNext(1, n - 1);
    ShlGrows(0, n - 5);
    ShlNext(1, 0);
    if n > 5 {
      ShlNext(1, n - 6);
    }
  }

  lemma NextHalf(w: int, x: int)
    requires 0 <= w <= 16 * x && w % 2 == 1 && x >= 1 && (x == 1 || x % 2 == 0)
    ensures 0 <= (w - WindowDigit(w)) / 2 <= 8 * x && w - WindowDigit(w) != 32 * x
  {
    NextHalfAtoms(w, w / 32, w % 32, x, x / 2);
  }

  lemma NextHalfAtoms(w: int, q: int, r: int, x: int, y: int)
    requires w == 32 * q + r && 0 <= r < 32 && 0 <= w < 16 * x && (x == 1 || x == 2 * y)
    ensures var d := if r < 16 then r else r - 32;
            (w - d) / 2 == 16 * (if r < 16 then q else q + 1) && 0 <= (w - d) / 2 <= 8 * x && w - d < 32 * x
  {
    if x != 1 {
      assert q < y;
    }
  }

  lemma BelowHalf(a: nat)
    requires a <= TWO_255
    ensures Recoded(a) == a
  {
    Shl256();
    HalfStays(a, 256);
  }

  lemma {:induction false} CarriesFrom(w: int, k: nat, n: nat)
    ensures CarriesOut(Shl(w, k), n + k) == CarriesOut(w, n)
    decreases k
  {
    if k > 0 {
      CarriesFrom(w, k - 1, n);
      assert Shl(w, k) / 2 == Shl(w, k - 1);
    }
  }

  /** Above half of the range a carry can be lost: 17 * 2^251 gets the digit -15 at 251, which leaves 2^256. */
  lemma CarryLost()
    ensures Recoded(17 * (TWO_255 / 16)) == 17 * (TWO_255 / 16) - TWO_256
  {
    var x := Shl(17, 251);
    Shl256();
    ShlShl(1, 251, 4);
    ShlFour(Shl(1, 251));
    ShlTimes(17, 251);
    ShlFive(1);
    assert WindowDigit(17) == -15;
    CarriesFrom(17, 251, 5);
  }

  lemma {:induction false} ShlTimes(x: int, b: nat)
    ensures Shl(x, b) == x * Shl(1, b)
  {
    if b > 0 {
      ShlTimes(x, b - 1);
    }
  }

  // -------------------------------------------------------------------------------------------
  // Adding one to the tail
  // -------------------------------------------------------------------------------------------

  lemma CarryStops(s: seq<int>, r: seq<int>, p: nat, k: nat)
    requires |s| == |r| == 256 && p <= k < 256 && IsBits(r, p) && Zeros(r, p, k) && s[k] == 0 && r[k] == 1
    requires forall j :: k < j < 256 ==> r[j] == s[j]
    requires Binary(s, p) + 1 == Shl(Binary(s, k) + 1, k - p)
    ensures Binary(r, p) == Binary(s, p) + 1 < Shl(1, 256 - p)
  {
    BinaryFrame(r, s, k + 1);
    BinaryZeros(r, p, k);
    BinaryBound(r, p);
  }

  /** One added at position p of the binary tail of r; the carry runs to the first zero, or is lost. */
  method Increment(r: array<int>, p: nat)
    requires r.Length == 256 && p < 256 && IsBits(r[..], p)
    modifies r
    ensures forall k :: 0 <= k < p ==> r[k] == old(r[k])
    ensures IsBits(r[..], p)
    ensures old(Binary(r[..], p)) + 1 < Shl(1, 256 - p) ==> Binary(r[..], p) == old(Binary(r[..], p)) + 1
    ensures old(Binary(r[..], p)) + 1 >= Shl(1, 256 - p) ==>
              Binary(r[..], p) == 0 && old(Binary(r[..], p)) + 1 == Shl(1, 256 - p)
  {
    ghost var s := r[..];
    var k := p;
    while k < 256
      invariant p <= k <= 256
      invariant forall j :: 0 <= j < 256 && !(p <= j < k) ==> r[j] == s[j]
      invariant forall j :: p <= j < k ==> r[j] == 0
      invariant Binary(s, p) + 1 == Shl(Binary(s, k) + 1, k - p)
    {
      if r[k] == 0 {
        r[k] := 1;
        CarryStops(s, r[..], p, k);
        return;
      }
      ShlTwice(Binary(s, k + 1) + 1, k - p);
      r[k] := 0;
      k := k + 1;
    }
    BinaryZeros(r[..], p, 256);
    ShlZero(256 - p);
  }

  // -------------------------------------------------------------------------------------------
  // One window
  // -------------------------------------------------------------------------------------------

  /** The state of the window at i after looking at the next b - 1 bits: v is the value from i on. */
  ghost predicate Open(r: seq<int>, i: nat, b: nat, v: int) {
    && |r| == 256 && 1 <= b <= 7 && i + b <= 256
    && r[i] % 2 == 1 && -15 <= r[i] <= 15 && Zeros(r, i + 1, i + b) && IsBits(r, i + 1)
    && v == r[i] + Shl(Binary(r, i + b), b)
    && (b <= 4 ==> 0 < r[i] < Power2(b))
  }

  lemma OpenValue(r: seq<int>, i: nat, b: nat, v: int)
    requires Open(r, i, b, v)
    ensures Binary(r, i) == v
  {
    BinaryZeros(r, i + 1, i + b);
  }

  /** A set bit at i + b is worth 2^b more than the tail without it. */
  lemma BitValue(r: seq<int>, p: nat, b: nat)
    requires p < |r| && r[p] == 1 && b <= 6 && IsBits(r, p)
    ensures Shl(Binary(r, p), b) == Power2(b) + Shl(Binary(r, p + 1), b + 1)
  {
    ShlSum(1, 2 * Binary(r, p + 1), b);
    ShlTwice(Binary(r, p + 1), b);
    ShlOne(b);
  }

  lemma SkipZero(r: seq<int>, i: nat, b: nat, v: int)
    requires Open(r, i, b, v) && b <= 6 && i + b < 256 && r[i + b] == 0
    ensures Open(r, i, b + 1, v)
  {
    ShlTwice(Binary(r, i + b + 1), b);
  }

  /** The bit joins the digit. */
  lemma TakeBit(r: seq<int>, s: seq<int>, i: nat, b: nat, v: int)
    requires Open(r, i, b, v) && b <= 6 && i + b < 256 && r[i + b] == 1
    requires r[i] + Power2(b) <= 15
    requires s == r[i := r[i] + Power2(b)][i + b := 0]
    ensures Open(s, i, b + 1, v)
  {
    BinaryFrame(r, s, i + b + 1);
    BitValue(r, i + b, b);
  }

  /** The digit takes 2^b less, and the tail one more, which is lost if the tail was all ones. */
  lemma Borrow(r: seq<int>, s: seq<int>, i: nat, b: nat, v: int) returns (u: int)
    requires Open(r, i, b, v) && b <= 6 && i + b < 256 && r[i + b] == 1
    requires 15 < r[i] + Power2(b) && -15 <= r[i] - Power2(b)
    requires |s| == 256 && s[i] == r[i] - Power2(b) && forall k :: i < k < i + b ==> s[k] == r[k]
    requires IsBits(s, i + 1)
    requires Binary(s, i + b) == Binary(r, i + b) + 1
             || (Binary(s, i + b) == 0 && Binary(r, i + b) + 1 == Shl(1, 256 - i - b))
    ensures Open(s, i, b + 1, u)
    ensures u == v || (i <= 251 && u == v - Shl(1, 256 - i) && Binary(s, i + b + 1) == 0)
  {
    u := s[i] + Shl(Binary(s, i + b), b);
    ShlOne(b);
    ShlTwice(Binary(s, i + b + 1), b);
    if Binary(s, i + b) == Binary(r, i + b) + 1 {
      ShlSum(Binary(r, i + b), 1, b);
    } else {
      ShlSum(Shl(1, 256 - i - b), 1, b);
      ShlShl(1, 256 - i - b, b);
      ShlZero(b);
      BinaryBound(s, i + b + 1);
    }
  }

  /** Looks at the bit i + b: it is absorbed, or stops the window. */
  method Absorb(r: array<int>, i: nat, b: nat, ghost v: int) returns (more: bool, ghost u: int)
    requires r.Length == 256 && b <= 6 && i + b < 256 && Open(r[..], i, b, v)
    modifies r
    ensures forall k :: 0 <= k < i ==> r[k] == old(r[k])
    ensures more ==> Open(r[..], i, b + 1, u)
    ensures !more ==> u == v && Open(r[..], i, b, v) && b >= 5 && r[i + b] == 1 && r[..] == old(r[..])
    ensures u == v || (more && i <= 251 && u == v - Shl(1, 256 - i) && Binary(r[..], i + b + 1) == 0)
    ensures old(Binary(r[..], i + b)) == 0 ==> more && u == v && Binary(r[..], i + b + 1) == 0
  {
    ghost var s := r[..];
    more, u := true, v;
    BinaryBound(s, i + b + 1);
    if r[i + b] != 0 {
      if r[i] + Power2(b) <= 15 {
        r[i], r[i + b] := r[i] + Power2(b), 0;
        TakeBit(s, r[..], i, b, v);
      } else if r[i] - Power2(b) >= -15 {
        r[i] := r[i] - Power2(b);
        BinaryFrame(s, r[..], i + b);
        Increment(r, i + b);
        u := Borrow(s, r[..], i, b, v);
      } else {
        more := false;
      }
    } else {
      SkipZero(s, i, b, v);
    }
  }

  lemma WindowEnd(r: seq<int>, i: nat, b: nat, v: int)
    requires Open(r, i, b, v) && (b == 7 || i + b == 256 || (b >= 5 && r[i + b] == 1))
    ensures Binary(r, i) == v && Zeros(r, i + 1, i + 5) && r[i] == WindowDigit(v) && IsBits(r, i + 1)
  {
    OpenValue(r, i, b, v);
    if b >= 5 {
      ShlShl(Binary(r, i + b), b - 5, 5);
      ShlFive(Shl(Binary(r, i + b), b - 5));
      DigitUnique(r[i], v, Shl(Binary(r, i + b), b - 5));
    } else {
      ShlZero(b);
    }
  }

  lemma DigitUnique(d: int, w: int, q: int)
    requires w == d + 32 * q && -15 <= d <= 15
    ensures WindowDigit(w) == d
  {
  }

  /** The digit at i, which is set: the following bits are added to it, or borrowed from the tail, until
      a set bit cannot be absorbed. */
  method Window(r: array<int>, i: nat, ghost w: int)
    requires r.Length == 256 && i < 256 && IsBits(r[..], i) && r[i] == 1 && Binary(r[..], i) == w
    modifies r
    ensures forall k :: 0 <= k < i ==> r[k] == old(r[k])
    ensures r[i] == WindowDigit(w) && w % 2 == 1 && IsBits(r[..], i + 1) && Zeros(r[..], i + 1, i + 5)
    ensures Binary(r[..], i) == w || (i <= 251 && w - r[i] == Shl(1, 256 - i) && Binary(r[..], i + 1) == 0)
  {
    hide Open, Shl, Zeros, Binary, WindowDigit;
    OpenStart(r[..], i, w);
    var b := 1;
    ghost var v := w;
    while b <= 6 && i + b < 256
      invariant b <= 7 && i + b <= 256 && Open(r[..], i, b, v)
      invariant forall k :: 0 <= k < i ==> r[k] == old(r[k])
      invariant v == w || (i <= 251 && v == w - Shl(1, 256 - i) && Binary(r[..], i + b) == 0)
      decreases 7 - b
    {
      var more;
      more, v := Absorb(r, i, b, v);
      if !more {
        break;
      }
      b := b + 1;
    }
    WindowEnd(r[..], i, b, v);
    if v != w {
      LostDigit(r[..], i, b, v, w);
    }
  }

  lemma OpenStart(r: seq<int>, i: nat, w: int)
    requires |r| == 256 && i < 256 && IsBits(r, i) && r[i] == 1 && Binary(r, i) == w
    ensures Open(r, i, 1, w) && w % 2 == 1
  {
    hide Shl;
    ShlNext(Binary(r, i + 1), 0);
    assert w == 1 + 2 * Binary(r, i + 1);
  }

  lemma LostDigit(r: seq<int>, i: nat, b: nat, v: int, w: int)
    requires Open(r, i, b, v) && i <= 251 && v == w - Shl(1, 256 - i) && Binary(r, i + b) == 0
    ensures v == r[i] == WindowDigit(v) == WindowDigit(w) && Binary(r, i + 1) == 0
  {
    ShlZero(b);
    BinaryZeros(r, i + 1, i + b);
    ShlZero(b - 1);
    ShlShl(1, 251 - i, 5);
    ShlFive(Shl(1, 251 - i));
    DigitUnique(r[i], w, Shl(1, 251 - i));
    DigitUnique(r[i], v, 0);
  }

  // -------------------------------------------------------------------------------------------
  // The bits of a scalar
  // -------------------------------------------------------------------------------------------

  /** Bit k of a byte: 1 & (b >> k). */
  function BitOf(b: Byte, k: nat): int {
    And(b / Power2(k), 1)
  }

  lemma BitIs(b: Byte, k: nat)
    ensures BitOf(b, k) == (b / Power2(k)) % 2
  {
    AndMod(b / Power2(k), 1);
  }

  lemma ByteBits(b: Byte, rest: int)
    ensures (b / 1) % 2 + 2 * ((b / 2) % 2 + 2 * ((b / 4) % 2 + 2 * ((b / 8) % 2 + 2 * ((b / 16) % 2 +
            2 * ((b / 32) % 2 + 2 * ((b / 64) % 2 + 2 * ((b / 128) % 2 + 2 * rest))))))) == b + 256 * rest
  {
    var x: int := b;
    assert x / 64 == 2 * (x / 128) + (x / 64) % 2;
    assert x / 32 == 2 * (x / 64) + (x / 32) % 2;
    assert x / 16 == 2 * (x / 32) + (x / 16) % 2;
    assert x / 8 == 2 * (x / 16) + (x / 8) % 2;
    assert x / 4 == 2 * (x / 8) + (x / 4) % 2;
    assert x / 2 == 2 * (x / 4) + (x / 2) % 2;
  }

  /** r[i] is bit i mod 8 of byte i / 8. */
  predicate BitsFrom(r: seq<int>, a: seq<Byte>)
    requires |r| == 256 && |a| == 32
  {
    forall i :: 0 <= i < 256 ==> r[i] == (a[i / 8] / Power2(i % 8)) % 2
  }

  lemma ByteBitsFrom(r: seq<int>, a: seq<Byte>, j: nat)
    requires |r| == 256 && |a| == 32 && j < 32 && BitsFrom(r, a)
    ensures forall k :: 8 * j <= k < 8 * j + 8 ==> r[k] == (a[j] / Power2(k - 8 * j)) % 2
  {
    forall k | 8 * j <= k < 8 * j + 8
      ensures r[k] == (a[j] / Power2(k - 8 * j)) % 2
    {
      DivModUnique(k, 8, j, k - 8 * j);
    }
  }

  lemma {:induction false} BitsValue(r: seq<int>, a: seq<Byte>, j: nat)
    requires |r| == 256 && |a| == 32 && j <= 32 && BitsFrom(r, a)
    ensures Binary(r, 8 * j) == LEFrom(a, j)
    decreases 32 - j
  {
    hide BitsFrom;
    if j < 32 {
      BitsValue(r, a, j + 1);
      ByteBitsFrom(r, a, j);
      EightBits(r, a[j], 8 * j);
    }
  }

  lemma EightBits(r: seq<int>, b: Byte, i: nat)
    requires i + 8 <= |r| && forall k :: i <= k < i + 8 ==> r[k] == (b / Power2(k - i)) % 2
    ensures Binary(r, i) == b + 256 * Binary(r, i + 8)
  {
    ByteBits(b, Binary(r, i + 8));
    assert Binary(r, i + 7) == r[i + 7] + 2 * Binary(r, i + 8);
    assert Binary(r, i + 5) == r[i + 5] + 2 * Binary(r, i + 6);
    assert Binary(r, i + 3) == r[i + 3] + 2 * Binary(r, i + 4);
    assert Binary(r, i + 1) == r[i + 1] + 2 * Binary(r, i + 2);
  }

  /** r[i] = 1 & (a[i >> 3] >> (i & 7)). */
  method LoadBits(r: array<int>, a: seq<Byte>)
    requires r.Length == 256 && |a| == 32
    modifies r
    ensures IsBits(r[..], 0) && Binary(r[..], 0) == LE(a)
  {
    for i := 0 to 256
      invariant forall k :: 0 <= k < i ==> r[k] == (a[k / 8] / Power2(k % 8)) % 2
    {
      BitIs(a[i / 8], i % 8);
      r[i] := BitOf(a[i / 8], i % 8);
    }
    BitsValue(r[..], a, 0);
  }

  /** The tail after a zero digit, and after a window. */
  lemma AfterZero(r: seq<int>, i: nat)
    requires |r| == 256 && i < 256 && r[i] == 0
    ensures CarriesOut(Binary(r, i), 256 - i) == CarriesOut(Binary(r, i + 1), 255 - i)
  {
    assert Binary(r, i) == 2 * Binary(r, i + 1);
  }

  lemma AfterWindow(r: seq<int>, i: nat, w: int)
    requires |r| == 256 && i < 256 && IsBits(r, i + 1) && Zeros(r, i + 1, i + 5) && w % 2 == 1
    requires r[i] == WindowDigit(w) && Binary(r, i) == w
    ensures CarriesOut(w, 256 - i) == CarriesOut(Binary(r, i + 1), 255 - i)
  {
    BinaryBound(r, i + 1);
    assert w - WindowDigit(w) == 2 * Binary(r, i + 1);
    if i > 251 {
      BinaryZeros(r, i + 1, 256);
      ShlZero(255 - i);
      ZeroStays(255 - i);
    }
  }

  /** The digits of a in binary positions: sum r[i] 2^i = a, unless a carry is lost; every nonzero digit
      odd and at most 15 in magnitude, with at least four zeros after it. */
  method Slide(r: array<int>, a: seq<Byte>)
    requires r.Length == 256 && |a| == 32
    modifies r
    ensures Binary(r[..], 0) == Recoded(LE(a))
    ensures forall j :: 0 <= j < 256 ==> Digit(r[..], j)
  {
    hide CarriesOut, WindowDigit, Digit, Zeros, Shl;
    LoadBits(r, a);
    Shl256();
    ghost var lost := false;
    for i := 0 to 256
      invariant IsBits(r[..], i) && (lost ==> Binary(r[..], i) == 0)
      invariant Binary(r[..], 0) == LE(a) - if lost then TWO_256 else 0
      invariant CarriesOut(LE(a), 256) == (lost || CarriesOut(Binary(r[..], i), 256 - i))
      invariant forall j :: 0 <= j < i ==> Digit(r[..], j)
    {
      ghost var s := r[..];
      BinaryBound(s, i + 1);
      if r[i] != 0 {
        Window(r, i, Binary(s, i));
        lost := AfterDigit(s, r[..], i, lost);
        DigitsKept(s, r[..], i, Binary(s, i));
      } else {
        AfterZero(s, i);
        ZeroDigit(s, i);
      }
    }
    ZeroStays(0);
  }

  lemma OddDigit(w: int)
    requires w % 2 == 1
    ensures WindowDigit(w) % 2 == 1 && -15 <= WindowDigit(w) <= 15
  {
    var q, r := w / 32, w % 32;
    assert w == 2 * (16 * q) + r;
    assert r - 32 == 2 * ((r - 32) / 2) + r % 2;
  }

  lemma ZeroDigit(r: seq<int>, i: nat)
    requires i < |r| && r[i] == 0
    ensures Digit(r, i)
  {
  }

  /** A window leaves the digits before it as they are, and the zeros after them. */
  lemma DigitsKept(s: seq<int>, r: seq<int>, i: nat, w: int)
    requires |s| == |r| == 256 && i < 256 && Zeros(r, i + 1, i + 5) && s[i] != 0
    requires w % 2 == 1 && r[i] == WindowDigit(w)
    requires forall j :: 0 <= j < i ==> r[j] == s[j] && Digit(s, j)
    ensures forall j :: 0 <= j <= i ==> Digit(r, j)
  {
    hide WindowDigit;
    OddDigit(w);
    forall j | 0 <= j < i
      ensures Digit(r, j)
    {
      assert Digit(s, j);
    }
  }

  /** What a window does to the value of all digits. */
  lemma AfterDigit(s: seq<int>, r: seq<int>, i: nat, before: bool) returns (lost: bool)
    requires |s| == |r| == 256 && i < 256 && !before && IsBits(r, i + 1) && Zeros(r, i + 1, i + 5)
    requires forall k :: 0 <= k < i ==> r[k] == s[k]
    requires r[i] == WindowDigit(Binary(s, i)) && Binary(s, i) % 2 == 1
    requires Binary(r, i) == Binary(s, i)
             || (i <= 251 && Binary(s, i) - r[i] == Shl(1, 256 - i) && Binary(r, i + 1) == 0)
    ensures lost ==> Binary(r, i + 1) == 0
    ensures Binary(r, 0) == Binary(s, 0) - if lost then Shl(1, 256) else 0
    ensures CarriesOut(Binary(s, i), 256 - i) == (lost || CarriesOut(Binary(r, i + 1), 255 - i))
  {
    var w := Binary(s, i);
    lost := Binary(r, i) != w;
    if lost {
      BinaryBelow(s, r, i, 0, -Shl(1, 256 - i));
      ShlSum(0, Shl(1, 256 - i), i);
      ShlZero(i);
      ShlShl(1, 256 - i, i);
    } else {
      BinaryBelow(s, r, i, 0, 0);
      ShlZero(i);
      AfterWindow(r, i, w);
    }
  }
}
