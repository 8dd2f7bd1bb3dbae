/** The word functions of SHA-512: as section 4.1.3 of FIPS 180-4 defines them, and as the macros of
    keypair/sha512.c. */
module Sha512Words {
  import opened Bits
  import opened Bytes
  import opened Positional
  import Power

  /** A uint64_t. */
  type Word = bv64

  type Eight = s: seq<Word> | |s| == 8 witness [0, 0, 0, 0, 0, 0, 0, 0]

  function Add(x: Word, y: Word): Word {
    x + y
  }

  // -------------------------------------------------------------------------------------------
  // Rotations
  // -------------------------------------------------------------------------------------------

  function Sigma0(x: Word): Word {
    x.RotateRight(28) ^ x.RotateRight(34) ^ x.RotateRight(39)
  }

  function Sigma1(x: Word): Word {
    x.RotateRight(14) ^ x.RotateRight(18) ^ x.RotateRight(41)
  }

  function Gamma0(x: Word): Word {
    x.RotateRight(1) ^ x.RotateRight(8) ^ (x >> 7)
  }

  function Gamma1(x: Word): Word {
    x.RotateRight(19) ^ x.RotateRight(61) ^ (x >> 6)
  }

  // The macros, with ROR64c(x, n) as (x >> n) | (x << (64 - n)).

  function Sigma0Macro(x: Word): Word {
    ((x >> 28) | (x << 36)) ^ ((x >> 34) | (x << 30)) ^ ((x >> 39) | (x << 25))
  }

  function Sigma1Macro(x: Word): Word {
    ((x >> 14) | (x << 50)) ^ ((x >> 18) | (x << 46)) ^ ((x >> 41) | (x << 23))
  }

  function Gamma0Macro(x: Word): Word {
    ((x >> 1) | (x << 63)) ^ ((x >> 8) | (x << 56)) ^ (x >> 7)
  }

  function Gamma1Macro(x: Word): Word {
    ((x >> 19) | (x << 45)) ^ ((x >> 61) | (x << 3)) ^ (x >> 6)
  }

  lemma RotationsAre(x: Word)
    ensures Sigma0Macro(x) == Sigma0(x)
    ensures Sigma1Macro(x) == Sigma1(x)
    ensures Gamma0Macro(x) == Gamma0(x)
    ensures Gamma1Macro(x) == Gamma1(x)
  {
  }

  // -------------------------------------------------------------------------------------------
  // Choice and majority
  // -------------------------------------------------------------------------------------------

  /** Bit by bit, y where x has a one and z where it has a zero. */
  function Choose(x: Word, y: Word, z: Word): Word {
    (x & y) | (!x & z)
  }

  /** Bit by bit, a one where at least two operands have one. */
  function Majority(x: Word, y: Word, z: Word): Word {
    (x & y) | (x & z) | (y & z)
  }

  /** The macro Ch. */
  function ChooseMacro(x: Word, y: Word, z: Word): Word {
    z ^ (x & (y ^ z))
  }

  /** The macro Maj. */
  function MajorityMacro(x: Word, y: Word, z: Word): Word {
    ((x | y) & z) | (x & y)
  }

  lemma ChooseBits(x: Word, y: Word, z: Word)
    ensures z ^ (x & (y ^ z)) == (x & y) | (!x & z)
  {
  }

  lemma MajorityBits(x: Word, y: Word, z: Word)
    ensures ((x | y) & z) | (x & y) == (x & y) | (x & z) | (y & z)
  {
  }

  lemma ChooseIs(x: Word, y: Word, z: Word)
    ensures ChooseMacro(x, y, z) == Choose(x, y, z)
  {
    ChooseBits(x, y, z);
  }

  lemma MajorityIs(x: Word, y: Word, z: Word)
    ensures MajorityMacro(x, y, z) == Majority(x, y, z)
  {
    MajorityBits(x, y, z);
  }

  // -------------------------------------------------------------------------------------------
  // Loads and stores
  // -------------------------------------------------------------------------------------------

  /** The values of a uint64_t that counts bits. */
  type U64 = n: int | 0 <= n < 0x1_0000_0000_0000_0000

  /** A byte as a word. */
  function Extended(b: Byte): Word {
    (b as bv8) as Word
  }

  /** LOAD64H: the big-endian word of eight bytes. */
  function WordAt(s: seq<Byte>, i: nat): Word
    requires i + 8 <= |s|
  {
    (Extended(s[i]) << 56) | (Extended(s[i + 1]) << 48) | (Extended(s[i + 2]) << 40) | (Extended(s[i + 3]) << 32)
    | (Extended(s[i + 4]) << 24) | (Extended(s[i + 5]) << 16) | (Extended(s[i + 6]) << 8) | Extended(s[i + 7])
  }

  /** The low byte of a word. */
  function LowByte(x: Word): Byte {
    ((x & 255) as bv8) as Byte
  }

  /** STORE64H: the bytes of a word, most significant first. */
  function WordBytes(x: Word): (s: seq<Byte>)
    ensures |s| == 8
  {
    [LowByte(x >> 56), LowByte(x >> 48), LowByte(x >> 40), LowByte(x >> 32),
     LowByte(x >> 24), LowByte(x >> 16), LowByte(x >> 8), LowByte(x)]
  }

  /** The bytes of the bit counter. */
  function CountBytes(n: U64): (s: seq<Byte>)
    ensures |s| == 8
  {
    WordBytes(n as Word)
  }

  lemma NextByte(x: bv8)
    requires x < 255
    ensures (x + 1) as nat == x as nat + 1
  {
  }

  lemma {:induction false} ByteOf(b: Byte) returns (x: bv8)
    ensures x as nat == b
    decreases b
  {
    if b == 0 {
      x := 0;
    } else {
      x := ByteOf(b - 1);
      NextByte(x);
      x := x + 1;
    }
  }

  lemma SameByte(x: bv8, b: Byte)
    requires x as nat == b
    ensures b as bv8 == x
  {
  }

  lemma ByteOfExtended(b: Byte)
    ensures (b as bv8) as nat == b
  {
    var x := ByteOf(b);
    SameByte(x, b);
  }

  function Places(a: int, b: int, c: int, d: int, e: int, f: int, g: int, h: int): int {
    a * 0x100_0000_0000_0000 + b * 0x1_0000_0000_0000 + c * 0x100_0000_0000 + d * 0x1_0000_0000
    + e * 0x100_0000 + f * 0x1_0000 + g * 0x100 + h
  }

  lemma NextPlace(x: Word, b: bv8)
    requires x < 0x100_0000_0000_0000
    ensures ((x << 8) | (b as Word)) as nat == 256 * x as nat + b as nat
  {
  }

  lemma Nested(a: Word, b: Word, c: Word, d: Word, e: Word, f: Word, g: Word, h: Word)
    ensures (a << 56) | (b << 48) | (c << 40) | (d << 32) | (e << 24) | (f << 16) | (g << 8) | h
            == (((((((((((((a << 8) | b) << 8) | c) << 8) | d) << 8) | e) << 8) | f) << 8) | g) << 8) | h
  {
  }

  lemma PlacesOf(a: bv8, b: bv8, c: bv8, d: bv8, e: bv8, f: bv8, g: bv8, h: bv8)
    ensures (((a as Word) << 56) | ((b as Word) << 48) | ((c as Word) << 40) | ((d as Word) << 32)
             | ((e as Word) << 24) | ((f as Word) << 16) | ((g as Word) << 8) | (h as Word)) as nat
            == Places(a as nat, b as nat, c as nat, d as nat, e as nat, f as nat, g as nat, h as nat)
  {
    Nested(a as Word, b as Word, c as Word, d as Word, e as Word, f as Word, g as Word, h as Word);
    var x := a as Word;
    OneByte(a);
    NextPlace(x, b);
    x := (x << 8) | (b as Word);
    NextPlace(x, c);
    x := (x << 8) | (c as Word);
    NextPlace(x, d);
    x := (x << 8) | (d as Word);
    NextPlace(x, e);
    x := (x << 8) | (e as Word);
    NextPlace(x, f);
    x := (x << 8) | (f as Word);
    NextPlace(x, g);
    x := (x << 8) | (g as Word);
    NextPlace(x, h);
  }

  lemma OneByte(a: bv8)
    ensures (a as Word) as nat == a as nat
  {
  }

  lemma LowWord(x: Word)
    ensures ((x & 255) as bv8) as Word == x & 255
  {
  }

  lemma ExtendedLow(x: Word)
    ensures Extended(LowByte(x)) == x & 255
  {
    var b := (x & 255) as bv8;
    SameByte(b, b as Byte);
    LowWord(x);
  }

  lemma BytesOfWord(x: Word)
    ensures (((x >> 56) & 255) << 56) | (((x >> 48) & 255) << 48) | (((x >> 40) & 255) << 40)
            | (((x >> 32) & 255) << 32) | (((x >> 24) & 255) << 24) | (((x >> 16) & 255) << 16)
            | (((x >> 8) & 255) << 8) | (x & 255)
            == x
  {
  }

  /** Storing a word and loading it again. */
  lemma LoadStored(x: Word)
    ensures WordAt(WordBytes(x), 0) == x
  {
    hide Extended, LowByte;
    BytesOfWord(x);
    ExtendedLow(x >> 56);
    ExtendedLow(x >> 48);
    ExtendedLow(x >> 40);
    ExtendedLow(x >> 32);
    ExtendedLow(x >> 24);
    ExtendedLow(x >> 16);
    ExtendedLow(x >> 8);
    ExtendedLow(x);
  }

  lemma NumberStep(s: seq<Byte>, k: nat)
    requires k < |s|
    ensures Number(256, s[..k + 1]) == 256 * Number(256, s[..k]) + s[k] && s[..0] == []
  {
    assert s[..k + 1][..k] == s[..k];
  }

  lemma NumberEight(s: seq<Byte>)
    requires |s| == 8
    ensures Number(256, s) == Places(s[0], s[1], s[2], s[3], s[4], s[5], s[6], s[7])
  {
    hide Continued;
    assert s[..8] == s;
    NumberNone();
    NumberStep(s, 0);
    NumberStep(s, 1);
    NumberStep(s, 2);
    NumberStep(s, 3);
    NumberStep(s, 4);
    NumberStep(s, 5);
    NumberStep(s, 6);
    NumberStep(s, 7);
  }

  lemma NumberNone()
    ensures Number(256, []) == 0
  {
  }

  lemma ExtendedAt(s: seq<Byte>, i: nat)
    requires i + 8 <= |s|
    ensures WordAt(s, i) as nat
            == Places(s[i], s[i + 1], s[i + 2], s[i + 3], s[i + 4], s[i + 5], s[i + 6], s[i + 7])
  {
    hide Places;
    var a: bv8, b: bv8, c: bv8, d: bv8 := s[i] as bv8, s[i + 1] as bv8, s[i + 2] as bv8, s[i + 3] as bv8;
    var e: bv8, f: bv8, g: bv8, h: bv8 := s[i + 4] as bv8, s[i + 5] as bv8, s[i + 6] as bv8, s[i + 7] as bv8;
    PlacesOf(a, b, c, d, e, f, g, h);
    ByteOfExtended(s[i]);
    ByteOfExtended(s[i + 1]);
    ByteOfExtended(s[i + 2]);
    ByteOfExtended(s[i + 3]);
    ByteOfExtended(s[i + 4]);
    ByteOfExtended(s[i + 5]);
    ByteOfExtended(s[i + 6]);
    ByteOfExtended(s[i + 7]);
  }

  /** A loaded word is the number that the bytes stand for. */
  lemma PlaceValue(s: seq<Byte>, i: nat)
    requires i + 8 <= |s|
    ensures WordAt(s, i) as nat == Number(256, s[i..i + 8])
  {
    hide WordAt;
    ExtendedAt(s, i);
    NumberEight(s[i..i + 8]);
  }

  /** The k low bytes of a number. */
  function LowBytes(n: nat, k: nat): (s: seq<Byte>)
    ensures |s| == k
  {
    if k == 0 then [] else LowBytes(n / 256, k - 1) + [n % 256]
  }

  lemma {:induction false} LowBytesValue(n: nat, k: nat)
    requires n < Pow2(8 * k)
    ensures Number(256, LowBytes(n, k)) == n
  {
    if k > 0 {
      Power.Pow2Add(8, 8 * (k - 1));
      PowersOfTwo();
      LowBytesValue(n / 256, k - 1);
      assert LowBytes(n, k)[..k - 1] == LowBytes(n / 256, k - 1);
    }
  }

  lemma WordOf(n: U64) returns (x: Word)
    ensures x as nat == n
  {
    hide WordAt, Number;
    var s := LowBytes(n, 8);
    PowersOfTwo();
    Power.Pow2Add(32, 32);
    LowBytesValue(n, 8);
    PlaceValue(s, 0);
    assert s[0..8] == s;
    x := WordAt(s, 0);
  }

  lemma AsWord(x: Word, n: U64)
    requires x as nat == n
    ensures n as Word == x
  {
  }

  /** A stored bit counter is its number, most significant byte first. */
  lemma CountValue(n: U64)
    ensures Number(256, CountBytes(n)) == n
  {
    hide WordAt, WordBytes;
    var x := WordOf(n);
    AsWord(x, n);
    LoadStored(x);
    PlaceValue(WordBytes(x), 0);
    assert CountBytes(n)[0..8] == CountBytes(n);
  }
}
