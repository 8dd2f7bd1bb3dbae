/** Base58 text (solana/solana_encoding.c:7-201): each leading zero byte is a leading '1', and the
    rest is the same number in base 256 and in base 58. */
module Base58 {
  import opened Bytes
  import opened Power
  import opened Positional
  import opened Wrappers
  import Machine

  const ALPHABET: string := "123456789ABCDEFGH" + "JKLMNPQRSTUVWXYZ" + "abcdefghijkmnopqrstuvwxyz"

  /** solana_base58_value */
  function Base58Value(c: char): int {
    if '1' <= c <= '9' then c as int - '1' as int
    else if 'A' <= c <= 'H' then c as int - 'A' as int + 9
    else if 'J' <= c <= 'N' then c as int - 'J' as int + 17
    else if 'P' <= c <= 'Z' then c as int - 'P' as int + 22
    else if 'a' <= c <= 'k' then c as int - 'a' as int + 33
    else if 'm' <= c <= 'z' then c as int - 'm' as int + 44
    else -1
  }

  lemma FirstSymbols(c: char)
    requires '1' <= c <= '9' || 'A' <= c <= 'H'
    ensures 0 <= Base58Value(c) < 17 && "123456789ABCDEFGH"[Base58Value(c)] == c
  {
  }

  lemma MiddleSymbols(c: char)
    requires 'J' <= c <= 'N' || 'P' <= c <= 'Z'
    ensures 17 <= Base58Value(c) < 33 && "JKLMNPQRSTUVWXYZ"[Base58Value(c) - 17] == c
  {
  }

  lemma LastSymbols(c: char)
    requires 'a' <= c <= 'k' || 'm' <= c <= 'z'
    ensures 33 <= Base58Value(c) < 58 && "abcdefghijkmnopqrstuvwxyz"[Base58Value(c) - 33] == c
  {
  }

  lemma AlphabetAt(s: string, t: string, u: string, k: int)
    requires |s| == 17 && |t| == 16 && |u| == 25 && 0 <= k < 58
    ensures (s + t + u)[k] == if k < 17 then s[k] else if k < 33 then t[k - 17] else u[k - 33]
  {
  }

  /** The value is the position in the alphabet, and -1 outside it. */
  lemma SymbolOfValue(c: char)
    ensures Base58Value(c) == -1 || (0 <= Base58Value(c) < |ALPHABET| == 58 && ALPHABET[Base58Value(c)] == c)
  {
    if Base58Value(c) != -1 {
      if c <= 'H' {
        FirstSymbols(c);
      } else if c <= 'Z' {
        MiddleSymbols(c);
      } else {
        LastSymbols(c);
      }
      AlphabetAt("123456789ABCDEFGH", "JKLMNPQRSTUVWXYZ", "abcdefghijkmnopqrstuvwxyz", Base58Value(c));
    }
  }

  /** The symbol with value k. */
  function Symbol(k: int): (c: char)
    requires 0 <= k < 58
    ensures Base58Value(c) == k
  {
    (if k < 9 then '1' as int + k
     else if k < 17 then 'A' as int + k - 9
     else if k < 22 then 'J' as int + k - 17
     else if k < 33 then 'P' as int + k - 22
     else if k < 44 then 'a' as int + k - 33
     else 'm' as int + k - 44) as char
  }

  lemma ValueOfSymbol(k: int)
    requires 0 <= k < 58
    ensures |ALPHABET| == 58 && Base58Value(ALPHABET[k]) == k
  {
    SymbolOfValue(Symbol(k));
  }

  lemma AlphabetSymbol(k: int)
    requires 0 <= k < 58
    ensures |ALPHABET| == 58 && ALPHABET[k] == Symbol(k)
  {
    SymbolOfValue(Symbol(k));
  }

  /** The digits and letters without 0, O, I and l, in the order of their codes. */
  lemma AlphabetIs(c: char)
    ensures |ALPHABET| == 58 && forall i, j :: 0 <= i < j < 58 ==> ALPHABET[i] < ALPHABET[j]
    ensures c in ALPHABET <==>
              ('0' <= c <= '9' || 'A' <= c <= 'Z' || 'a' <= c <= 'z') && c !in {'0', 'O', 'I', 'l'}
  {
    hide ALPHABET;
    SymbolOfValue('1');
    SymbolOfValue(c);
    forall k | 0 <= k < 58
      ensures ALPHABET[k] == Symbol(k)
    {
      AlphabetSymbol(k);
    }
    if c in ALPHABET {
      var k :| 0 <= k < |ALPHABET| && ALPHABET[k] == c;
      assert c == Symbol(k);
    }
  }

  predicate IsText(t: string) {
    forall i :: 0 <= i < |t| ==> Base58Value(t[i]) >= 0
  }

  function Values(t: string): (s: seq<int>)
    ensures |s| == |t| && (forall i :: 0 <= i < |t| ==> s[i] == Base58Value(t[i]))
  {
    seq(|t|, i requires 0 <= i < |t| => Base58Value(t[i]))
  }

  function Symbols(s: seq<int>): (t: string)
    requires IsDigits(58, s)
    ensures |t| == |s| && (forall i :: 0 <= i < |s| ==> t[i] == ALPHABET[s[i]])
  {
    seq(|s|, i requires 0 <= i < |s| => ALPHABET[s[i]])
  }

  lemma ValuesSymbols(s: seq<int>)
    requires IsDigits(58, s)
    ensures Values(Symbols(s)) == s && IsText(Symbols(s))
  {
    forall i | 0 <= i < |s|
      ensures Base58Value(Symbols(s)[i]) == s[i]
    {
      ValueOfSymbol(s[i]);
    }
  }

  lemma SymbolsValues(t: string)
    requires IsText(t)
    ensures IsDigits(58, Values(t)) && Symbols(Values(t)) == t
  {
    forall i | 0 <= i < |t|
      ensures 0 <= Base58Value(t[i]) < 58 && ALPHABET[Base58Value(t[i])] == t[i]
    {
      SymbolOfValue(t[i]);
    }
  }

  // -------------------------------------------------------------------------------------------
  // What Base58 is
  // -------------------------------------------------------------------------------------------

  function Zeros(d: seq<int>): (n: nat)
    ensures n <= |d|
  {
    Leading(d, 0)
  }

  /** The text t stands for the bytes d. */
  predicate Represents(t: string, d: seq<Byte>) {
    && IsText(t)
    && Leading(t, '1') == Zeros(d)
    && Number(58, Values(t)) == Number(256, d)
  }

  function Encoded(d: seq<Byte>): string {
    var z := Zeros(d);
    NumberBounds(256, d[z..]);
    DigitsMean(58, Number(256, d[z..]));
    Repeat('1', z) + Symbols(Digits(58, Number(256, d[z..])))
  }

  function Decoded(t: string): Option<seq<Byte>> {
    if !IsText(t) then None else
      var z := Leading(t, '1');
      SymbolsValues(t[z..]);
      NumberBounds(58, Values(t[z..]));
      DigitsMean(256, Number(58, Values(t[z..])));
      Some(ZeroBytes(z) + AsBytes(Digits(256, Number(58, Values(t[z..])))))
  }

  function ZeroBytes(n: nat): (s: seq<Byte>)
    ensures s == Repeat<int>(0, n)
  {
    seq(n, _ => 0)
  }

  function AsBytes(s: seq<int>): (d: seq<Byte>)
    requires IsDigits(256, s)
    ensures d == s
  {
    seq(|s|, i requires 0 <= i < |s| => s[i] as Byte)
  }

  lemma ValuesSplit(t: string, z: nat, r: string)
    requires t == Repeat('1', z) + r
    ensures Values(t) == Repeat<int>(0, z) + Values(r)
    ensures IsText(t) <==> IsText(r)
  {
    assert Base58Value('1') == 0;
    forall i | 0 <= i < |r|
      ensures t[z + i] == r[i]
    {
    }
  }

  lemma NumbersSplit(t: string, d: seq<Byte>)
    ensures Number(58, Values(t)) == Number(58, Values(t[Leading(t, '1')..]))
    ensures Number(256, d) == Number(256, d[Zeros(d)..])
  {
    var y, z := Leading(t, '1'), Zeros(d);
    LeadingSplit(t, '1');
    LeadingSplit<int>(d, 0);
    ValuesSplit(t, y, t[y..]);
    LeadingZeros(58, y, Values(t[y..]));
    LeadingZeros(256, z, d[z..]);
  }

  lemma ZeroIsOne(c: char)
    ensures Base58Value(c) == 0 <==> c == '1'
  {
  }

  /** Encoded(d) is the one text that stands for d. */
  lemma EncodedIs(t: string, d: seq<Byte>)
    ensures Represents(t, d) <==> t == Encoded(d)
  {
    var z := Zeros(d);
    var s := d[z..];
    NumberBounds(256, s);
    var v := Number(256, s);
    DigitsMean(58, v);
    NumbersSplit(t, d);
    if t == Encoded(d) {
      var r := Symbols(Digits(58, v));
      ValuesSymbols(Digits(58, v));
      ValuesSplit(t, z, r);
      LeadingZeros(58, z, Digits(58, v));
      if r != [] {
        ZeroIsOne(r[0]);
        assert Values(r)[0] != 0;
      }
      LeadingOf('1', z, r);
    }
    if Represents(t, d) {
      LeadingSplit(t, '1');
      var r := t[z..];
      ValuesSplit(t, z, r);
      SymbolsValues(r);
      if r != [] {
        ZeroIsOne(r[0]);
      }
      DigitsUnique(58, Values(r));
    }
  }

  lemma PaddedRepresents(t: string, s: seq<Byte>)
    requires IsText(t) && (s == [] || s[0] != 0) && Number(256, s) == Number(58, Values(t))
    ensures Represents(t, ZeroBytes(Leading(t, '1')) + s)
  {
    LeadingOf<int>(0, Leading(t, '1'), s);
    LeadingZeros(256, Leading(t, '1'), s);
  }

  lemma RepresentedBytes(t: string, d: seq<Byte>)
    requires Represents(t, d)
    ensures Number(58, Values(t)) >= 0 && d == ZeroBytes(Leading(t, '1')) + Digits(256, Number(58, Values(t)))
  {
    var z := Zeros(d);
    LeadingSplit<int>(d, 0);
    LeadingZeros(256, z, d[z..]);
    DigitsUnique(256, d[z..]);
  }

  /** Decoded(t) is the one byte string that t stands for. */
  lemma DecodedIs(t: string, d: seq<Byte>)
    ensures Represents(t, d) <==> Decoded(t) == Some(d)
  {
    if IsText(t) {
      var z := Leading(t, '1');
      SymbolsValues(t[z..]);
      NumberBounds(58, Values(t[z..]));
      var v := Number(58, Values(t[z..]));
      DigitsMean(256, v);
      NumbersSplit(t, d);
      PaddedRepresents(t, AsBytes(Digits(256, v)));
      if Represents(t, d) {
        RepresentedBytes(t, d);
      }
    }
  }

  /** Decoding undoes encoding. */
  lemma DecodeEncode(d: seq<Byte>)
    ensures Decoded(Encoded(d)) == Some(d)
  {
    EncodedIs(Encoded(d), d);
    DecodedIs(Encoded(d), d);
  }

  /** The text of n zero bytes. */
  lemma ZerosText(n: nat)
    ensures Encoded(ZeroBytes(n)) == Repeat('1', n) && Decoded(Repeat('1', n)) == Some(ZeroBytes(n))
  {
    var t, d := Repeat('1', n), ZeroBytes(n);
    assert t + [] == t;
    assert Repeat<int>(0, n) + [] == Repeat<int>(0, n);
    ValuesSplit(t, n, []);
    LeadingOf('1', n, []);
    LeadingOf<int>(0, n, []);
    LeadingZeros(58, n, []);
    LeadingZeros(256, n, []);
    EncodedIs(t, d);
    DecodedIs(t, d);
  }

  /** Encoding undoes decoding: a text that decodes is the only encoding of what it decodes to. */
  lemma EncodeDecode(t: string)
    requires Decoded(t).Some?
    ensures Encoded(Decoded(t).value) == t
  {
    var d := Decoded(t).value;
    DecodedIs(t, d);
    EncodedIs(t, d);
  }

  // -------------------------------------------------------------------------------------------
  // The work buffers
  // -------------------------------------------------------------------------------------------

  function EncodeSize(n: nat): nat { n * 138 / 100 + 1 }

  function DecodeSize(m: nat): nat { m * 733 / 1000 + 1 }

  /** The encoder's buffer holds every number of n bytes. */
  lemma EncodeBufferHolds(n: nat)
    ensures Pow(58, EncodeSize(n)) > Pow(256, n)
  {
    assert Pow(256, 8) <= Pow(58, 11);
    EnoughDigits(256, 8, 58, 11, n, EncodeSize(n));
  }

  lemma PowSum(x: int, a: nat, v: int, b: nat, w: int)
    requires Pow(x, a) == v && Pow(x, b) == w
    ensures Pow(x, a + b) == v * w
  {
    PowAdd(x, a, b);
  }

  lemma SmallPowers()
    ensures Pow(58, 8) == 0x7479027ea100 && Pow(58, 9) == 0x1a636a90b07a00
            && Pow(256, 13) == 0x100000000000000000000000000
  {
  }

  lemma Pow256(n: nat)
    requires n == 13
    ensures Pow(256, n + n + n + n)
            == 0x10000000000000000000000000000000000000000000000000000
               * 0x10000000000000000000000000000000000000000000000000000
  {
    hide Pow;
    SmallPowers();
    PowSum(256, n, 0x100000000000000000000000000, n, 0x100000000000000000000000000);
    PowSum(256, n + n, 0x10000000000000000000000000000000000000000000000000000, n + n,
           0x10000000000000000000000000000000000000000000000000000);
  }

  lemma Pow58(n: nat)
    requires n == 9
    ensures Pow(58, n + n + n + n + n + n + n + n - 1)
            == 0x7661fffc79dc527cbe58429a0bc53ca4176003162551000000000
               * 0x20a8469deca6b5a6d367cbc0907d07e6a5584778de2800000000
  {
    hide Pow;
    SmallPowers();
    PowSum(58, n, 0x1a636a90b07a00, n - 1, 0x7479027ea100);
    PowSum(58, n, 0x1a636a90b07a00, n, 0x1a636a90b07a00);
    PowSum(58, n + n, 0x2b85840fc1d6a480ae7fa240000, n + n - 1, 0xc018588c2b6cc46cf08ba0000);
    PowSum(58, n + n, 0x2b85840fc1d6a480ae7fa240000, n + n, 0x2b85840fc1d6a480ae7fa240000);
    PowSum(58, n + n + n + n, 0x7661fffc79dc527cbe58429a0bc53ca4176003162551000000000, n + n + n + n - 1,
           0x20a8469deca6b5a6d367cbc0907d07e6a5584778de2800000000);
  }

  /** The decoder's buffer holds every number of m Base58 digits. */
  lemma DecodeBufferHolds(m: nat)
    ensures Pow(256, DecodeSize(m)) > Pow(58, m)
  {
    Pow58(9);
    Pow256(13);
    EnoughDigits(58, 71, 256, 52, m, DecodeSize(m));
  }

  lemma StepValue(m: int, b: int, n: int, t: int, carry: int)
    requires b > 1
    ensures b * (m * n + (carry + m * t) / b) + (carry + m * t) % b == m * (b * n + t) + carry
  {
    var c := carry + m * t;
    var q := c / b;
    assert b * (m * n + q) == m * (b * n) + b * q;
    assert m * (b * n + t) == m * (b * n) + m * t;
  }

  lemma StepCarry(m: int, b: int, t: int, carry: int)
    requires 1 < m <= 256 && 1 < b <= 256 && 0 <= t < b && 0 <= carry < m
    ensures 0 <= (carry + m * t) / b < m && 0 <= m * t && carry + m * t < 0x1_0000
  {
    var c := carry + m * t;
    Machine.MulMonotone(m, t, b - 1);
    Machine.MulMonotone(m, 0, t);
    Machine.MulMonotone(m, b, 256);
    assert m * (b - 1) == m * b - m;
    assert c < b * m;
    QuotientBelow(c, b, m);
  }

  lemma QuotientBelow(c: int, b: int, m: int)
    requires b > 0 && 0 <= c < b * m
    ensures 0 <= c / b < m
  {
    var q := c / b;
    assert c == b * q + c % b;
    if q >= m {
      Machine.MulMonotone(b, m, q);
    }
    if q < 0 {
      Machine.MulMonotone(b, q, -1);
    }
  }

  lemma StepContinued(m: int, b: int, n: int, t: int, carry: int, low: seq<int>)
    requires b > 1
    ensures Continued(b, m * n + (carry + m * t) / b, [(carry + m * t) % b] + low)
            == Continued(b, m * (b * n + t) + carry, low)
  {
    StepValue(m, b, n, t, carry);
    ContinuedPrepend(b, m * n + (carry + m * t) / b, (carry + m * t) % b, low);
  }

  lemma NoCarryLeft(b: int, carry: int, s: seq<int>)
    requires b > 1 && carry >= 0 && IsDigits(b, s) && Continued(b, carry, s) < Pow(b, |s|)
    ensures carry == 0
  {
    ContinuedBounds(b, carry, s);
    if carry > 0 {
      PowPositive(b, |s|);
      Machine.MulMonotone(Pow(b, |s|), 1, carry);
      assert false;
    }
  }

  /** The inner loop of both conversions: the number in the buffer, in base b, becomes m times
      itself plus the digit.  No carry is lost when the result fits. */
  method Absorb(buffer: array<Byte>, m: int, b: int, digit: int)
    requires 1 < m <= 256 && 1 < b <= 256 && 0 <= digit < m && IsDigits(b, buffer[..])
    requires m * Number(b, buffer[..]) + digit < Pow(b, buffer.Length)
    modifies buffer
    ensures IsDigits(b, buffer[..])
    ensures Number(b, buffer[..]) == m * Number(b, old(buffer[..])) + digit
  {
    hide Continued, Pow, IsDigits;
    ghost var start: seq<int> := buffer[..];
    ghost var total := m * Number(b, start) + digit;
    var carry, j := digit, buffer.Length;
    ghost var value := total;
    assert start[..j] == start && buffer[j..] == [];
    ContinuedNothing(b, value);
    NoDigits(b);
    while j > 0
      invariant 0 <= j <= buffer.Length && 0 <= carry < m
      invariant buffer[..j] == start[..j] && IsDigits(b, buffer[j..])
      invariant value == m * Number(b, start[..j]) + carry && Continued(b, value, buffer[j..]) == total
    {
      ghost var high, low, was := Number(b, start[..j - 1]), buffer[j..], carry;
      var t := buffer[j - 1];
      assert t == buffer[..j][j - 1] == start[j - 1];
      DigitAt(b, start, j - 1);
      NumberStep(b, start, 0, j - 1);
      StepCarry(m, b, t, carry);
      StepContinued(m, b, high, t, was, low);
      carry := Machine.I32(carry + m * t);
      buffer[j - 1] := carry % b;
      carry := carry / b;
      j := j - 1;
      assert buffer[j..] == [(was + m * t) % b] + low;
      DigitBefore(b, (was + m * t) % b, low);
      value := m * high + carry;
    }
    assert buffer[0..] == buffer[..] && start[..0] == [];
    ContinuedNothing(b, 0);
    NoCarryLeft(b, carry, buffer[..]);
  }

  lemma NoDigits(b: int)
    ensures IsDigits(b, [])
  {
  }

  lemma DigitAt(b: int, s: seq<int>, i: int)
    requires IsDigits(b, s) && 0 <= i < |s|
    ensures 0 <= s[i] < b
  {
  }

  lemma DigitBefore(b: int, d: int, s: seq<int>)
    requires IsDigits(b, s) && 0 <= d < b
    ensures IsDigits(b, [d] + s)
  {
  }

  lemma ContinuedNothing(b: int, x: int)
    ensures Continued(b, x, []) == x
  {
  }

  lemma NumberStep(b: int, s: seq<int>, i: int, j: int)
    requires 0 <= i <= j < |s|
    ensures Number(b, s[i..j + 1]) == b * Number(b, s[i..j]) + s[j]
  {
    assert s[i..j + 1][..j - i] == s[i..j];
  }

  lemma FitsBuffer(m: int, s: seq<int>, i: int, j: int, limit: int)
    requires m > 1 && 0 <= i <= j < |s| && IsDigits(m, s[i..j + 1]) && Pow(m, |s| - i) < limit
    ensures m * Number(m, s[i..j]) + s[j] < limit
  {
    NumberStep(m, s, i, j);
    NumberBounds(m, s[i..j + 1]);
    PowMonotone(m, j + 1 - i, |s| - i);
  }

  lemma Zero(b: int, n: nat)
    ensures Number(b, Repeat<int>(0, n)) == 0
  {
    LeadingZeros(b, n, []);
    assert Repeat<int>(0, n) + [] == Repeat<int>(0, n);
  }

  /** The digits that follow the leading zeros of a buffer are those of its number. */
  lemma Trimmed(b: int, s: seq<int>, i: nat)
    requires b > 1 && IsDigits(b, s) && i == Zeros(s)
    ensures Number(b, s) >= 0 && Digits(b, Number(b, s)) == s[i..]
  {
    LeadingSplit(s, 0);
    LeadingZeros(b, i, s[i..]);
    DigitsUnique(b, s[i..]);
  }

  /** The index of the first digit that is not zero. */
  method SkipZeros(buffer: array<Byte>) returns (idx: nat)
    ensures idx == Zeros(buffer[..])
  {
    idx := 0;
    while idx < buffer.Length && buffer[idx] == 0
      invariant 0 <= idx <= buffer.Length
      invariant forall k :: 0 <= k < idx ==> buffer[k] == 0
    {
      idx := idx + 1;
    }
    LeadingIs<int>(buffer[..], 0, idx);
  }

  /** How long a text can get. */
  lemma EncodedSize(d: seq<Byte>)
    ensures |Encoded(d)| <= EncodeSize(|d|)
  {
    var r := d[Zeros(d)..];
    NumberBounds(256, r);
    EncodeBufferHolds(|r|);
    DigitsLength(58, Number(256, r), EncodeSize(|r|));
  }

  // -------------------------------------------------------------------------------------------
  // Encoding
  // -------------------------------------------------------------------------------------------

  /** The conversion loop of solana_base58_encode. */
  method ToBase58(data: seq<Byte>, zeros: nat) returns (buffer: array<Byte>, idx: nat)
    requires zeros == Zeros(data) < |data| && 138 * |data| < 0x1_0000_0000_0000_0000
    ensures fresh(buffer) && idx <= buffer.Length && IsDigits(58, buffer[idx..])
    ensures Encoded(data) == Repeat('1', zeros) + Symbols(buffer[idx..])
    ensures |Encoded(data)| == zeros + (buffer.Length - idx)
  {
    hide Number;
    var size := ((|data| - zeros) * 138) / 100 + 1;
    EncodeBufferHolds(|data| - zeros);
    buffer := new Byte[size](_ => 0);
    Zero(58, size);
    Zero(256, 0);
    assert buffer[..] == Repeat<int>(0, size);
    assert data[zeros..zeros] == Repeat<int>(0, 0);
    for i := zeros to |data|
      invariant IsDigits(58, buffer[..])
      invariant Number(58, buffer[..]) == Number(256, data[zeros..i])
    {
      FitsBuffer(256, data, zeros, i, Pow(58, size));
      NumberStep(256, data, zeros, i);
      Absorb(buffer, 256, 58, data[i]);
    }
    idx := SkipZeros(buffer);
    Trimmed(58, buffer[..], idx);
    assert data[zeros..|data|] == data[zeros..];
    assert buffer[..][idx..] == buffer[idx..];
  }

  /** solana_base58_encode: the encoding and a terminator, or 0 and nothing written when they do
      not fit. */
  method Encode(data: seq<Byte>, out: array<char>) returns (result: int)
    requires 138 * |data| < 0x1_0000_0000_0000_0000
    modifies out
    ensures |Encoded(data)| < out.Length ==>
              var n := |Encoded(data)|;
              result == Machine.ToInt(n) && out[..n] == Encoded(data) && out[n] == '\0'
              && out[n + 1..] == old(out[n + 1..])
    ensures |Encoded(data)| >= out.Length ==> out[..] == old(out[..]) && result == 0
  {
    hide Encoded;
    result := 0;
    if out.Length > 0 {
      var zeros := 0;
      while zeros < |data| && data[zeros] == 0
        invariant 0 <= zeros <= |data|
        invariant forall k :: 0 <= k < zeros ==> data[k] == 0
      {
        zeros := zeros + 1;
      }
      LeadingIs<int>(data, 0, zeros);
      if |data| == zeros {
        EncodedZeros(data);
        if out.Length >= zeros + 1 {
          result := WriteText(out, zeros, [], 0);
        }
      } else {
        var buffer, idx := ToBase58(data, zeros);
        assert buffer[..][idx..] == buffer[idx..];
        if zeros + (buffer.Length - idx) + 1 <= out.Length {
          result := WriteText(out, zeros, buffer[..], idx);
        }
      }
    }
  }

  /** A '1' for each zero byte, the symbols of the digits from index idx on, and the terminator. */
  method WriteText(out: array<char>, zeros: nat, digits: seq<Byte>, idx: nat) returns (result: int)
    requires idx <= |digits| && IsDigits(58, digits[idx..]) && zeros + (|digits| - idx) < out.Length
    modifies out
    ensures var n := zeros + (|digits| - idx);
            && result == Machine.ToInt(n) && out[..n] == Repeat('1', zeros) + Symbols(digits[idx..])
            && out[n] == '\0' && out[n + 1..] == old(out[n + 1..])
  {
    hide Symbols, Repeat;
    FirstSymbol();
    ghost var was := out[..];
    Fill(out, ALPHABET[0], zeros);
    ghost var ones := out[..];
    RepeatIs(ones, '1', zeros);
    assert ones[..zeros] == out[..zeros] && ones[zeros..] == was[zeros..];
    var end := Spell(out, zeros, digits, idx);
    ghost var spelled := out[..];
    assert spelled[..end] == ones[..zeros] + out[zeros..end] && spelled[end..] == ones[end..];
    Terminate(out, end);
    TailOf(was, ones, zeros, end + 1);
    TailOf(ones, spelled, end, end + 1);
    assert out[end + 1..] == spelled[end + 1..] && out[..end] == spelled[..end];
    result := Machine.ToInt(end);
  }

  /** out[n] = 0 */
  method Terminate(out: array<char>, n: nat)
    requires n < out.Length
    modifies out
    ensures out[..n] == old(out[..n]) && out[n] == '\0' && out[n + 1..] == old(out[n + 1..])
  {
    out[n] := '\0';
  }

  lemma TailOf(s: string, t: string, m: nat, n: nat)
    requires m <= n <= |s| == |t| && s[m..] == t[m..]
    ensures s[n..] == t[n..]
  {
    assert s[n..] == s[m..][n - m..] && t[n..] == t[m..][n - m..];
  }

  lemma FirstSymbol()
    ensures |ALPHABET| > 0 && ALPHABET[0] == '1'
  {
  }

  lemma RepeatIs(s: string, c: char, n: nat)
    requires n <= |s| && forall k :: 0 <= k < n ==> s[k] == c
    ensures s[..n] == Repeat(c, n)
  {
  }

  lemma EncodedZeros(data: seq<Byte>)
    requires Zeros(data) == |data|
    ensures Encoded(data) == Repeat('1', |data|) && |Encoded(data)| == |data|
  {
    assert data[|data|..] == [];
  }

  /** out[0..n] = c */
  method Fill<T>(out: array<T>, c: T, n: nat)
    requires n <= out.Length
    modifies out
    ensures (forall k :: 0 <= k < n ==> out[k] == c) && out[n..] == old(out[n..])
  {
    for i := 0 to n
      invariant forall k :: 0 <= k < i ==> out[k] == c
      invariant out[n..] == old(out[n..])
    {
      out[i] := c;
    }
  }

  /** The symbols of the digits from index idx on, written from index start on. */
  method Spell(out: array<char>, start: nat, digits: seq<Byte>, idx: nat) returns (end: nat)
    requires idx <= |digits| && IsDigits(58, digits[idx..]) && start + (|digits| - idx) <= out.Length
    modifies out
    ensures end == start + (|digits| - idx)
    ensures out[..start] == old(out[..start]) && out[start..end] == Symbols(digits[idx..])
            && out[end..] == old(out[end..])
  {
    hide ALPHABET, Symbols, IsDigits;
    ghost var text := Symbols(digits[idx..]);
    end := start;
    var i := idx;
    while i < |digits|
      invariant idx <= i <= |digits| && end == start + (i - idx)
      invariant forall k :: 0 <= k < start || end <= k < out.Length ==> out[k] == old(out[k])
      invariant forall k :: start <= k < end ==> out[k] == text[k - start]
    {
      SymbolAt(digits[idx..], i - idx);
      out[end] := ALPHABET[digits[i]];
      end := end + 1;
      i := i + 1;
    }
  }

  lemma SymbolAt(s: seq<int>, i: int)
    requires IsDigits(58, s) && 0 <= i < |s|
    ensures 0 <= s[i] < |ALPHABET| && Symbols(s)[i] == ALPHABET[s[i]]
  {
    ValueOfSymbol(s[i]);
  }

  // -------------------------------------------------------------------------------------------
  // Decoding
  // -------------------------------------------------------------------------------------------

  /** The conversion loop of solana_base58_decode, which stops at a symbol outside the alphabet. */
  method ConvertText(input: string, zeros: nat, buffer: array<Byte>) returns (i: nat)
    requires zeros <= |input| && IsText(input[..zeros]) && IsDigits(256, buffer[..]) && Number(256, buffer[..]) == 0
    requires Pow(58, |input| - zeros) < Pow(256, buffer.Length)
    modifies buffer
    ensures i <= |input| && (i == |input| <==> IsText(input))
    ensures i == |input| ==> Number(256, buffer[..]) == Number(58, Values(input)[zeros..])
  {
    hide Number, Pow;
    ghost var values := Values(input);
    Zero(58, 0);
    assert values[zeros..zeros] == Repeat<int>(0, 0);
    i := zeros;
    while i < |input|
      invariant zeros <= i <= |input| && IsText(input[..i])
      invariant Number(256, buffer[..]) == Number(58, values[zeros..i])
    {
      var carry := Base58Value(input[i]);
      if carry < 0 {
        break;
      }
      assert IsText(input[..i + 1]);
      DigitsOfText(input, zeros, i + 1);
      FitsBuffer(58, values, zeros, i, Pow(256, buffer.Length));
      NumberStep(58, values, zeros, i);
      Absorb(buffer, 58, 256, carry);
      i := i + 1;
    }
    assert i == |input| ==> input[..i] == input && values[zeros..i] == values[zeros..];
  }

  /** The work buffer, and where its number starts. */
  method FromBase58(input: string, zeros: nat) returns (buffer: array<Byte>, ok: bool, idx: nat)
    requires zeros == Leading(input, '1') && 733 * |input| < 0x1_0000_0000_0000_0000
    ensures fresh(buffer) && idx <= buffer.Length && (ok <==> IsText(input))
    ensures ok ==> Decoded(input) == Some(ZeroBytes(zeros) + buffer[idx..])
  {
    hide Number;
    var size := ((|input| - zeros) * 733) / 1000 + 1;
    DecodeBufferHolds(|input| - zeros);
    buffer := new Byte[size](_ => 0);
    Zero(256, size);
    assert buffer[..] == Repeat<int>(0, size);
    OnesAreText(input, zeros);
    var i := ConvertText(input, zeros, buffer);
    ok := i == |input|;
    idx := 0;
    if ok {
      idx := SkipZeros(buffer);
      Trimmed(256, buffer[..], idx);
      assert Values(input)[zeros..] == Values(input[zeros..]);
      assert buffer[..][idx..] == buffer[idx..];
    }
  }

  lemma OnesAreText(t: string, n: nat)
    requires n == Leading(t, '1')
    ensures IsText(t[..n])
  {
    LeadingSplit(t, '1');
  }

  lemma DigitsOfText(t: string, i: int, j: int)
    requires 0 <= i <= j <= |t| && IsText(t[..j])
    ensures IsDigits(58, Values(t)[i..j])
  {
    forall k | i <= k < j
      ensures 0 <= Values(t)[k] < 58
    {
      assert t[..j][k] == t[k];
      SymbolOfValue(t[k]);
    }
  }

  /** The bytes of the buffer from index idx on, written from index start on. */
  method CopyTail(out: array<Byte>, start: nat, buffer: array<Byte>, idx: nat) returns (end: nat)
    requires idx <= buffer.Length && start + (buffer.Length - idx) <= out.Length && out != buffer
    modifies out
    ensures end == start + (buffer.Length - idx)
    ensures out[..start] == old(out[..start]) && out[start..end] == buffer[idx..] && out[end..] == old(out[end..])
  {
    end := start;
    var i := idx;
    while i < buffer.Length
      invariant idx <= i <= buffer.Length && end == start + (i - idx)
      invariant forall k :: 0 <= k < start || end <= k < out.Length ==> out[k] == old(out[k])
      invariant forall k :: start <= k < end ==> out[k] == buffer[idx + (k - start)]
    {
      out[end] := buffer[i];
      end := end + 1;
      i := i + 1;
    }
  }

  /** solana_base58_decode: the bytes, or 0 and nothing written when the text is empty, is not
      Base58, or does not fit. */
  method Decode(input: string, out: array<Byte>) returns (status: int)
    requires 733 * |input| < 0x1_0000_0000_0000_0000
    modifies out
    ensures var d := Decoded(input);
            if input != [] && d.Some? && |d.value| <= out.Length then
              var n := |d.value|;
              n > 0 && status == Machine.ToInt(n) && out[..n] == d.value && out[n..] == old(out[n..])
            else
              status == 0 && out[..] == old(out[..])
  {
    hide Decoded, Digits;
    status := 0;
    DecodedNonempty(input);
    if out.Length > 0 && |input| > 0 {
      var zeros := 0;
      while zeros < |input| && input[zeros] == ALPHABET[0]
        invariant 0 <= zeros <= |input|
        invariant forall k :: 0 <= k < zeros ==> input[k] == '1'
      {
        zeros := zeros + 1;
      }
      LeadingIs(input, '1', zeros);
      var buffer, ok, idx := FromBase58(input, zeros);
      if ok && zeros + (buffer.Length - idx) <= out.Length {
        Fill(out, 0, zeros);
        var end := CopyTail(out, zeros, buffer, idx);
        assert out[..end] == out[..zeros] + out[zeros..end];
        assert out[..zeros] == ZeroBytes(zeros);
        status := Machine.ToInt(end);
      }
    }
  }

  /** The result 0 of the encoder stands for an empty text, of the empty string only, or for a failure. */
  lemma EmptyEncoding(d: seq<Byte>)
    ensures Encoded(d) == [] <==> d == []
  {
    DecodeEncode(d);
    DecodeEncode([]);
    DecodedIs([], []);
    EncodedIs([], []);
  }

  lemma DecodedNonempty(t: string)
    ensures Decoded(t).None? <==> !IsText(t)
    ensures Decoded(t).Some? && t != [] ==> Decoded(t).value != []
  {
    if Decoded(t) == Some([]) {
      DecodedIs(t, []);
      EncodedIs(t, []);
      assert Encoded([]) == [];
    }
  }
}
