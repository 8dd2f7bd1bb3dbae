/** Base64 text (solana/solana_encoding.c:203-235), and the decoder of section 4 of RFC 4648. */
module Base64 {
  import Bits
  import opened Bytes
  import opened Wrappers

  const UPPER: string := "ABCDEFGHIJKLMNOPQRSTUVWXYZ"
  const LOWER: string := "abcdefghijklmnopqrstuvwxyz"
  const OTHER: string := "0123456789+/"

  const TABLE: string := UPPER + LOWER + OTHER

  // -------------------------------------------------------------------------------------------
  // The alphabet
  // -------------------------------------------------------------------------------------------

  /** The value of a symbol, as Table 1 of RFC 4648 lists them; -1 for any other character. */
  function Sextet(c: char): int {
    if 'A' <= c <= 'Z' then c as int - 'A' as int
    else if 'a' <= c <= 'z' then c as int - 'a' as int + 26
    else if '0' <= c <= '9' then c as int - '0' as int + 52
    else if c == '+' then 62
    else if c == '/' then 63
    else -1
  }

  lemma UpperAt(c: char)
    requires 'A' <= c <= 'Z'
    ensures |UPPER| == 26 && UPPER[Sextet(c)] == c
  {
  }

  lemma LowerAt(c: char)
    requires 'a' <= c <= 'z'
    ensures |LOWER| == 26 && 26 <= Sextet(c) < 52 && LOWER[Sextet(c) - 26] == c
  {
  }

  lemma OtherAt(c: char)
    requires '0' <= c <= '9' || c == '+' || c == '/'
    ensures |OTHER| == 12 && 52 <= Sextet(c) < 64 && OTHER[Sextet(c) - 52] == c
  {
  }

  lemma JoinedAt(s: string, t: string, u: string, k: int)
    requires |s| == 26 && |t| == 26 && |u| == 12 && 0 <= k < 64
    ensures (s + t + u)[k] == if k < 26 then s[k] else if k < 52 then t[k - 26] else u[k - 52]
  {
  }

  lemma TableSize()
    ensures |UPPER| == |LOWER| == 26 && |OTHER| == 12 && |TABLE| == 64
  {
    UpperAt('A');
    LowerAt('a');
    OtherAt('0');
  }

  lemma SymbolOfSextet(c: char)
    requires Sextet(c) != -1
    ensures 0 <= Sextet(c) < 64 == |TABLE| && TABLE[Sextet(c)] == c
  {
    hide UPPER, LOWER, OTHER;
    TableSize();
    JoinedAt(UPPER, LOWER, OTHER, Sextet(c));
    if 'A' <= c <= 'Z' {
      UpperAt(c);
    } else if 'a' <= c <= 'z' {
      LowerAt(c);
    } else {
      OtherAt(c);
    }
  }

  function Symbol(k: int): (c: char)
    requires 0 <= k < 64
    ensures Sextet(c) == k
  {
    if k < 26 then ('A' as int + k) as char
    else if k < 52 then ('a' as int + k - 26) as char
    else if k < 62 then ('0' as int + k - 52) as char
    else if k == 62 then '+' else '/'
  }

  lemma TableIs(k: int)
    requires 0 <= k < 64
    ensures |TABLE| == 64 && TABLE[k] == Symbol(k)
  {
    SymbolOfSextet(Symbol(k));
  }

  // -------------------------------------------------------------------------------------------
  // The code
  // -------------------------------------------------------------------------------------------

  type Six = k: int | 0 <= k < 64

  // The four sextets of three bytes, and back.

  function First(a: Byte): Six { a / 4 }

  function Second(a: Byte, b: Byte): Six { a % 4 * 16 + b / 16 }

  function Third(b: Byte, c: Byte): Six { b % 16 * 4 + c / 64 }

  function Fourth(c: Byte): Six { c % 64 }

  function High(v: Six, w: Six): Byte { v * 4 + w / 16 }

  function Middle(w: Six, x: Six): Byte { w % 16 * 16 + x / 4 }

  function Low(x: Six, y: Six): Byte { x % 4 * 64 + y }

  lemma Regrouped(a: Byte, b: Byte, c: Byte)
    ensures High(First(a), Second(a, b)) == a && Middle(Second(a, b), Third(b, c)) == b
            && Low(Third(b, c), Fourth(c)) == c
    ensures Second(a, 0) % 16 == 0 && Third(b, 0) % 4 == 0
  {
  }

  lemma Ungrouped(v: Six, w: Six, x: Six, y: Six)
    ensures First(High(v, w)) == v && Second(High(v, w), Middle(w, x)) == w
    ensures Third(Middle(w, x), Low(x, y)) == x && Fourth(Low(x, y)) == y
    ensures w % 16 == 0 ==> Second(High(v, w), 0) == w
    ensures x % 4 == 0 ==> Third(Middle(w, x), 0) == x
  {
  }

  function Encoded(d: seq<Byte>): (t: string)
    ensures |t| == 4 * ((|d| + 2) / 3)
  {
    if |d| == 0 then ""
    else if |d| == 1 then [Symbol(First(d[0])), Symbol(Second(d[0], 0)), '=', '=']
    else if |d| == 2 then [Symbol(First(d[0])), Symbol(Second(d[0], d[1])), Symbol(Third(d[1], 0)), '=']
    else
      [Symbol(First(d[0])), Symbol(Second(d[0], d[1])), Symbol(Third(d[1], d[2])), Symbol(Fourth(d[2]))]
      + Encoded(d[3..])
  }

  predicate IsSymbol(c: char) {
    Sextet(c) >= 0
  }

  function Six64(c: char): Six
    requires IsSymbol(c)
  {
    Sextet(c)
  }

  /** The decoder: groups of four symbols; padding only at the end, with unused bits zero. */
  function Decoded(t: string): Option<seq<Byte>> {
    if t == [] then Some([])
    else if |t| < 4 || !IsSymbol(t[0]) || !IsSymbol(t[1]) then None
    else
      var v, w := Six64(t[0]), Six64(t[1]);
      if |t| == 4 && t[3] == '=' then
        if t[2] == '=' then
          if w % 16 != 0 then None else Some([High(v, w)])
        else if !IsSymbol(t[2]) || Six64(t[2]) % 4 != 0 then None
        else Some([High(v, w), Middle(w, Six64(t[2]))])
      else if !IsSymbol(t[2]) || !IsSymbol(t[3]) then None
      else
        var x, y, rest := Six64(t[2]), Six64(t[3]), Decoded(t[4..]);
        if rest.None? then None else Some([High(v, w), Middle(w, x), Low(x, y)] + rest.value)
  }

  lemma Symbols(k: Six)
    ensures IsSymbol(Symbol(k)) && Six64(Symbol(k)) == k && Symbol(k) != '='
  {
  }

  lemma SymbolIs(c: char)
    requires IsSymbol(c)
    ensures Symbol(Six64(c)) == c && c != '='
  {
  }

  /** Decoding undoes encoding. */
  lemma {:induction false} DecodeEncode(d: seq<Byte>)
    ensures Decoded(Encoded(d)) == Some(d)
    decreases |d|
  {
    hide Symbol, IsSymbol, Six64, First, Second, Third, Fourth, High, Middle, Low;
    if |d| >= 3 {
      DecodeEncode(d[3..]);
      Regrouped(d[0], d[1], d[2]);
      Symbols(First(d[0]));
      Symbols(Second(d[0], d[1]));
      Symbols(Third(d[1], d[2]));
      Symbols(Fourth(d[2]));
      assert Encoded(d)[4..] == Encoded(d[3..]);
      assert d == [d[0], d[1], d[2]] + d[3..];
    } else if |d| == 2 {
      Regrouped(d[0], d[1], 0);
      Symbols(First(d[0]));
      Symbols(Second(d[0], d[1]));
      Symbols(Third(d[1], 0));
      assert d == [d[0], d[1]];
    } else if |d| == 1 {
      Regrouped(d[0], 0, 0);
      Symbols(First(d[0]));
      Symbols(Second(d[0], 0));
      assert d == [d[0]];
    }
  }

  /** Encoding undoes decoding: no text but the encoding decodes to the bytes. */
  lemma {:induction false} EncodeDecode(t: string)
    requires Decoded(t).Some?
    ensures Encoded(Decoded(t).value) == t
    decreases |t|
  {
    hide Symbol, IsSymbol, Six64, First, Second, Third, Fourth, High, Middle, Low;
    if t != [] {
      SymbolIs(t[0]);
      SymbolIs(t[1]);
      var v, w := Six64(t[0]), Six64(t[1]);
      if |t| == 4 && t[3] == '=' {
        if t[2] == '=' {
          Ungrouped(v, w, 0, 0);
        } else {
          SymbolIs(t[2]);
          Ungrouped(v, w, Six64(t[2]), 0);
        }
        assert t == [t[0], t[1], t[2], t[3]];
      } else {
        SymbolIs(t[2]);
        SymbolIs(t[3]);
        Ungrouped(v, w, Six64(t[2]), Six64(t[3]));
        EncodeDecode(t[4..]);
        assert Decoded(t).value[3..] == Decoded(t[4..]).value;
        assert t == [t[0], t[1], t[2], t[3]] + t[4..];
      }
    }
  }

  lemma LastVectors()
    ensures Encoded([0x62]) == "Yg==" && Encoded([0x62, 0x61]) == "YmE=" && Encoded([0x62, 0x61, 0x72]) == "YmFy"
    ensures Encoded([0xfb, 0xff, 0xbf]) == "+/+/"
  {
  }

  lemma FirstSymbols()
    ensures [Symbol(First(0x66)), Symbol(Second(0x66, 0x6f)), Symbol(Third(0x6f, 0x6f)), Symbol(Fourth(0x6f))] == "Zm9v"
  {
  }

  lemma FirstGroup(rest: seq<Byte>)
    ensures Encoded([0x66, 0x6f, 0x6f] + rest) == "Zm9v" + Encoded(rest)
  {
    hide Symbol, First, Second, Third, Fourth;
    FirstSymbols();
    assert ([0x66, 0x6f, 0x6f] + rest)[3..] == rest;
  }

  /** The longer test vectors of section 10 of RFC 4648, and one for the last two symbols. */
  lemma Vectors()
    ensures Encoded([0x66, 0x6f, 0x6f, 0x62]) == "Zm9vYg==" && Encoded([0x66, 0x6f, 0x6f, 0x62, 0x61]) == "Zm9vYmE="
    ensures Encoded([0x66, 0x6f, 0x6f, 0x62, 0x61, 0x72]) == "Zm9vYmFy" && Encoded([0xfb, 0xff, 0xbf]) == "+/+/"
  {
    hide Encoded;
    LastVectors();
    FirstGroup([0x62]);
    FirstGroup([0x62, 0x61]);
    FirstGroup([0x62, 0x61, 0x72]);
    assert [0x66, 0x6f, 0x6f] + [0x62] == [0x66, 0x6f, 0x6f, 0x62];
    assert [0x66, 0x6f, 0x6f] + [0x62, 0x61] == [0x66, 0x6f, 0x6f, 0x62, 0x61];
    assert [0x66, 0x6f, 0x6f] + [0x62, 0x61, 0x72] == [0x66, 0x6f, 0x6f, 0x62, 0x61, 0x72];
  }

  // -------------------------------------------------------------------------------------------
  // solana_base64_encode
  // -------------------------------------------------------------------------------------------

  lemma SextetSum(a: Byte, b: Byte, c: Byte)
    ensures a * 0x1_0000 + b * 0x100 + c == First(a) * 0x4_0000 + Second(a, b) * 0x1000 + Third(b, c) * 0x40 + Fourth(c)
  {
  }

  lemma SextetsOf(v: int, w: int, x: int, y: int, triple: int)
    requires 0 <= v < 64 && 0 <= w < 64 && 0 <= x < 64 && 0 <= y < 64
    requires triple == v * 0x4_0000 + w * 0x1000 + x * 0x40 + y
    ensures triple / 0x4_0000 % 0x40 == v && triple / 0x1000 % 0x40 == w
    ensures triple / 0x40 % 0x40 == x && triple % 0x40 == y
  {
    Bits.DivModUnique(triple, 0x4_0000, v, w * 0x1000 + x * 0x40 + y);
    Bits.DivModUnique(triple, 0x1000, v * 0x40 + w, x * 0x40 + y);
    Bits.DivModUnique(v * 0x40 + w, 0x40, v, w);
    Bits.DivModUnique(triple, 0x40, v * 0x1000 + w * 0x40 + x, y);
    Bits.DivModUnique(v * 0x1000 + w * 0x40 + x, 0x40, v * 0x40 + w, x);
  }

  /** The four sextets of (a << 16) | (b << 8) | c. */
  lemma Sextets(a: Byte, b: Byte, c: Byte, triple: int)
    requires triple == a * 0x1_0000 + b * 0x100 + c
    ensures triple / 0x4_0000 % 0x40 == First(a) && triple / 0x1000 % 0x40 == Second(a, b)
    ensures triple / 0x40 % 0x40 == Third(b, c) && triple % 0x40 == Fourth(c)
  {
    hide First, Second, Third, Fourth;
    SextetSum(a, b, c);
    SextetsOf(First(a), Second(a, b), Third(b, c), Fourth(c), triple);
  }

  /** The next group of the text and what follows it. */
  lemma Group(d: seq<Byte>, a: Byte, b: Byte, c: Byte)
    requires |d| > 0 && a == d[0] && b == (if |d| > 1 then d[1] else 0) && c == if |d| > 2 then d[2] else 0
    ensures Encoded(d)[..4] == [Symbol(First(a)), Symbol(Second(a, b)), if |d| > 1 then Symbol(Third(b, c)) else '=',
                                if |d| > 2 then Symbol(Fourth(c)) else '=']
    ensures Encoded(d) == Encoded(d)[..4] + Encoded(d[if |d| > 2 then 3 else |d|..])
  {
    hide Symbol, First, Second, Third, Fourth;
  }

  lemma TripleSymbols(a: Byte, b: Byte, c: Byte, triple: int)
    requires triple == a * 0x1_0000 + b * 0x100 + c
    ensures |TABLE| == 64
    ensures TABLE[triple / 0x4_0000 % 0x40] == Symbol(First(a)) && TABLE[triple / 0x1000 % 0x40] == Symbol(Second(a, b))
    ensures TABLE[triple / 0x40 % 0x40] == Symbol(Third(b, c)) && TABLE[triple % 0x40] == Symbol(Fourth(c))
  {
    hide Symbol, First, Second, Third, Fourth, TABLE;
    Sextets(a, b, c, triple);
    TableIs(First(a));
    TableIs(Second(a, b));
    TableIs(Third(b, c));
    TableIs(Fourth(c));
  }

  /** The four stores of one turn of the loop. */
  method PutFour(out: array<char>, j: nat, w: char, x: char, y: char, z: char)
    requires j + 4 <= out.Length
    modifies out
    ensures out[..j + 4] == old(out[..j]) + [w, x, y, z] && out[j + 4..] == old(out[j + 4..])
  {
    out[j] := w;
    out[j + 1] := x;
    out[j + 2] := y;
    out[j + 3] := z;
  }

  lemma NextGroup(text: string, done: string, next: string, rest: string)
    requires done + rest == text && |rest| >= 4 && rest == rest[..4] + next
    ensures done + rest[..4] + next == text
  {
  }

  method Encode(data: seq<Byte>, out: array<char>) returns (status: nat)
    modifies out
    ensures |Encoded(data)| < out.Length ==>
              && status == |Encoded(data)| && out[..status] == Encoded(data) && out[status] == '\0'
              && out[status + 1..] == old(out[status + 1..])
    ensures |Encoded(data)| >= out.Length ==> status == 0 && out[..] == old(out[..])
  {
    hide Symbol, First, Second, Third, Fourth, TABLE, Encoded;
    var length := 4 * ((|data| + 2) / 3);
    status := 0;
    if out.Length >= length + 1 {
      var i, j := 0, 0;
      assert data[0..] == data;
      while i < |data|
        invariant 0 <= i <= |data| && 0 <= j <= length
        invariant out[..j] + Encoded(data[i..]) == Encoded(data)
        invariant out[length + 1..] == old(out[length + 1..])
      {
        ghost var rest, done := data[i..], out[..j];
        var remaining := |data| - i;
        var a := data[i];
        i := i + 1;
        var b: Byte, c: Byte := 0, 0;
        if remaining > 1 {
          b := data[i];
          i := i + 1;
        }
        if remaining > 2 {
          c := data[i];
          i := i + 1;
        }
        var triple := a * 0x1_0000 + b * 0x100 + c;
        Group(rest, a, b, c);
        TripleSymbols(a, b, c, triple);
        PutFour(out, j, TABLE[triple / 0x4_0000 % 0x40], TABLE[triple / 0x1000 % 0x40],
                if remaining > 1 then TABLE[triple / 0x40 % 0x40] else '=',
                if remaining > 2 then TABLE[triple % 0x40] else '=');
        assert rest[if remaining > 2 then 3 else remaining..] == data[i..];
        NextGroup(Encoded(data), done, Encoded(data[i..]), Encoded(rest));
        j := j + 4;
      }
      out[length] := '\0';
      status := length;
    }
  }
}
