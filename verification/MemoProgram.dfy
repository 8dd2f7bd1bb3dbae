/** The address of the memo program: the text that both builders decode, and its 32 bytes. */
module MemoProgram {
  import opened Bytes
  import opened Positional
  import opened Wrappers
  import Base58

  const BASE58_A: string := "MemoSq4gqABAXK"
  const BASE58_B: string := "b96qnH8TysNcWx"
  const BASE58_C: string := "MyWCqXgDLGmfcHr"

  const BASE58: string := BASE58_A + (BASE58_B + BASE58_C)

  const DIGITS_A: seq<int> := [20, 37, 44, 46, 25, 48, 3, 39, 48, 9, 10, 9, 30, 18]
  const DIGITS_B: seq<int> := [34, 8, 5, 48, 45, 16, 7, 26, 56, 50, 21, 35, 29, 55]
  const DIGITS_C: seq<int> := [20, 56, 29, 11, 48, 30, 39, 12, 19, 15, 44, 38, 35, 16, 49]

  const ADDRESS_A: seq<Byte> := [5, 74, 83, 90, 153, 41, 33, 6]
  const ADDRESS_B: seq<Byte> := [77, 36, 232, 113, 96, 218, 56, 124]
  const ADDRESS_C: seq<Byte> := [124, 53, 181, 221, 188, 146, 187, 129]
  const ADDRESS_D: seq<Byte> := [228, 31, 168, 64, 65, 5, 68, 141]

  const ADDRESS: seq<Byte> := ADDRESS_A + (ADDRESS_B + (ADDRESS_C + ADDRESS_D))

  lemma {:induction false} ContinuedAppend(b: int, x: int, s: seq<int>, t: seq<int>)
    ensures Continued(b, x, s + t) == Continued(b, Continued(b, x, s), t)
  {
    if t == [] {
      assert s + t == s;
    } else {
      ContinuedAppend(b, x, s, t[..|t| - 1]);
      assert (s + t)[..|s + t| - 1] == s + t[..|t| - 1];
    }
  }

  lemma NextDigit(b: int, x: int, s: seq<int>, i: nat)
    requires i < |s|
    ensures Continued(b, x, s[i..]) == Continued(b, b * x + s[i], s[i + 1..])
  {
    assert s[i..] == [s[i]] + s[i + 1..];
    ContinuedPrepend(b, x, s[i], s[i + 1..]);
  }

  lemma NextFour(b: int, x: int, s: seq<int>, i: nat, y: int)
    requires i + 4 <= |s| && y == b * (b * (b * (b * x + s[i]) + s[i + 1]) + s[i + 2]) + s[i + 3]
    ensures Continued(b, x, s[i..]) == Continued(b, y, s[i + 4..])
  {
    NextDigit(b, x, s, i);
    NextDigit(b, b * x + s[i], s, i + 1);
    NextDigit(b, b * (b * x + s[i]) + s[i + 1], s, i + 2);
    NextDigit(b, b * (b * (b * x + s[i]) + s[i + 1]) + s[i + 2], s, i + 3);
  }

  lemma LastDigit(b: int, y: int, s: seq<int>)
    ensures s[0..] == s && Continued(b, y, s[|s|..]) == y
  {
    assert s[|s|..] == [];
  }

  lemma TextIs()
    ensures BASE58 == "MemoSq4gqABAXKb96qnH8TysNcWxMyWCqXgDLGmfcHr"
  {
  }

  lemma ValuesA()
    ensures Base58.Values(BASE58_A) == DIGITS_A && Base58.IsText(BASE58_A)
  {
  }

  lemma ValuesB()
    ensures Base58.Values(BASE58_B) == DIGITS_B && Base58.IsText(BASE58_B)
  {
  }

  lemma ValuesC()
    ensures Base58.Values(BASE58_C) == DIGITS_C && Base58.IsText(BASE58_C)
  {
  }

  lemma NumberTextA()
    ensures Continued(58, 0, DIGITS_A)
            == 0x16f943144d4132ed67b82
  {
    hide Continued;
    var s: seq<int> := DIGITS_A;
    NextFour(58, 0, s, 0,
             0x3d7b7a);
    NextFour(58, 0x3d7b7a, s, 4,
             0x2978868e0f1d);
    NextFour(58, 0x2978868e0f1d, s, 8,
             0x1bf90371e89122eae1);
    NextDigit(58, 0x1bf90371e89122eae1, s, 12);
    NextDigit(58, 0x6566ac7ceb0e1e93718, s, 13);
    LastDigit(58, 0x16f943144d4132ed67b82, s);
  }

  lemma NumberTextB()
    ensures Continued(58, 0x16f943144d4132ed67b82, DIGITS_B)
            == 0x5ca52a640e2deee863e20be887f455128eb78b61d
  {
    hide Continued;
    var s: seq<int> := DIGITS_B;
    NextFour(58, 0x16f943144d4132ed67b82, s, 0,
             0xf7f00f38cd1481aff4da9c35e2);
    NextFour(58, 0xf7f00f38cd1481aff4da9c35e2, s, 4,
             0xa73ce6f3741feacf248657fd6e8be518);
    NextFour(58, 0xa73ce6f3741feacf248657fd6e8be518, s, 8,
             0x70cdf9c772fa2296d932e4302209895f58d82d);
    NextDigit(58, 0x70cdf9c772fa2296d932e4302209895f58d82d, s, 12);
    NextDigit(58, 0x198eaa97300cabd62d3587b2e7b6291f9a20fa4f, s, 13);
    LastDigit(58, 0x5ca52a640e2deee863e20be887f455128eb78b61d, s);
  }

  lemma NumberTextC()
    ensures Continued(58, 0x5ca52a640e2deee863e20be887f455128eb78b61d, DIGITS_C)
            == 0x54a535a992921064d24e87160da387c7c35b5ddbc92bb81e41fa8404105448d
  {
    hide Continued;
    var s: seq<int> := DIGITS_C;
    NextFour(58, 0x5ca52a640e2deee863e20be887f455128eb78b61d, s, 0,
             0x3e7d99e331cab2717515e600683a91c53abeec9a6576c6d);
    NextFour(58, 0x3e7d99e331cab2717515e600683a91c53abeec9a6576c6d, s, 4,
             0x2a26a22d7d9b08fb7c7deda612add008aedd4da98f4c05388ea6a);
    NextFour(58, 0x2a26a22d7d9b08fb7c7deda612add008aedd4da98f4c05388ea6a, s, 8,
             0x1c6e73b49344e3a7ba27748d0ca1c866485b66a93cb782d64763e69a8d2);
    NextDigit(58, 0x1c6e73b49344e3a7ba27748d0ca1c866485b66a93cb782d64763e69a8d2, s, 12);
    NextDigit(58, 0x6710636e95d9b94002cf067f4dca7672c64b54257c193a48c2ca23f03fb7, s, 13);
    NextDigit(58, 0x1759b6870df353f880a2e778d79fded600ed11107e1db7347c21cc246e6f86, s, 14);
    LastDigit(58, 0x54a535a992921064d24e87160da387c7c35b5ddbc92bb81e41fa8404105448d, s);
  }

  lemma NumberBytesA()
    ensures Continued(256, 0, ADDRESS_A)
            == 0x54a535a99292106
  {
    hide Continued;
    var s: seq<int> := ADDRESS_A;
    NextFour(256, 0, s, 0,
             0x54a535a);
    NextFour(256, 0x54a535a, s, 4,
             0x54a535a99292106);
    LastDigit(256, 0x54a535a99292106, s);
  }

  lemma NumberBytesB()
    ensures Continued(256, 0x54a535a99292106, ADDRESS_B)
            == 0x54a535a992921064d24e87160da387c
  {
    hide Continued;
    var s: seq<int> := ADDRESS_B;
    NextFour(256, 0x54a535a99292106, s, 0,
             0x54a535a992921064d24e871);
    NextFour(256, 0x54a535a992921064d24e871, s, 4,
             0x54a535a992921064d24e87160da387c);
    LastDigit(256, 0x54a535a992921064d24e87160da387c, s);
  }

  lemma NumberBytesC()
    ensures Continued(256, 0x54a535a992921064d24e87160da387c, ADDRESS_C)
            == 0x54a535a992921064d24e87160da387c7c35b5ddbc92bb81
  {
    hide Continued;
    var s: seq<int> := ADDRESS_C;
    NextFour(256, 0x54a535a992921064d24e87160da387c, s, 0,
             0x54a535a992921064d24e87160da387c7c35b5dd);
    NextFour(256, 0x54a535a992921064d24e87160da387c7c35b5dd, s, 4,
             0x54a535a992921064d24e87160da387c7c35b5ddbc92bb81);
    LastDigit(256, 0x54a535a992921064d24e87160da387c7c35b5ddbc92bb81, s);
  }

  lemma NumberBytesD()
    ensures Continued(256, 0x54a535a992921064d24e87160da387c7c35b5ddbc92bb81, ADDRESS_D)
            == 0x54a535a992921064d24e87160da387c7c35b5ddbc92bb81e41fa8404105448d
  {
    hide Continued;
    var s: seq<int> := ADDRESS_D;
    NextFour(256, 0x54a535a992921064d24e87160da387c7c35b5ddbc92bb81, s, 0,
             0x54a535a992921064d24e87160da387c7c35b5ddbc92bb81e41fa840);
    NextFour(256, 0x54a535a992921064d24e87160da387c7c35b5ddbc92bb81e41fa840, s, 4,
             0x54a535a992921064d24e87160da387c7c35b5ddbc92bb81e41fa8404105448d);
    LastDigit(256, 0x54a535a992921064d24e87160da387c7c35b5ddbc92bb81e41fa8404105448d, s);
  }

  lemma ValuesJoin(s: string, t: string)
    ensures Base58.Values(s + t) == Base58.Values(s) + Base58.Values(t)
    ensures Base58.IsText(s) && Base58.IsText(t) ==> Base58.IsText(s + t)
  {
  }

  lemma TextNumber()
    ensures Base58.IsText(BASE58) && Number(58, Base58.Values(BASE58))
            == 0x54a535a992921064d24e87160da387c7c35b5ddbc92bb81e41fa8404105448d
    ensures |BASE58| > 0 && BASE58[0] == 'M'
  {
    hide Continued;
    ValuesA();
    ValuesB();
    ValuesC();
    ValuesJoin(BASE58_B, BASE58_C);
    ValuesJoin(BASE58_A, BASE58_B + BASE58_C);
    ContinuedAppend(58, 0, Base58.Values(BASE58_A), Base58.Values(BASE58_B) + Base58.Values(BASE58_C));
    NumberTextA();
    ContinuedAppend(58, Continued(58, 0, Base58.Values(BASE58_A)), Base58.Values(BASE58_B), Base58.Values(BASE58_C));
    NumberTextB();
    NumberTextC();
  }

  lemma AddressNumber()
    ensures Number(256, ADDRESS) == 0x54a535a992921064d24e87160da387c7c35b5ddbc92bb81e41fa8404105448d
    ensures |ADDRESS| == 32 && ADDRESS[0] == 5
  {
    hide Continued;
    ContinuedAppend(256, 0, ADDRESS_A, ADDRESS_B + (ADDRESS_C + ADDRESS_D));
    NumberBytesA();
    ContinuedAppend(256, 0x54a535a99292106, ADDRESS_B, ADDRESS_C + ADDRESS_D);
    NumberBytesB();
    ContinuedAppend(256, 0x54a535a992921064d24e87160da387c, ADDRESS_C, ADDRESS_D);
    NumberBytesC();
    NumberBytesD();
  }

  /** What the builders get when they decode the text. */
  lemma AddressDecoded()
    ensures |ADDRESS| == 32 && Base58.Decoded(BASE58) == Some(ADDRESS)
  {
    hide Continued;
    TextNumber();
    AddressNumber();
    LeadingIs(BASE58, '1', 0);
    LeadingIs<int>(ADDRESS, 0, 0);
    Base58.DecodedIs(BASE58, ADDRESS);
  }

  lemma TextSize()
    ensures |BASE58| == 43
  {
    ValuesA();
    ValuesB();
    ValuesC();
  }
}
