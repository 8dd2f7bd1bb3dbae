/** l = 2^252 + 27742317777372353535851937790883648493 is prime: Pocklington's test, down to primes below 1024.  Every
    step of a power is two squarings and a factor. */
module OrderCertificate {
  import opened Power
  import opened Primes
  import opened ScalarLimbs

  const N138: int := 276602624281642239937218680557139826668747

  const N134: int := 19757330305831588566944191468367130476339

  const N88: int := 172054593956031949258510691

  const N62: int := 4434155615661930479

  const N51: int := 1257559732178653

  lemma Order73Of3797()
    ensures HasOrder(3797, 73, 3565, 3357)
  {
    hide Pow, Same;
    Start(3797, 3565);
    var e: nat, y := 0, 1;
    e, y := Next(3797, 3565, e, y, 1, 3565);
    e, y := Next(3797, 3565, e, y, 0, 3104);
    e, y := Next(3797, 3565, e, y, 2, 748);
    e, y := Next(3797, 3565, e, y, 1, 1);
    SameMod(3797, (3565 - 1) * 3357, 1);
  }

  lemma Prime3797()
    ensures IsPrime(3797)
  {
    hide Pow, Same, IsPrime, HasOrder;
    SmallPrime(73);
    Order73Of3797();
    Pocklington(3797, 73, 3565, 3357);
  }

  lemma Order17Of2551()
    ensures HasOrder(2551, 17, 2089, 1135)
  {
    hide Pow, Same;
    Start(2551, 2089);
    var e: nat, y := 0, 1;
    e, y := Next(2551, 2089, e, y, 1, 2089);
    e, y := Next(2551, 2089, e, y, 0, 1524);
    e, y := Next(2551, 2089, e, y, 1, 1);
    SameMod(2551, (2089 - 1) * 1135, 1);
  }

  lemma Order5Of2551()
    ensures HasOrder(2551, 5, 1501, 1784)
  {
    hide Pow, Same;
    Start(2551, 1501);
    var e: nat, y := 0, 1;
    e, y := Next(2551, 1501, e, y, 1, 1501);
    e, y := Next(2551, 1501, e, y, 1, 1);
    SameMod(2551, (1501 - 1) * 1784, 1);
  }

  lemma Prime2551()
    ensures IsPrime(2551)
  {
    hide Pow, Same, IsPrime, HasOrder;
    SmallPrime(17);
    Order17Of2551();
    SmallPrime(5);
    Order5Of2551();
    PocklingtonTwo(2551, 17, 2089, 1135,
                   5, 1501, 1784);
  }

  lemma Order3797Of531581()
    ensures HasOrder(531581, 3797, 32301, 50673)
  {
    hide Pow, Same;
    Start(531581, 32301);
    var e: nat, y := 0, 1;
    e, y := Next(531581, 32301, e, y, 3, 401719);
    e, y := Next(531581, 32301, e, y, 2, 232380);
    e, y := Next(531581, 32301, e, y, 3, 305291);
    e, y := Next(531581, 32301, e, y, 1, 68714);
    e, y := Next(531581, 32301, e, y, 1, 293694);
    e, y := Next(531581, 32301, e, y, 1, 1);
    SameMod(531581, (32301 - 1) * 50673, 1);
  }

  lemma Prime531581()
    ensures IsPrime(531581)
  {
    hide Pow, Same, IsPrime, HasOrder;
    Prime3797();
    Order3797Of531581();
    Pocklington(531581, 3797, 32301, 50673);
  }

  lemma Order2551Of1224481()
    ensures HasOrder(1224481, 2551, 921659, 1100631)
  {
    hide Pow, Same;
    Start(1224481, 921659);
    var e: nat, y := 0, 1;
    e, y := Next(1224481, 921659, e, y, 2, 1006075);
    e, y := Next(1224481, 921659, e, y, 1, 1085945);
    e, y := Next(1224481, 921659, e, y, 3, 886815);
    e, y := Next(1224481, 921659, e, y, 3, 354866);
    e, y := Next(1224481, 921659, e, y, 1, 774887);
    e, y := Next(1224481, 921659, e, y, 3, 1);
    SameMod(1224481, (921659 - 1) * 1100631, 1);
  }

  lemma Prime1224481()
    ensures IsPrime(1224481)
  {
    hide Pow, Same, IsPrime, HasOrder;
    Prime2551();
    Order2551Of1224481();
    Pocklington(1224481, 2551, 921659, 1100631);
  }

  const G_51_1224481: int := 0x4735c3113b127

  lemma Order1224481Of51()
    ensures HasOrder(N51, 1224481, G_51_1224481,
                     0x2cf51ccba75d1)
  {
    hide Pow, Same;
    Start(N51, G_51_1224481);
    var e: nat, y := 0, 1;
    e, y := Next(N51, G_51_1224481, e, y, 1, 0x4735c3113b127);
    e, y := Next(N51, G_51_1224481, e, y, 0, 0x113d69171d6cc);
    e, y := Next(N51, G_51_1224481, e, y, 2, 0x2adec5f75f5b9);
    e, y := Next(N51, G_51_1224481, e, y, 2, 0x28ff7ca7424a9);
    e, y := Next(N51, G_51_1224481, e, y, 2, 0x3c6a5cd9b69ab);
    e, y := Next(N51, G_51_1224481, e, y, 3, 0x108893255e7d);
    e, y := Next(N51, G_51_1224481, e, y, 3, 0x1318a434265e4);
    e, y := Next(N51, G_51_1224481, e, y, 0, 0x2a826020f75e8);
    e, y := Next(N51, G_51_1224481, e, y, 2, 0x32fe1adf7a19c);
    e, y := Next(N51, G_51_1224481, e, y, 0, 0x13dbd345cd581);
    e, y := Next(N51, G_51_1224481, e, y, 1, 1);
    SameMod(N51, (G_51_1224481 - 1) * 0x2cf51ccba75d1, 1);
  }

  const G_51_531581: int := 0x40cae279246b8

  lemma Order531581Of51()
    ensures HasOrder(N51, 531581, G_51_531581,
                     0xc1a8109e02f6)
  {
    hide Pow, Same;
    Start(N51, G_51_531581);
    var e: nat, y := 0, 1;
    e, y := Next(N51, G_51_531581, e, y, 2, 0x40ccdc123e035);
    e, y := Next(N51, G_51_531581, e, y, 0, 0x2567f22bb5b43);
    e, y := Next(N51, G_51_531581, e, y, 0, 0x3c6ff3f0678e4);
    e, y := Next(N51, G_51_531581, e, y, 1, 0x4527fb76e6318);
    e, y := Next(N51, G_51_531581, e, y, 3, 0x10b60532554b9);
    e, y := Next(N51, G_51_531581, e, y, 0, 0x2ac188716ea56);
    e, y := Next(N51, G_51_531581, e, y, 1, 0xebc93265d34f);
    e, y := Next(N51, G_51_531581, e, y, 3, 0xad96da33daa0);
    e, y := Next(N51, G_51_531581, e, y, 3, 0x1cec7b61b475);
    e, y := Next(N51, G_51_531581, e, y, 1, 1);
    SameMod(N51, (G_51_531581 - 1) * 0xc1a8109e02f6, 1);
  }

  lemma Prime51()
    ensures IsPrime(N51)
  {
    hide Pow, Same, IsPrime, HasOrder;
    Prime1224481();
    Order1224481Of51();
    Prime531581();
    Order531581Of51();
    PocklingtonTwo(N51, 1224481, G_51_1224481, 0x2cf51ccba75d1,
                   531581, G_51_531581, 0xc1a8109e02f6);
  }

  const G_62_51: int := 0x5c52cd00a1f4ba7

  lemma Order51Of62Part0()
    ensures Same(N62, Pow(G_62_51, 74956401),
                 0x185d01be42a449e6)
  {
    hide Pow, Same;
    Start(N62, G_62_51);
    var e: nat, y := 0, 1;
    e, y := Next(N62, G_62_51, e, y, 1, 0x5c52cd00a1f4ba7);
    e, y := Next(N62, G_62_51, e, y, 0, 0x189bd270085d3e75);
    e, y := Next(N62, G_62_51, e, y, 1, 0x2a7e2f8f022959c);
    e, y := Next(N62, G_62_51, e, y, 3, 0x2f8a3cf5cf6597c);
    e, y := Next(N62, G_62_51, e, y, 1, 0x252d0447a20f9dba);
    e, y := Next(N62, G_62_51, e, y, 3, 0x1746c2fb02babfcd);
    e, y := Next(N62, G_62_51, e, y, 2, 0x30d6e7f3c4ba385f);
    e, y := Next(N62, G_62_51, e, y, 3, 0x39b9ac8e26cbca0a);
    e, y := Next(N62, G_62_51, e, y, 3, 0xbff082e91593abb);
    e, y := Next(N62, G_62_51, e, y, 2, 0x9bd98e3ba4e9a81);
    e, y := Next(N62, G_62_51, e, y, 1, 0x23de926dae3ef8b);
    e, y := Next(N62, G_62_51, e, y, 3, 0x22b6000ca3fdbbce);
    e, y := Next(N62, G_62_51, e, y, 0, 0x1e92432f685a9b8d);
    e, y := Next(N62, G_62_51, e, y, 1, 0x185d01be42a449e6);
  }

  lemma Order51Of62()
    ensures HasOrder(N62, N51, G_62_51,
                     0xe0605543c5b9ae3)
  {
    hide Pow, Same;
    Order51Of62Part0();
    var e: nat, y := 74956401,
      0x185d01be42a449e6;
    e, y := Next(N62, G_62_51, e, y, 0, 0x384e0cf6f05d1cf0);
    e, y := Next(N62, G_62_51, e, y, 1, 0x3121495b842e975c);
    e, y := Next(N62, G_62_51, e, y, 3, 0xbbe6cd12656bc26);
    e, y := Next(N62, G_62_51, e, y, 2, 0x65e05e28afc3435);
    e, y := Next(N62, G_62_51, e, y, 3, 0x3194f3c82e0f7f1c);
    e, y := Next(N62, G_62_51, e, y, 0, 0x1edb00ecfca951bb);
    e, y := Next(N62, G_62_51, e, y, 3, 0xfce5e1e8eaf374e);
    e, y := Next(N62, G_62_51, e, y, 2, 0xee348c1365792ad);
    e, y := Next(N62, G_62_51, e, y, 3, 0x3d4e9bf8b25db0f7);
    e, y := Next(N62, G_62_51, e, y, 1, 0xeb53f2a0758341b);
    e, y := Next(N62, G_62_51, e, y, 3, 0x230deee621c74350);
    e, y := Next(N62, G_62_51, e, y, 1, 1);
    SameMod(N62, (G_62_51 - 1) * 0xe0605543c5b9ae3, 1);
  }

  lemma Prime62()
    ensures IsPrime(N62)
  {
    hide Pow, Same, IsPrime, HasOrder;
    Prime51();
    Order51Of62();
    Pocklington(N62, N51, G_62_51, 0xe0605543c5b9ae3);
  }

  const G_88_62: int := 0x43d06a01b28fc1632b40eb

  lemma Order62Of88Part0()
    ensures Same(N88, Pow(G_88_62, 258101826),
                 0x2f9b23338c5d502a0bcd43)
  {
    hide Pow, Same;
    Start(N88, G_88_62);
    var e: nat, y := 0, 1;
    e, y := Next(N88, G_88_62, e, y, 3, 0x7f09a68d16f42ecb17621b);
    e, y := Next(N88, G_88_62, e, y, 3, 0x27f19b1b8eb74d760120ff);
    e, y := Next(N88, G_88_62, e, y, 1, 0x7f9fff7af4771802eac29d);
    e, y := Next(N88, G_88_62, e, y, 2, 0x838c7c7bbeb722d3ada4f8);
    e, y := Next(N88, G_88_62, e, y, 0, 0x83a3d990e092e1894fb69b);
    e, y := Next(N88, G_88_62, e, y, 2, 0x6b46ff1a1217a87d0680c);
    e, y := Next(N88, G_88_62, e, y, 1, 0x5472f07359f6732cf91fed);
    e, y := Next(N88, G_88_62, e, y, 1, 0x7cfbd4b5d1cc1d739029a8);
    e, y := Next(N88, G_88_62, e, y, 0, 0x88271a3e9ec889b29d0dc7);
    e, y := Next(N88, G_88_62, e, y, 2, 0x3c43b65949372f6d6fc2c0);
    e, y := Next(N88, G_88_62, e, y, 1, 0x270dfef42acba155759374);
    e, y := Next(N88, G_88_62, e, y, 0, 0x3a95f2205a942710cab898);
    e, y := Next(N88, G_88_62, e, y, 0, 0x1b50c2ecf543ae2da7c372);
    e, y := Next(N88, G_88_62, e, y, 2, 0x2f9b23338c5d502a0bcd43);
  }

  lemma Order62Of88Part1()
    ensures Same(N88, Pow(G_88_62, 0xf62524283954df),
                 0xf3e5089fde9d426524fb3)
  {
    hide Pow, Same;
    Order62Of88Part0();
    var e: nat, y := 258101826,
      0x2f9b23338c5d502a0bcd43;
    e, y := Next(N88, G_88_62, e, y, 2, 0x21dc212de78f709834bc43);
    e, y := Next(N88, G_88_62, e, y, 0, 0x44d135ee1312e5f12204cc);
    e, y := Next(N88, G_88_62, e, y, 0, 0x5e514cd0936b8b94842c89);
    e, y := Next(N88, G_88_62, e, y, 3, 0x485ff9cd32ba0b0082bf27);
    e, y := Next(N88, G_88_62, e, y, 2, 0xfcbe0bab5bc5812a65c8b);
    e, y := Next(N88, G_88_62, e, y, 1, 0x447748785d934251426020);
    e, y := Next(N88, G_88_62, e, y, 1, 0x30a3fe0325184588993dd4);
    e, y := Next(N88, G_88_62, e, y, 1, 0x816968afe8f717d8a9caf7);
    e, y := Next(N88, G_88_62, e, y, 1, 0x587f7d6a06cde03d4fabbe);
    e, y := Next(N88, G_88_62, e, y, 0, 0x3831f97d04d8d12109bdd1);
    e, y := Next(N88, G_88_62, e, y, 3, 0x5ac47e4df58617612a20f6);
    e, y := Next(N88, G_88_62, e, y, 1, 0x3c1c579b87b28f946ad8e1);
    e, y := Next(N88, G_88_62, e, y, 3, 0x1f5b78cc6a3cd42e3736e);
    e, y := Next(N88, G_88_62, e, y, 3, 0xf3e5089fde9d426524fb3);
  }

  lemma Order62Of88()
    ensures HasOrder(N88, N62, G_88_62,
                     0x7f9d1382843bc75f2bbbb0)
  {
    hide Pow, Same;
    Order62Of88Part1();
    var e: nat, y := 0xf62524283954df,
      0xf3e5089fde9d426524fb3;
    e, y := Next(N88, G_88_62, e, y, 2, 0x50b27d644f77417e11a622);
    e, y := Next(N88, G_88_62, e, y, 3, 0x22576b62349256b80fa8cf);
    e, y := Next(N88, G_88_62, e, y, 3, 1);
    SameMod(N88, (G_88_62 - 1) * 0x7f9d1382843bc75f2bbbb0, 1);
  }

  lemma Prime88()
    ensures IsPrime(N88)
  {
    hide Pow, Same, IsPrime, HasOrder;
    Prime62();
    Order62Of88();
    Pocklington(N88, N62, G_88_62, 0x7f9d1382843bc75f2bbbb0);
  }

  const G_134_88: int := 0x1ae2c2ca6b6676caa5c3933f166ac4090c

  lemma Order88Of134Part0()
    ensures Same(N134, Pow(G_134_88, 149233571),
                 0x72fb5b304c111a48476ab739f7ec60070)
  {
    hide Pow, Same;
    Start(N134, G_134_88);
    var e: nat, y := 0, 1;
    e, y := Next(N134, G_134_88, e, y, 2, 0x334a11ddb34626865e6f9ee42745f6e30e);
    e, y := Next(N134, G_134_88, e, y, 0, 0x151e7ed66fcf06be0894ceef457408531c);
    e, y := Next(N134, G_134_88, e, y, 3, 0x644015095959dc68130cde324eed2eede);
    e, y := Next(N134, G_134_88, e, y, 2, 0xbd516e7f89a5cb081278da2b7a2bffd27);
    e, y := Next(N134, G_134_88, e, y, 1, 0x1b65cc2505541066d4f056eb093c196213);
    e, y := Next(N134, G_134_88, e, y, 1, 0xd6e1fdc4404e10621cff0559ba87b29ec);
    e, y := Next(N134, G_134_88, e, y, 0, 0x2e68bd51effe71c8a0ac8428e7699155b9);
    e, y := Next(N134, G_134_88, e, y, 1, 0x135507b31bcff12e42c6029d111ca78951);
    e, y := Next(N134, G_134_88, e, y, 3, 0x2db236e9ad030418fd98126a8e11d1d881);
    e, y := Next(N134, G_134_88, e, y, 3, 0x2a0b57796a5309b7aa08e1107223a953d3);
    e, y := Next(N134, G_134_88, e, y, 2, 0x546eda4615402d2fe7c46283a6674b2);
    e, y := Next(N134, G_134_88, e, y, 2, 0x313f8093ea003936b8c88bc85b88100752);
    e, y := Next(N134, G_134_88, e, y, 0, 0x131117a2d1118c638edce96a0e89e944aa);
    e, y := Next(N134, G_134_88, e, y, 3, 0x72fb5b304c111a48476ab739f7ec60070);
  }

  lemma Order88Of134Part1()
    ensures Same(N134, Pow(G_134_88, 0x8e51fa3a480f89),
                 0x184c15d2fd662c16754b495ffc9332f28e)
  {
    hide Pow, Same;
    Order88Of134Part0();
    var e: nat, y := 149233571,
      0x72fb5b304c111a48476ab739f7ec60070;
    e, y := Next(N134, G_134_88, e, y, 2, 0x1a356ee9b36b42ac3fff84b6a41fbc9bfc);
    e, y := Next(N134, G_134_88, e, y, 2, 0x371fb6c1f8834014118643105e4351a7e1);
    e, y := Next(N134, G_134_88, e, y, 1, 0x18d2e09ebcd462af337069cfabc85b18c4);
    e, y := Next(N134, G_134_88, e, y, 0, 0x103d32bb42cc3d496f2b5f60b4fd53aa6f);
    e, y := Next(N134, G_134_88, e, y, 2, 0x3040e7cd1e30d10c34e33528be0a096294);
    e, y := Next(N134, G_134_88, e, y, 0, 0x18904294e378cbc226538d476b43cd9303);
    e, y := Next(N134, G_134_88, e, y, 0, 0x2f09328a59b8f8ae57babcdf37e2bbff54);
    e, y := Next(N134, G_134_88, e, y, 0, 0x26f68dda0ca4ae9419d659692650e48e74);
    e, y := Next(N134, G_134_88, e, y, 3, 0x311c15b2560609dbb7c85c2373f5dd25af);
    e, y := Next(N134, G_134_88, e, y, 3, 0x27d9f727f4e85584b4f6d6557f2b376259);
    e, y := Next(N134, G_134_88, e, y, 2, 0x38a1e6dbd6c3ae2f60899afdd3f851865);
    e, y := Next(N134, G_134_88, e, y, 0, 0x197096472aa814b079b80facb0ba781332);
    e, y := Next(N134, G_134_88, e, y, 2, 0x657c66796da3f11f83c43fb6e82e7463e);
    e, y := Next(N134, G_134_88, e, y, 1, 0x184c15d2fd662c16754b495ffc9332f28e);
  }

  lemma Order88Of134Part2()
    ensures Same(N134, Pow(G_134_88, 0x8e51fa3a480f89f9de516),
                 0x39ff89ecdac2ceb10530aa416914983792)
  {
    hide Pow, Same;
    Order88Of134Part1();
    var e: nat, y := 0x8e51fa3a480f89,
      0x184c15d2fd662c16754b495ffc9332f28e;
    e, y := Next(N134, G_134_88, e, y, 3, 0x33ad1d715d29b6659af4582f41f4b68e3c);
    e, y := Next(N134, G_134_88, e, y, 3, 0x173d250a697a68739ecb7e9816e176729c);
    e, y := Next(N134, G_134_88, e, y, 2, 0x3340d56740eaee55ba6911c14b22d6e512);
    e, y := Next(N134, G_134_88, e, y, 1, 0xad883b9dc6bb8408805598cb096cf5e00);
    e, y := Next(N134, G_134_88, e, y, 3, 0x163134acb14ad6e51dfbbdcabb2bb90707);
    e, y := Next(N134, G_134_88, e, y, 1, 0x2203144a0510271da7ef0bbe7e861fc7b2);
    e, y := Next(N134, G_134_88, e, y, 3, 0x1e7eeccb078713353c7eeb4315b877cca4);
    e, y := Next(N134, G_134_88, e, y, 2, 0x19de6cc8ac620e1043791bb4bb7de17658);
    e, y := Next(N134, G_134_88, e, y, 1, 0x194a3c0b7b186dbe9fc846219906e974a0);
    e, y := Next(N134, G_134_88, e, y, 1, 0x3901ad9e94ce7063e215952bff20e70062);
    e, y := Next(N134, G_134_88, e, y, 0, 0x29649b69079391d4dfc44f0c6e5be5a393);
    e, y := Next(N134, G_134_88, e, y, 1, 0xa8616bf5a31802fcf7f2ef9954130b01d);
    e, y := Next(N134, G_134_88, e, y, 1, 0x1fd09445e83a8d4b34d9597f759d17d77b);
    e, y := Next(N134, G_134_88, e, y, 2, 0x39ff89ecdac2ceb10530aa416914983792);
  }

  lemma Order88Of134()
    ensures HasOrder(N134, N88, G_134_88,
                     0x301ca9f38446aff6c3063f39e6ef47be52)
  {
    hide Pow, Same;
    Order88Of134Part2();
    var e: nat, y := 0x8e51fa3a480f89f9de516,
      0x39ff89ecdac2ceb10530aa416914983792;
    e, y := Next(N134, G_134_88, e, y, 0, 0x30109f4a1b44c12e63a81691a12887e0d8);
    e, y := Next(N134, G_134_88, e, y, 3, 1);
    SameMod(N134, (G_134_88 - 1) * 0x301ca9f38446aff6c3063f39e6ef47be52, 1);
  }

  lemma Prime134()
    ensures IsPrime(N134)
  {
    hide Pow, Same, IsPrime, HasOrder;
    Prime88();
    Order88Of134();
    Pocklington(N134, N88, G_134_88, 0x301ca9f38446aff6c3063f39e6ef47be52);
  }

  const G_138_134: int := 16384

  lemma Order134Of138Part0()
    ensures Same(N138, Pow(G_138_134, 243527897),
                 0x1d1283626f09b4d2cb62cddcc08e4384b86)
  {
    hide Pow, Same;
    Start(N138, G_138_134);
    var e: nat, y := 0, 1;
    e, y := Next(N138, G_138_134, e, y, 3, 0x40000000000);
    e, y := Next(N138, G_138_134, e, y, 2, 0x1784b39dc4f7061d71864d3815dd731a233);
    e, y := Next(N138, G_138_134, e, y, 2, 0x1cc27d3c1528c687e70c140e837daf80e86);
    e, y := Next(N138, G_138_134, e, y, 0, 0x2a192f9c6d64b754f5b05e18a425fd8b142);
    e, y := Next(N138, G_138_134, e, y, 0, 0x1fc46d4015de4efd0f8ffca57324e8dcc49);
    e, y := Next(N138, G_138_134, e, y, 3, 0x3d0a57c7ca98ddf81e193c9bacb4d96cb1);
    e, y := Next(N138, G_138_134, e, y, 3, 0x161c2a55ae98d8a34395a6f6e989b5a2e5e);
    e, y := Next(N138, G_138_134, e, y, 3, 0x22182d7a923348203cb188eec81c9632ffc);
    e, y := Next(N138, G_138_134, e, y, 0, 0x22372e67013a7053d50047ec9f3b873ba0f);
    e, y := Next(N138, G_138_134, e, y, 0, 0x26d843fb412b55eefecb24d56e5d7ee2dcc);
    e, y := Next(N138, G_138_134, e, y, 3, 0x1a3914ecf93c9dccbf9bae206764eddfaa6);
    e, y := Next(N138, G_138_134, e, y, 1, 0x30f9b99b383cf920c74f43090bc7fbb3794);
    e, y := Next(N138, G_138_134, e, y, 2, 0x24039a9e7b63b84d565300d98f2b5d47272);
    e, y := Next(N138, G_138_134, e, y, 1, 0x1d1283626f09b4d2cb62cddcc08e4384b86);
  }

  lemma Order134Of138Part1()
    ensures Same(N138, Pow(G_138_134, 0xe83f0d9f73c3fc),
                 0x1b7310b501800eab2421547d20177521242)
  {
    hide Pow, Same;
    Order134Of138Part0();
    var e: nat, y := 243527897,
      0x1d1283626f09b4d2cb62cddcc08e4384b86;
    e, y := Next(N138, G_138_134, e, y, 3, 0x223a6fa7ba5e1bf7cbe81716ec60eb8d8c0);
    e, y := Next(N138, G_138_134, e, y, 3, 0x6fd382b50d6f6daee224bc0b5a51392e92);
    e, y := Next(N138, G_138_134, e, y, 1, 0x10a9d651f99cb3c38ad99a44289dbc89b51);
    e, y := Next(N138, G_138_134, e, y, 3, 0x1c3972e91003be4ef5e32a1dbf2fe5ac42c);
    e, y := Next(N138, G_138_134, e, y, 0, 0x2a38f95ffd820620cfded9d8b4eeeb0fead);
    e, y := Next(N138, G_138_134, e, y, 3, 0x2326b79199c0862a1e84998022dc85b9b92);
    e, y := Next(N138, G_138_134, e, y, 3, 0xd23359a6e298ec9b80b703d21571025675);
    e, y := Next(N138, G_138_134, e, y, 0, 0x1170c489bc74d3968387181b3f49ad4057c);
    e, y := Next(N138, G_138_134, e, y, 0, 0x216a8901ae882e58c68dc6968b4b5af618f);
    e, y := Next(N138, G_138_134, e, y, 3, 0x8d25ecef6f39a46c43ef351303698d9013);
    e, y := Next(N138, G_138_134, e, y, 3, 0x1447ccdf9004c739cc154f8fe33e5e94443);
    e, y := Next(N138, G_138_134, e, y, 3, 0x18bed316db5f53291570178cecb140c6886);
    e, y := Next(N138, G_138_134, e, y, 3, 0x1b737776c299c4b706050a9964d3a9149fa);
    e, y := Next(N138, G_138_134, e, y, 0, 0x1b7310b501800eab2421547d20177521242);
  }

  lemma Order134Of138Part2()
    ensures Same(N138, Pow(G_138_134, 0xe83f0d9f73c3fc296876c),
                 0x1fc41ca8b0d181951acb26f919a17e81427)
  {
    hide Pow, Same;
    Order134Of138Part1();
    var e: nat, y := 0xe83f0d9f73c3fc,
      0x1b7310b501800eab2421547d20177521242;
    e, y := Next(N138, G_138_134, e, y, 0, 0x314e9379e0b8a6cb198e1b74997277a3737);
    e, y := Next(N138, G_138_134, e, y, 2, 0x20e9112a9dbc14e8ada2afa3c03f9678a8d);
    e, y := Next(N138, G_138_134, e, y, 2, 0x11b29314701d9c8e2438b86a33a9f063da2);
    e, y := Next(N138, G_138_134, e, y, 1, 0x2c3ce21b879b43caa5b17545bf314e1e320);
    e, y := Next(N138, G_138_134, e, y, 1, 0x68c7966f3f46fc6d15e921aa805b1ebb9d);
    e, y := Next(N138, G_138_134, e, y, 2, 0x2327380af877dc23c0e2413e21ffa662e46);
    e, y := Next(N138, G_138_134, e, y, 2, 0x305bbdb23e1b48faa246ef18e945259d44f);
    e, y := Next(N138, G_138_134, e, y, 0, 0x2426616e4391ee5cb05b6e46b35626d99ed);
    e, y := Next(N138, G_138_134, e, y, 1, 0xbac28d47201992dc0b47be66dcc0173d6a);
    e, y := Next(N138, G_138_134, e, y, 3, 0x1644ce83a4e7580e13ebdcc6709b95b3555);
    e, y := Next(N138, G_138_134, e, y, 1, 0x1a47f6a2252adc43e66096c6995c95032c7);
    e, y := Next(N138, G_138_134, e, y, 2, 0x16558cabf3893517a959284844cd0c7c7bc);
    e, y := Next(N138, G_138_134, e, y, 3, 0x19d1cfce39e54e9cd818319ca8682224e8a);
    e, y := Next(N138, G_138_134, e, y, 0, 0x1fc41ca8b0d181951acb26f919a17e81427);
  }

  lemma Order134Of138Part3()
    ensures Same(N138, Pow(G_138_134, 0xe83f0d9f73c3fc296876c2c6df0c),
                 0x106e8591ff208a0a0bbf071f6cf4dd4726a)
  {
    hide Pow, Same;
    Order134Of138Part2();
    var e: nat, y := 0xe83f0d9f73c3fc296876c,
      0x1fc41ca8b0d181951acb26f919a17e81427;
    e, y := Next(N138, G_138_134, e, y, 0, 0x50dd09e0f24696263f741ccaf788614f7c);
    e, y := Next(N138, G_138_134, e, y, 2, 0x18d463cd59ac0d2c7697bbb221da36bb8c4);
    e, y := Next(N138, G_138_134, e, y, 3, 0x190e0e5cb1b179f994ba3144dd2fb376137);
    e, y := Next(N138, G_138_134, e, y, 0, 0xe91b6458992704bf97c49d0e6a2c1d57b0);
    e, y := Next(N138, G_138_134, e, y, 1, 0x124b7a290c859f84e47294bc049ef6e7f8e);
    e, y := Next(N138, G_138_134, e, y, 2, 0x2dcec424d952b4166dc1254c44d9426a845);
    e, y := Next(N138, G_138_134, e, y, 3, 0x8a93800cc3ac6b25fd592f22739f8e21);
    e, y := Next(N138, G_138_134, e, y, 1, 0x3b2484a2e1213c42c2ba056e702842b03a);
    e, y := Next(N138, G_138_134, e, y, 3, 0x296226b841bd6f47094afd657a8a9cfaf46);
    e, y := Next(N138, G_138_134, e, y, 3, 0x21a327d662f1dde4974011979b7e85abd3d);
    e, y := Next(N138, G_138_134, e, y, 0, 0x164898153b816c4f2593080b6c0b7c53ec8);
    e, y := Next(N138, G_138_134, e, y, 0, 0x1d3a73d901d71dc6e48631b3d4ac76fc42a);
    e, y := Next(N138, G_138_134, e, y, 3, 0xb27ce908892a1f5e39a86e0c18b16f1ac1);
    e, y := Next(N138, G_138_134, e, y, 0, 0x106e8591ff208a0a0bbf071f6cf4dd4726a);
  }

  lemma Order134Of138()
    ensures HasOrder(N138, N134, G_138_134,
                     0x114761f57a17276184231256cbd81b2ad93)
  {
    hide Pow, Same;
    Order134Of138Part3();
    var e: nat, y := 0xe83f0d9f73c3fc296876c2c6df0c,
      0x106e8591ff208a0a0bbf071f6cf4dd4726a;
    e, y := Next(N138, G_138_134, e, y, 0, 0x32473eac1092198766815822994e6f2b604);
    e, y := Next(N138, G_138_134, e, y, 2, 0x2e298ed5431867a1152c55fc14fe629ac7c);
    e, y := Next(N138, G_138_134, e, y, 1, 0x2d869aa891dd13e844307b24265153fe164);
    e, y := Next(N138, G_138_134, e, y, 0, 0xf873abc62fd02883566f7f23014c4ef6e9);
    e, y := Next(N138, G_138_134, e, y, 3, 0x1d717c0b8609d85224467fcc312dd685ea5);
    e, y := Next(N138, G_138_134, e, y, 3, 0x1c5081d8de1ec8cb380bc90ef96de6f3c81);
    e, y := Next(N138, G_138_134, e, y, 3, 0x19edbe37a66736743f18cf255000d0fbfe1);
    e, y := Next(N138, G_138_134, e, y, 0, 0x1b1d1947a0e70e4690a5a21122d381b7f20);
    e, y := Next(N138, G_138_134, e, y, 3, 0x262117c25fcc2ed99909e17c7d3e023591c);
    e, y := Next(N138, G_138_134, e, y, 0, 0x282801c229a0ca8c21e34cb84a66d16490a);
    e, y := Next(N138, G_138_134, e, y, 3, 1);
    SameMod(N138, (G_138_134 - 1) * 0x114761f57a17276184231256cbd81b2ad93, 1);
  }

  lemma Prime138()
    ensures IsPrime(N138)
  {
    hide Pow, Same, IsPrime, HasOrder;
    Prime134();
    Order134Of138();
    Pocklington(N138, N134, G_138_134, 0x114761f57a17276184231256cbd81b2ad93);
  }

  const G_L_138: int := 0x6941747825185c74c21c65c0572a638494435ae0b3ba38e09b97aa8d26faec1

  lemma Order138OfLPart0()
    ensures Same(L, Pow(G_L_138, 52023),
                 0x5d0015a0525ec7eabd9bec258104fef28ebeb0677bda8a3d2f701f66fb2cc7)
  {
    hide Pow, Same;
    Start(L, G_L_138);
    var e: nat, y := 0, 1;
    e, y := Next(L, G_L_138, e, y, 3, 0x81a732e5e696fce4dcf08a863dd06b9e0963962ec8aa594458f77b2a81a90cf);
    e, y := Next(L, G_L_138, e, y, 0, 0xb60e77845c6e528bca372908c9616d85209022c306131ae7af9cb2852bf7bcf);
    e, y := Next(L, G_L_138, e, y, 2, 0xfdd6ff16c32ad2f785160cb502d0cd7a6ea0f4c5ab65bb9557bf5f5e3d44d31);
    e, y := Next(L, G_L_138, e, y, 3, 0xf32fe381648aa44706a292fa5bdd83bd3bd85237bee5d548ecf367db83328b3);
    e, y := Next(L, G_L_138, e, y, 0, 0xdb9566e6ba572f515df9ff05ab916cb916e827b7af96bd0a0a72ab4738be541);
    e, y := Next(L, G_L_138, e, y, 3, 0x83ea22ee270e69922bb8f51c90027c1c0cb2ccc7b45763bbde06025dba18364);
    e, y := Next(L, G_L_138, e, y, 1, 0x53f2001b9198551eb73bc50494421e63e1c8c9699850df2441269d9f486bd5e);
    e, y := Next(L, G_L_138, e, y, 3, 0x5d0015a0525ec7eabd9bec258104fef28ebeb0677bda8a3d2f701f66fb2cc7);
  }

  lemma Order138OfLPart1()
    ensures Same(L, Pow(G_L_138, 0xcb372beb),
                 0x880bb85fd290c69f14177c734a0a87647bfdcff1de22e9cddd2c3d9fee4750f)
  {
    hide Pow, Same;
    Order138OfLPart0();
    var e: nat, y := 52023,
      0x5d0015a0525ec7eabd9bec258104fef28ebeb0677bda8a3d2f701f66fb2cc7;
    e, y := Next(L, G_L_138, e, y, 0, 0x21f5b6b8b294bb88e208064bade1919a98b5a8d883c65807e2c42e31d74a95d);
    e, y := Next(L, G_L_138, e, y, 2, 0x36ce84b6ec3463ee8e9e8d3377d0f681cb537bc658725ddec43c1ee90092525);
    e, y := Next(L, G_L_138, e, y, 2, 0x118d64da060cbd612995c426aece4c80f73502b7333199b7fc0801f07d6f10);
    e, y := Next(L, G_L_138, e, y, 3, 0x6c3c437ec06c24e310e0b578f6e7a88ee0754744de67877c9ded20076e6ead4);
    e, y := Next(L, G_L_138, e, y, 3, 0x61a9ca651e3cffea94741129a0e64f7602a4a2a08d2c78fb544f2013048565f);
    e, y := Next(L, G_L_138, e, y, 2, 0x72fcee756e0eb6cc28127a77b79c5f71e9fb298333346acead4195574a0c649);
    e, y := Next(L, G_L_138, e, y, 2, 0xffd318003b435e7294a95204486895688215a4fdf0aa9567016dc0d92d62eee);
    e, y := Next(L, G_L_138, e, y, 3, 0x880bb85fd290c69f14177c734a0a87647bfdcff1de22e9cddd2c3d9fee4750f);
  }

  lemma Order138OfLPart2()
    ensures Same(L, Pow(G_L_138, 0xcb372beb854b),
                 0xef013c0fb1fc058872642045950723478b9ae9038ee0b0801f156f5b0a9f187)
  {
    hide Pow, Same;
    Order138OfLPart1();
    var e: nat, y := 0xcb372beb,
      0x880bb85fd290c69f14177c734a0a87647bfdcff1de22e9cddd2c3d9fee4750f;
    e, y := Next(L, G_L_138, e, y, 2, 0xc183c2a7aebf5e50fed99b5798db590c5aa75c706237abb837bed07a9527fb5);
    e, y := Next(L, G_L_138, e, y, 0, 0x3ba0fbdb737bd931801f7f4afb5d912aff191aa239f25656f9df07ab8dcf509);
    e, y := Next(L, G_L_138, e, y, 1, 0x5091717fcfeab02f311ee3ea022a65718e2b1cebf2962a1a250ea5135510824);
    e, y := Next(L, G_L_138, e, y, 1, 0xd900e9cd2e08a4e399f0817a2bae6aeb754b5e5530d6f24fe810834e66ae463);
    e, y := Next(L, G_L_138, e, y, 1, 0xb347348fee86204d0630914e11e01be3813b3ebb5d45c49078d3aa4bcec937d);
    e, y := Next(L, G_L_138, e, y, 0, 0xf3a3bdab152f0afdbb92174800a500269e574ac0eb63105d8067bfc9dce7408);
    e, y := Next(L, G_L_138, e, y, 2, 0xb1519b9ae2e932644fe35db18bd65885a30325060be5c126a5409b21dbb00a);
    e, y := Next(L, G_L_138, e, y, 3, 0xef013c0fb1fc058872642045950723478b9ae9038ee0b0801f156f5b0a9f187);
  }

  lemma Order138OfLPart3()
    ensures Same(L, Pow(G_L_138, 0xcb372beb854b7ca4),
                 0x8d23e16485725ee785f9d439584bf098de22a07b4465662a1ef3f4617d4fd29)
  {
    hide Pow, Same;
    Order138OfLPart2();
    var e: nat, y := 0xcb372beb854b,
      0xef013c0fb1fc058872642045950723478b9ae9038ee0b0801f156f5b0a9f187;
    e, y := Next(L, G_L_138, e, y, 1, 0x105c0b6075d67f698b2d87c7284e6a025d9af1fe579c1e41698a9eba9a483cb);
    e, y := Next(L, G_L_138, e, y, 3, 0xbfc7e274e038ce966a774d3d116b75c6be5b5dc26379255bd32db01691af89b);
    e, y := Next(L, G_L_138, e, y, 3, 0x2ddcff8f74ccd7291f6eba6a662ce62bcc2d3f1a6e8d0835119e69a4cc47504);
    e, y := Next(L, G_L_138, e, y, 0, 0x98563b2336c5e465d3fcf53fdb75abdb220882ad4f03486a4831525833af22c);
    e, y := Next(L, G_L_138, e, y, 2, 0x2efa43752b5bf70cb3ec3df0dc7ae4ca4ebb646bd396ccef183eca9f1c75f24);
    e, y := Next(L, G_L_138, e, y, 2, 0x6ab35bd6b490543692a91d275acff3b856a88368afbe8542ffd1be8cdf1862);
    e, y := Next(L, G_L_138, e, y, 1, 0xe915baf8791c1c0b3884dbc5f17d85751e855e87ca2a3ca6a6daffecf34506);
    e, y := Next(L, G_L_138, e, y, 0, 0x8d23e16485725ee785f9d439584bf098de22a07b4465662a1ef3f4617d4fd29);
  }

  lemma Order138OfLPart4()
    ensures Same(L, Pow(G_L_138, 0xcb372beb854b7ca43b67),
                 0xe04496998be282d669f4be2599649e834b90db5609b4283d1f89aec841ebf5b)
  {
    hide Pow, Same;
    Order138OfLPart3();
    var e: nat, y := 0xcb372beb854b7ca4,
      0x8d23e16485725ee785f9d439584bf098de22a07b4465662a1ef3f4617d4fd29;
    e, y := Next(L, G_L_138, e, y, 0, 0xcc98848802a930e349dcd5979dce0866d6e04808e0935aa53885090d8bccf73);
    e, y := Next(L, G_L_138, e, y, 3, 0x2019831229d9563beb9a127aa50d4f32bab2539cd0cf81ddbd21febab4b2496);
    e, y := Next(L, G_L_138, e, y, 2, 0x3a90c79edac717491611e7985c3b55f767fab5ecfa413e9d31a49ff8740b71d);
    e, y := Next(L, G_L_138, e, y, 3, 0x1aa7ecce1b937353cfb10a08018f2f5b3f5e01eb8578d15cbbebd26ba71dcc6);
    e, y := Next(L, G_L_138, e, y, 1, 0xaa4e782cef570f207eb9f912a4a3a44ba9aa507ae57fbede24ff769346704b2);
    e, y := Next(L, G_L_138, e, y, 2, 0xd0a02041c55ae0b5e32cd0609d9cdf7ef0ca51b0571f5a819e455e7600ab3ca);
    e, y := Next(L, G_L_138, e, y, 1, 0x5264a9477dbaf09536960a361b18e76b6a4ae7291320c81e8f2b745c367faa);
    e, y := Next(L, G_L_138, e, y, 3, 0xe04496998be282d669f4be2599649e834b90db5609b4283d1f89aec841ebf5b);
  }

  lemma Order138OfLPart5()
    ensures Same(L, Pow(G_L_138, 0xcb372beb854b7ca43b67ea6e),
                 0x2bfa20667f0bba2193ac8827bcfdca590a9165656d9df20fe2b05438ce3532f)
  {
    hide Pow, Same;
    Order138OfLPart4();
    var e: nat, y := 0xcb372beb854b7ca43b67,
      0xe04496998be282d669f4be2599649e834b90db5609b4283d1f89aec841ebf5b;
    e, y := Next(L, G_L_138, e, y, 3, 0x39d3c271ca5bae6de0a0b14fbe4f3ec48ef02bd8389ef03790253e4afa1ac74);
    e, y := Next(L, G_L_138, e, y, 2, 0xae24ba53809dd575d68134292620b60d61e032d86c726fdb9338a48ee4edb53);
    e, y := Next(L, G_L_138, e, y, 2, 0xd4a67047bd7748b7769d7bc15c4d4bb5b32ee9ae7427f1e163246544a1b257b);
    e, y := Next(L, G_L_138, e, y, 2, 0x4d86d54d20bb95409cf94460970c6fd1db2997c46b520faa6298318cc46d2c9);
    e, y := Next(L, G_L_138, e, y, 1, 0xe2ebb2f70d2abe568d3427a59b460b886dd92abcdfbb74714cddd6ed8314d5);
    e, y := Next(L, G_L_138, e, y, 2, 0xa0490d464f037973534f2fad19161c6f6c4e76ac699f1fbee811ae72ee86bbe);
    e, y := Next(L, G_L_138, e, y, 3, 0xf42aba3cb3e8af9154f2926dda5320c49adabacebbdc5d4b5c343e6a793aafb);
    e, y := Next(L, G_L_138, e, y, 2, 0x2bfa20667f0bba2193ac8827bcfdca590a9165656d9df20fe2b05438ce3532f);
  }

  lemma Order138OfLPart6()
    ensures Same(L, Pow(G_L_138, 0xcb372beb854b7ca43b67ea6e032a),
                 0x447183e872da9a39ff4a4d1e87168864a9091250527b7608b33513e281126c7)
  {
    hide Pow, Same;
    Order138OfLPart5();
    var e: nat, y := 0xcb372beb854b7ca43b67ea6e,
      0x2bfa20667f0bba2193ac8827bcfdca590a9165656d9df20fe2b05438ce3532f;
    e, y := Next(L, G_L_138, e, y, 0, 0x685424f867f00017ca76a11094722efc64b5c456ddbbfb998de9c2a4067f79b);
    e, y := Next(L, G_L_138, e, y, 0, 0x260a31ced8219840cd73bb3f86cee9c975228ac2c892d2277b0a074dc53f3d);
    e, y := Next(L, G_L_138, e, y, 0, 0x6b94e397862dbc3266f82f155428c74bfa12f25caa5683e732c78b72b905164);
    e, y := Next(L, G_L_138, e, y, 3, 0x70bdb9763efd2308a185f40e1c656f527bff21bfc1a06dfda04d71971e245a4);
    e, y := Next(L, G_L_138, e, y, 0, 0x54f0e8631311a2aaeee10650ff7af57b4276824073c8f176c9b445d7bbeac21);
    e, y := Next(L, G_L_138, e, y, 2, 0x2afb492a8ecb926cece00ce3ae6cc6392e8fe85f1154b32c849ca049de3fcfa);
    e, y := Next(L, G_L_138, e, y, 2, 0x36f7508feb5e3cb9cdce6cb6a2e338574efd99174ea1db9662972950bd53651);
    e, y := Next(L, G_L_138, e, y, 2, 0x447183e872da9a39ff4a4d1e87168864a9091250527b7608b33513e281126c7);
  }

  lemma Order138OfLPart7()
    ensures Same(L, Pow(G_L_138, 0xcb372beb854b7ca43b67ea6e032aa05d),
                 0x1ac19d07bce39a6247ad066742e4778d07f37a839b2b5266a2035aeae934d0d)
  {
    hide Pow, Same;
    Order138OfLPart6();
    var e: nat, y := 0xcb372beb854b7ca43b67ea6e032a,
      0x447183e872da9a39ff4a4d1e87168864a9091250527b7608b33513e281126c7;
    e, y := Next(L, G_L_138, e, y, 2, 0xd8e4993e231b4e0fbe48d27c98a70e5ec7071a7b04a9f044114e64e12f3106c);
    e, y := Next(L, G_L_138, e, y, 2, 0x2ecd39df612b6b1ffcf77e79e33284716f6e186f39d34f0e389e1f2b8c0b5f);
    e, y := Next(L, G_L_138, e, y, 0, 0x86c15240be5637ea41d249605a763b457e5d50adfa7d0091551e3a5150f1ee2);
    e, y := Next(L, G_L_138, e, y, 0, 0x6e1d3b4c3e2af58e5835b740f40b21b58f003d5dbf7b9df7db7b0aacfa6d742);
    e, y := Next(L, G_L_138, e, y, 1, 0x8f8975ee11bc0be9ec5882dc7de20d86766eb617e067d33db8071171b6c291e);
    e, y := Next(L, G_L_138, e, y, 1, 0x53460200ff54f5f871d0a7ca8ea17e5c6331be0eb73aee2ba779590905418f1);
    e, y := Next(L, G_L_138, e, y, 3, 0xfa249c5b0423d44014bc1b21506f8647cc7f0251d8eb95e6372fc3341c28849);
    e, y := Next(L, G_L_138, e, y, 1, 0x1ac19d07bce39a6247ad066742e4778d07f37a839b2b5266a2035aeae934d0d);
  }

  lemma Order138OfL()
    ensures HasOrder(L, N138, G_L_138,
                     0x4f00a20dc254447a5cb50de6926ccd209ebc28f00f1664a7d2f3930fbe411ae)
  {
    hide Pow, Same;
    Order138OfLPart7();
    var e: nat, y := 0xcb372beb854b7ca43b67ea6e032aa05d,
      0x1ac19d07bce39a6247ad066742e4778d07f37a839b2b5266a2035aeae934d0d;
    e, y := Next(L, G_L_138, e, y, 0, 0x14273449e4c1c81f220eebccb62405d75532b9f026e707a0823370a02e6125e);
    e, y := Next(L, G_L_138, e, y, 3, 0x84d21ccfefd12ff29934941efe60ee3fbda4f0ca60f19ed7f8b78160358ff87);
    e, y := Next(L, G_L_138, e, y, 0, 0xfc30597c9e7d0cf52e553f4031062810972a7fabcb62efb4c7cccb3a16f4f35);
    e, y := Next(L, G_L_138, e, y, 2, 0xdd3dea2c4a473d33f12e89b2053340555ccd0afac9647fafebd735dbbe2d838);
    e, y := Next(L, G_L_138, e, y, 3, 1);
    SameMod(L, (G_L_138 - 1) * 0x4f00a20dc254447a5cb50de6926ccd209ebc28f00f1664a7d2f3930fbe411ae, 1);
  }

  lemma PrimeL()
    ensures IsPrime(L)
  {
    hide Pow, Same, IsPrime, HasOrder;
    Prime138();
    Order138OfL();
    Pocklington(L, N138, G_L_138, 0x4f00a20dc254447a5cb50de6926ccd209ebc28f00f1664a7d2f3930fbe411ae);
  }
}
