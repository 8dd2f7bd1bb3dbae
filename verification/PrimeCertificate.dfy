/** p = 2^255 - 19 is prime: Pocklington's test, down to primes below 1024.  Every step of a power is two
    squarings and a factor. */
module PrimeCertificate {
  import opened Power
  import opened Primes
  import opened PrimeField

  const N236: int := 74058212732561358302231226437062788676166966415465897661863160754340907

  const N116: int := 75445702479781427272750846543864801

  const N51: int := 1919519569386763

  lemma Order991Of8574133()
    ensures HasOrder(8574133, 991, 3435729, 1014251)
  {
    hide Pow, Same;
    Start(8574133, 3435729);
    var e: nat, y := 0, 1;
    e, y := Next(8574133, 3435729, e, y, 3, 7537281);
    e, y := Next(8574133, 3435729, e, y, 3, 6784828);
    e, y := Next(8574133, 3435729, e, y, 1, 1416919);
    e, y := Next(8574133, 3435729, e, y, 3, 5036138);
    e, y := Next(8574133, 3435729, e, y, 3, 1);
    SameMod(8574133, (3435729 - 1) * 1014251, 1);
  }

  lemma Order103Of8574133()
    ensures HasOrder(8574133, 103, 4321357, 3531099)
  {
    hide Pow, Same;
    Start(8574133, 4321357);
    var e: nat, y := 0, 1;
    e, y := Next(8574133, 4321357, e, y, 1, 4321357);
    e, y := Next(8574133, 4321357, e, y, 2, 7025194);
    e, y := Next(8574133, 4321357, e, y, 1, 2240050);
    e, y := Next(8574133, 4321357, e, y, 3, 1);
    SameMod(8574133, (4321357 - 1) * 3531099, 1);
  }

  lemma Prime8574133()
    ensures IsPrime(8574133)
  {
    hide Pow, Same, IsPrime, HasOrder;
    SmallPrime(991);
    Order991Of8574133();
    SmallPrime(103);
    Order103Of8574133();
    PocklingtonTwo(8574133, 991, 3435729, 1014251,
                   103, 4321357, 3531099);
  }

  const G_51_8574133: int := 0x3c3ffdef7c0b1

  lemma Order8574133Of51()
    ensures HasOrder(N51, 8574133, G_51_8574133,
                     0x495bef080ea35)
  {
    hide Pow, Same;
    Start(N51, G_51_8574133);
    var e: nat, y := 0, 1;
    e, y := Next(N51, G_51_8574133, e, y, 2, 0x158280d1c7fe9);
    e, y := Next(N51, G_51_8574133, e, y, 0, 0xa1a81c865ef3);
    e, y := Next(N51, G_51_8574133, e, y, 0, 0x612344a925350);
    e, y := Next(N51, G_51_8574133, e, y, 2, 0x626b6bf964a0b);
    e, y := Next(N51, G_51_8574133, e, y, 3, 0x1af1b0376649d);
    e, y := Next(N51, G_51_8574133, e, y, 1, 0x67339e4b07ecd);
    e, y := Next(N51, G_51_8574133, e, y, 1, 0x3e3bdbc06dca4);
    e, y := Next(N51, G_51_8574133, e, y, 0, 0x5319205ebe88c);
    e, y := Next(N51, G_51_8574133, e, y, 2, 0x2741e82e93a2c);
    e, y := Next(N51, G_51_8574133, e, y, 3, 0x11a52cb514f6b);
    e, y := Next(N51, G_51_8574133, e, y, 1, 0x5967ff7111a20);
    e, y := Next(N51, G_51_8574133, e, y, 1, 1);
    SameMod(N51, (G_51_8574133 - 1) * 0x495bef080ea35, 1);
  }

  const G_51_127: int := 0x20c92d89f364e

  lemma Order127Of51()
    ensures HasOrder(N51, 127, G_51_127,
                     0x6a4e3f18a99bc)
  {
    hide Pow, Same;
    Start(N51, G_51_127);
    var e: nat, y := 0, 1;
    e, y := Next(N51, G_51_127, e, y, 1, 0x20c92d89f364e);
    e, y := Next(N51, G_51_127, e, y, 3, 0x2b2b91dd75da8);
    e, y := Next(N51, G_51_127, e, y, 3, 0x4b1087828e7c0);
    e, y := Next(N51, G_51_127, e, y, 3, 1);
    SameMod(N51, (G_51_127 - 1) * 0x6a4e3f18a99bc, 1);
  }

  lemma Prime51()
    ensures IsPrime(N51)
  {
    hide Pow, Same, IsPrime, HasOrder;
    Prime8574133();
    Order8574133Of51();
    SmallPrime(127);
    Order127Of51();
    PocklingtonTwo(N51, 8574133, G_51_8574133, 0x495bef080ea35,
                   127, G_51_127, 0x6a4e3f18a99bc);
  }

  lemma Order83Of9463()
    ensures HasOrder(9463, 83, 6023, 11)
  {
    hide Pow, Same;
    Start(9463, 6023);
    var e: nat, y := 0, 1;
    e, y := Next(9463, 6023, e, y, 1, 6023);
    e, y := Next(9463, 6023, e, y, 1, 3275);
    e, y := Next(9463, 6023, e, y, 0, 8589);
    e, y := Next(9463, 6023, e, y, 3, 1);
    SameMod(9463, (6023 - 1) * 11, 1);
  }

  lemma Order19Of9463()
    ensures HasOrder(9463, 19, 6272, 9128)
  {
    hide Pow, Same;
    Start(9463, 6272);
    var e: nat, y := 0, 1;
    e, y := Next(9463, 6272, e, y, 1, 6272);
    e, y := Next(9463, 6272, e, y, 0, 682);
    e, y := Next(9463, 6272, e, y, 3, 1);
    SameMod(9463, (6272 - 1) * 9128, 1);
  }

  lemma Prime9463()
    ensures IsPrime(9463)
  {
    hide Pow, Same, IsPrime, HasOrder;
    SmallPrime(83);
    Order83Of9463();
    SmallPrime(19);
    Order19Of9463();
    PocklingtonTwo(9463, 83, 6023, 11,
                   19, 6272, 9128);
  }

  lemma Order9463Of37853()
    ensures HasOrder(37853, 9463, 16, 32806)
  {
    hide Pow, Same;
    Start(37853, 16);
    var e: nat, y := 0, 1;
    e, y := Next(37853, 16, e, y, 2, 256);
    e, y := Next(37853, 16, e, y, 1, 4946);
    e, y := Next(37853, 16, e, y, 0, 27703);
    e, y := Next(37853, 16, e, y, 3, 22578);
    e, y := Next(37853, 16, e, y, 3, 1702);
    e, y := Next(37853, 16, e, y, 1, 21559);
    e, y := Next(37853, 16, e, y, 3, 1);
    SameMod(37853, (16 - 1) * 32806, 1);
  }

  lemma Prime37853()
    ensures IsPrime(37853)
  {
    hide Pow, Same, IsPrime, HasOrder;
    Prime9463();
    Order9463Of37853();
    Pocklington(37853, 9463, 16, 32806);
  }

  lemma Order37853Of75707()
    ensures HasOrder(75707, 37853, 4, 25236)
  {
    hide Pow, Same;
    Start(75707, 4);
    var e: nat, y := 0, 1;
    e, y := Next(75707, 4, e, y, 2, 16);
    e, y := Next(75707, 4, e, y, 1, 35023);
    e, y := Next(75707, 4, e, y, 0, 31508);
    e, y := Next(75707, 4, e, y, 3, 44580);
    e, y := Next(75707, 4, e, y, 3, 2897);
    e, y := Next(75707, 4, e, y, 1, 42016);
    e, y := Next(75707, 4, e, y, 3, 55575);
    e, y := Next(75707, 4, e, y, 1, 1);
    SameMod(75707, (4 - 1) * 25236, 1);
  }

  lemma Prime75707()
    ensures IsPrime(75707)
  {
    hide Pow, Same, IsPrime, HasOrder;
    Prime37853();
    Order37853Of75707();
    Pocklington(75707, 37853, 4, 25236);
  }

  const G_116_51: int := 0xaedd80ab27e8de3ca5f2fb22d5403

  lemma Order51Of116Part0()
    ensures Same(N116, Pow(G_116_51, 114412282),
                 0x2b80db59644f026a0903288aaaa5d)
  {
    hide Pow, Same;
    Start(N116, G_116_51);
    var e: nat, y := 0, 1;
    e, y := Next(N116, G_116_51, e, y, 1, 0xaedd80ab27e8de3ca5f2fb22d5403);
    e, y := Next(N116, G_116_51, e, y, 2, 0x7b07abf2a0bdfa0b9dd400295ab);
    e, y := Next(N116, G_116_51, e, y, 3, 0x86f41bda7c9b2a0ea67579a5971cd);
    e, y := Next(N116, G_116_51, e, y, 1, 0x53d31a0a415a647d81ba17c64cb9c);
    e, y := Next(N116, G_116_51, e, y, 0, 0x71f9ced5e7ced7df9a9a7c51912e1);
    e, y := Next(N116, G_116_51, e, y, 1, 0x8a4ce1ca61270808e9f80c903fa92);
    e, y := Next(N116, G_116_51, e, y, 3, 0xb93588d98b41cdea0a321d17728);
    e, y := Next(N116, G_116_51, e, y, 0, 0x311c7da706526c7b84452ad03a077);
    e, y := Next(N116, G_116_51, e, y, 2, 0xe49cda690b91541a0b4bdedd2400b);
    e, y := Next(N116, G_116_51, e, y, 2, 0x832c61ba16d59cb5e168e09fefff3);
    e, y := Next(N116, G_116_51, e, y, 3, 0x3153b661018255cbd0a0f75054ca4);
    e, y := Next(N116, G_116_51, e, y, 3, 0xdef4b93c246326ad733ff245e8807);
    e, y := Next(N116, G_116_51, e, y, 2, 0x1a044229e28f73659f53fba8831ae);
    e, y := Next(N116, G_116_51, e, y, 2, 0x2b80db59644f026a0903288aaaa5d);
  }

  lemma Order51Of116()
    ensures HasOrder(N116, N51, G_116_51,
                     0xe5e342b4c0a3d507894bab5f20e8b)
  {
    hide Pow, Same;
    Order51Of116Part0();
    var e: nat, y := 114412282,
      0x2b80db59644f026a0903288aaaa5d;
    e, y := Next(N116, G_116_51, e, y, 0, 0x8abf84e490585b935976b1bdd486b);
    e, y := Next(N116, G_116_51, e, y, 1, 0x523c96f162978ca422a4dfdd98edb);
    e, y := Next(N116, G_116_51, e, y, 0, 0x74d5f338e0a6231fe90cf6f410723);
    e, y := Next(N116, G_116_51, e, y, 2, 0x1acf64ac33b953f3a87c1cd463c50);
    e, y := Next(N116, G_116_51, e, y, 2, 0xd2f25f4ad230f919bdeb95c0e36f4);
    e, y := Next(N116, G_116_51, e, y, 1, 0x2b021a7ab552f243edc3ba9800c8e);
    e, y := Next(N116, G_116_51, e, y, 3, 0x8b6152c1cfcd0923cce5add5d51c5);
    e, y := Next(N116, G_116_51, e, y, 1, 0xdd5967d7f15948d246efbdead218c);
    e, y := Next(N116, G_116_51, e, y, 0, 0x7ad56a78a8c4b8c1209fe3b3e6158);
    e, y := Next(N116, G_116_51, e, y, 0, 0x26780b9ac5112b06374380fca4b4c);
    e, y := Next(N116, G_116_51, e, y, 2, 0x570414ecf62a60bea569123ff9dbd);
    e, y := Next(N116, G_116_51, e, y, 3, 1);
    SameMod(N116, (G_116_51 - 1) * 0xe5e342b4c0a3d507894bab5f20e8b, 1);
  }

  const G_116_75707: int := 0xb52295a2da9f8731db89340ad8f16

  lemma Order75707Of116()
    ensures HasOrder(N116, 75707, G_116_75707,
                     0x1bb0fee20f00433b82723f09a47f3)
  {
    hide Pow, Same;
    Start(N116, G_116_75707);
    var e: nat, y := 0, 1;
    e, y := Next(N116, G_116_75707, e, y, 1, 0xb52295a2da9f8731db89340ad8f16);
    e, y := Next(N116, G_116_75707, e, y, 0, 0x2174c0a841e2df47e13363bef9ea2);
    e, y := Next(N116, G_116_75707, e, y, 2, 0xcfd659340de94c881dab80db7037e);
    e, y := Next(N116, G_116_75707, e, y, 1, 0x282892bd7af02fdc6b74bc6a00cb5);
    e, y := Next(N116, G_116_75707, e, y, 3, 0x865f84902bb650cd8fd9bc7728748);
    e, y := Next(N116, G_116_75707, e, y, 2, 0xb9bb4aa8ec80f1b5aa6826013cdb6);
    e, y := Next(N116, G_116_75707, e, y, 3, 0x32a1a63676b5a7639cbf583865565);
    e, y := Next(N116, G_116_75707, e, y, 2, 0x8fb529b4e1ef48735493911e8a902);
    e, y := Next(N116, G_116_75707, e, y, 3, 1);
    SameMod(N116, (G_116_75707 - 1) * 0x1bb0fee20f00433b82723f09a47f3, 1);
  }

  lemma Prime116()
    ensures IsPrime(N116)
  {
    hide Pow, Same, IsPrime, HasOrder;
    Prime51();
    Order51Of116();
    Prime75707();
    Order75707Of116();
    PocklingtonTwo(N116, N51, G_116_51, 0xe5e342b4c0a3d507894bab5f20e8b,
                   75707, G_116_75707, 0x1bb0fee20f00433b82723f09a47f3);
  }

  lemma Order487Of57467()
    ensures HasOrder(57467, 487, 17139, 56679)
  {
    hide Pow, Same;
    Start(57467, 17139);
    var e: nat, y := 0, 1;
    e, y := Next(57467, 17139, e, y, 1, 17139);
    e, y := Next(57467, 17139, e, y, 3, 19612);
    e, y := Next(57467, 17139, e, y, 2, 38186);
    e, y := Next(57467, 17139, e, y, 1, 25927);
    e, y := Next(57467, 17139, e, y, 3, 1);
    SameMod(57467, (17139 - 1) * 56679, 1);
  }

  lemma Prime57467()
    ensures IsPrime(57467)
  {
    hide Pow, Same, IsPrime, HasOrder;
    SmallPrime(487);
    Order487Of57467();
    Pocklington(57467, 487, 17139, 56679);
  }

  const G_236_116: int := 0xa118eb0f9d8184bab59e8e45df736d65fba3c64f4aa855bc8921ac18308

  lemma Order116Of236Part0()
    ensures Same(N236, Pow(G_236_116, 59516),
                 0x73e2b308c4d77136eb35c70ef4781525bbb4035cd27c88fb02700bbe077)
  {
    hide Pow, Same;
    Start(N236, G_236_116);
    var e: nat, y := 0, 1;
    e, y := Next(N236, G_236_116, e, y, 3, 0x8b4cf1d206f83670a1bd65b3b5531c0696ae852450b960b7180d25e9d0e);
    e, y := Next(N236, G_236_116, e, y, 2, 0x58dc130308dd4efe1f821ac60fa137b9ef44bdb398e9534e07e281a56e);
    e, y := Next(N236, G_236_116, e, y, 2, 0x7d85cfde4f00836c342a258930be7dfa0b10a763f916e2724f0cfaab568);
    e, y := Next(N236, G_236_116, e, y, 0, 0x96b3210909a8c8117c615e847ef91d9bb7579d4c7da760f5028d0d749ee);
    e, y := Next(N236, G_236_116, e, y, 1, 0x2639a6ecb2839b20f25da83ede3c574b0807b352e7cdd33d4a86415a61d);
    e, y := Next(N236, G_236_116, e, y, 3, 0x23d6a1da936a6f2e2c3d154bbd725a5227612211b8fad6a6ae7b8c04b12);
    e, y := Next(N236, G_236_116, e, y, 3, 0x66e62422dac05613028954ef8af6a89794fe4cb8fc39a01a67918ac4463);
    e, y := Next(N236, G_236_116, e, y, 0, 0x73e2b308c4d77136eb35c70ef4781525bbb4035cd27c88fb02700bbe077);
  }

  lemma Order116Of236Part1()
    ensures Same(N236, Pow(G_236_116, 0xe87c2a47),
                 0x8c4e4b1bd51e029a05cebe12fcd639608ca9d69136c13fec807f0df59f1)
  {
    hide Pow, Same;
    Order116Of236Part0();
    var e: nat, y := 59516,
      0x73e2b308c4d77136eb35c70ef4781525bbb4035cd27c88fb02700bbe077;
    e, y := Next(N236, G_236_116, e, y, 0, 0xa48ce48fa3f1e6756db9b4c730858ecadac6628919b4ae5b86a2d798ccb);
    e, y := Next(N236, G_236_116, e, y, 2, 0xa4221117ec614844a3207f77b9b3be05f68d922de37afd7a54e101a8de5);
    e, y := Next(N236, G_236_116, e, y, 2, 0x7e3eca5495a5e3c2212eb8688487e79bc6c042389f01a1b706748ef3332);
    e, y := Next(N236, G_236_116, e, y, 2, 0x6997c13781fe17841280a22b659c00834a959d6138ec9d3f2821d9d2c64);
    e, y := Next(N236, G_236_116, e, y, 1, 0x45deae5d1733e9e844d8f1737a466b03c3269c73dc12c13607bd020f10c);
    e, y := Next(N236, G_236_116, e, y, 0, 0x5109b0515e8fba2c205ecedd1416f736fecc816926b9a887bbbc62ff635);
    e, y := Next(N236, G_236_116, e, y, 1, 0x3917f5d4e24b10f3b58aaacad3399baa5982d0d3819b4be1d9ed76dff91);
    e, y := Next(N236, G_236_116, e, y, 3, 0x8c4e4b1bd51e029a05cebe12fcd639608ca9d69136c13fec807f0df59f1);
  }

  lemma Order116Of236Part2()
    ensures Same(N236, Pow(G_236_116, 0xe87c2a477b81),
                 0x5bc94b0f9f61f6290a8e318de8176e243bf0ac26d0870c5dc8fc7072899)
  {
    hide Pow, Same;
    Order116Of236Part1();
    var e: nat, y := 0xe87c2a47,
      0x8c4e4b1bd51e029a05cebe12fcd639608ca9d69136c13fec807f0df59f1;
    e, y := Next(N236, G_236_116, e, y, 1, 0xa3dfd549c46392b28ec4e53be7d094e059fa1b1a6e42df45b515096160);
    e, y := Next(N236, G_236_116, e, y, 3, 0xc21b19452b898884e91a01ccf71d26c0c00f96f6de89e8a751442eee1b);
    e, y := Next(N236, G_236_116, e, y, 2, 0x1521b4139d59dd46e5565b9db568908af5f45f9eaeef2ebe1a7d5d9f911);
    e, y := Next(N236, G_236_116, e, y, 3, 0x4145cdc672cce1babe03b600ef34e5cc90c4a8f76dafbaa7e74f4d58d14);
    e, y := Next(N236, G_236_116, e, y, 2, 0x4c37276d9691be7c056b2f28a7d7fc2d5573e792c34a16d50a712730344);
    e, y := Next(N236, G_236_116, e, y, 0, 0x4909b9ea2ec9a7b910cf3eb8bafb40f4867d33792b4378132e9998d4c8a);
    e, y := Next(N236, G_236_116, e, y, 0, 0x937e3ad229d4b3d482feb386306ef59a45880b0eb66769396237b6737ea);
    e, y := Next(N236, G_236_116, e, y, 1, 0x5bc94b0f9f61f6290a8e318de8176e243bf0ac26d0870c5dc8fc7072899);
  }

  lemma Order116Of236Part3()
    ensures Same(N236, Pow(G_236_116, 0xe87c2a477b815a17),
                 0xe0b5ae692be86abe4f0763d240a8c16e14af973a0442bf342a9877f25f)
  {
    hide Pow, Same;
    Order116Of236Part2();
    var e: nat, y := 0xe87c2a477b81,
      0x5bc94b0f9f61f6290a8e318de8176e243bf0ac26d0870c5dc8fc7072899;
    e, y := Next(N236, G_236_116, e, y, 1, 0xdb193a211c8411a640a2dc782009608f9d15f6db4a3705061675dcae21);
    e, y := Next(N236, G_236_116, e, y, 1, 0x41a0bd2693151d443b62e7c331b15e77c8072326dd16e247efb7bfbbe39);
    e, y := Next(N236, G_236_116, e, y, 2, 0x3c9ba986d51528485eba12677a53fb2e15dbf3be3898cd080468f3081ce);
    e, y := Next(N236, G_236_116, e, y, 2, 0x3adf545ec73b51fedeb89bde091359c2417c7ff0a2a6cf0a26dc49f2e97);
    e, y := Next(N236, G_236_116, e, y, 0, 0x8085b9363e04ff6f91ca4f7359073735fc00b5b247abd03f5e7c6be0ada);
    e, y := Next(N236, G_236_116, e, y, 1, 0xc333e695c557dea1833a6d4c2ebd8e9becd7e01880c70229f73ef0ee6f);
    e, y := Next(N236, G_236_116, e, y, 1, 0x42a137b599d4ccaff49da9f7f91a3595e00e3c24721375b63d046801884);
    e, y := Next(N236, G_236_116, e, y, 3, 0xe0b5ae692be86abe4f0763d240a8c16e14af973a0442bf342a9877f25f);
  }

  lemma Order116Of236Part4()
    ensures Same(N236, Pow(G_236_116, 0xe87c2a477b815a179378),
                 0x576f3c4c28aec4e2460338906ab9ac647159bbe6483e87e60682c6b6c3)
  {
    hide Pow, Same;
    Order116Of236Part3();
    var e: nat, y := 0xe87c2a477b815a17,
      0xe0b5ae692be86abe4f0763d240a8c16e14af973a0442bf342a9877f25f;
    e, y := Next(N236, G_236_116, e, y, 2, 0x5544d14241e0efc6ed836c880257df8dbd63fd0ba6502c7b66617d9db60);
    e, y := Next(N236, G_236_116, e, y, 1, 0x4dbda4b7be7c597933d2c2e02ed65b14f8b8beb749fb71e27a01b85eac5);
    e, y := Next(N236, G_236_116, e, y, 0, 0x112745b5b0ac7355ea2834b6a1f04b75b62f6ce591b21e384cae733b0e9);
    e, y := Next(N236, G_236_116, e, y, 3, 0x7879a5f59674f0f8baee443d58990af1d4b8284319cc263bb828de171d2);
    e, y := Next(N236, G_236_116, e, y, 1, 0x1b38053a9c01248edb08b3a320656956ef9d30e027ff2e771a3ad53c1a6);
    e, y := Next(N236, G_236_116, e, y, 3, 0x87eb4cb255a29a8e7c5a4e5083a911c9193628ec41e6c414f36ebcf160b);
    e, y := Next(N236, G_236_116, e, y, 2, 0xccae0b69a05f5ce20b55c81b50394bdfe023d0428cb66710b71d1c8354);
    e, y := Next(N236, G_236_116, e, y, 0, 0x576f3c4c28aec4e2460338906ab9ac647159bbe6483e87e60682c6b6c3);
  }

  lemma Order116Of236Part5()
    ensures Same(N236, Pow(G_236_116, 0xe87c2a477b815a1793787395),
                 0xaa8753e2e48c553a6ee84837a7afaa12e90be701a6d6ebc59a010d5907c)
  {
    hide Pow, Same;
    Order116Of236Part4();
    var e: nat, y := 0xe87c2a477b815a179378,
      0x576f3c4c28aec4e2460338906ab9ac647159bbe6483e87e60682c6b6c3;
    e, y := Next(N236, G_236_116, e, y, 1, 0x25f1bebb0dd9b80cc0aa701df7c2f76d1e3076919f7c7b0f234463399d8);
    e, y := Next(N236, G_236_116, e, y, 3, 0x64cac31c919b935f1547c173a2ecab65db86cdc408a49da5b2070910130);
    e, y := Next(N236, G_236_116, e, y, 0, 0x1f1faa2ad73d39374e4b9a14393289259e73ff1d149fd4c38a014fc8e2c);
    e, y := Next(N236, G_236_116, e, y, 3, 0x42a75d74dd5854e48c5bc6f3120861bfa26cdc4b107213726e674ef60d3);
    e, y := Next(N236, G_236_116, e, y, 2, 0x452787058f602bea144998ad11ac27816a18e6dbb18035d5a8e033003a6);
    e, y := Next(N236, G_236_116, e, y, 1, 0x1eef041bbbe4684ed28066981df940860160a7f2a67079c025a8bcc97ee);
    e, y := Next(N236, G_236_116, e, y, 1, 0x3640de1fdecfb7b133784f9091e75f84e8a6fe8cff6469f06a72a559eac);
    e, y := Next(N236, G_236_116, e, y, 1, 0xaa8753e2e48c553a6ee84837a7afaa12e90be701a6d6ebc59a010d5907c);
  }

  lemma Order116Of236Part6()
    ensures Same(N236, Pow(G_236_116, 0xe87c2a477b815a1793787395b23e),
                 0x9d6ef5f5f52fef9387c54ea455f297eab23cc8947f1566a17c9ec5cccaf)
  {
    hide Pow, Same;
    Order116Of236Part5();
    var e: nat, y := 0xe87c2a477b815a1793787395,
      0xaa8753e2e48c553a6ee84837a7afaa12e90be701a6d6ebc59a010d5907c;
    e, y := Next(N236, G_236_116, e, y, 2, 0x8c36d937b7fb8d95297ae3f389bd5be20a467de384373d8a4fdd91c9628);
    e, y := Next(N236, G_236_116, e, y, 3, 0x231fd69125647c9c3524a011dcefd665c1ec24fd92619a6b2314f466802);
    e, y := Next(N236, G_236_116, e, y, 0, 0x29dbd3ecd3042d5e90b82161bf909eb5bb0722739ab4fb5798e80b6a3a7);
    e, y := Next(N236, G_236_116, e, y, 2, 0x430f5a0aceb9a83e8cecc8696a4a796abd5746ff3b4aad08f17e18a89f2);
    e, y := Next(N236, G_236_116, e, y, 0, 0x4cec2728adecc3dac46ad3cda7a0378037a6d6430311d36321168174082);
    e, y := Next(N236, G_236_116, e, y, 3, 0xa7f2a89537e29ecc3ef90f60dbb855ebdbd8184e6922ec0915f7e3b8486);
    e, y := Next(N236, G_236_116, e, y, 3, 0x1dec702ff514def393a13de3791001b6fec476630ba72aca68d010bb15a);
    e, y := Next(N236, G_236_116, e, y, 2, 0x9d6ef5f5f52fef9387c54ea455f297eab23cc8947f1566a17c9ec5cccaf);
  }

  lemma Order116Of236()
    ensures HasOrder(N236, N116, G_236_116,
                     0xa35a14fb1452ddd0fca6eef50ac9bd9a369cab894104fc366d4fa595e38)
  {
    hide Pow, Same;
    Order116Of236Part6();
    var e: nat, y := 0xe87c2a477b815a1793787395b23e,
      0x9d6ef5f5f52fef9387c54ea455f297eab23cc8947f1566a17c9ec5cccaf;
    e, y := Next(N236, G_236_116, e, y, 0, 0xd5132c9e69001a4c28ac6027327fd2ad76e94ff28a7be4fb3616a5677a);
    e, y := Next(N236, G_236_116, e, y, 1, 1);
    SameMod(N236, (G_236_116 - 1) * 0xa35a14fb1452ddd0fca6eef50ac9bd9a369cab894104fc366d4fa595e38, 1);
  }

  const G_236_57467: int := 0x4fcd8bd2f9b581a3df3eb4b3bcf113de1213cd11a42754ce204b1883331

  lemma Order57467Of236()
    ensures HasOrder(N236, 57467, G_236_57467,
                     0x225e11748e3520a7f09788384ebb0eee56bcb44b6036a185a47eb4b9e42)
  {
    hide Pow, Same;
    Start(N236, G_236_57467);
    var e: nat, y := 0, 1;
    e, y := Next(N236, G_236_57467, e, y, 3, 0x483e92b0fe3c4f266788a109809089bc05055be15b82a4a5c6cf4de893a);
    e, y := Next(N236, G_236_57467, e, y, 2, 0x65d260aa0e5b8fb7affe87bf2a0b03ea20ed1714ea3810d78a8c9e62e99);
    e, y := Next(N236, G_236_57467, e, y, 0, 0x8a2cc7334393b9dbe66ccaada67a7fc7b89c7f914079d9ecad7aba6e6bd);
    e, y := Next(N236, G_236_57467, e, y, 0, 0x454286d94674c594163c6fc95679673682abfb27bb818d304b7da968e0f);
    e, y := Next(N236, G_236_57467, e, y, 1, 0x7ca0ff69a279988e709fe9e5c3c4a2ef8c60f8ac03702335dd84295552c);
    e, y := Next(N236, G_236_57467, e, y, 3, 0x2016094224ef40d99a28254905f6bf5e01dba8529daf3cce8f3d4e5a2b7);
    e, y := Next(N236, G_236_57467, e, y, 2, 0x4bdbe7e975be2410ec7ced0df83ff1b1794700fb751beca2beed5157742);
    e, y := Next(N236, G_236_57467, e, y, 3, 1);
    SameMod(N236, (G_236_57467 - 1) * 0x225e11748e3520a7f09788384ebb0eee56bcb44b6036a185a47eb4b9e42, 1);
  }

  lemma Prime236()
    ensures IsPrime(N236)
  {
    hide Pow, Same, IsPrime, HasOrder;
    Prime116();
    Order116Of236();
    Prime57467();
    Order57467Of236();
    PocklingtonTwo(N236, N116, G_236_116, 0xa35a14fb1452ddd0fca6eef50ac9bd9a369cab894104fc366d4fa595e38,
                   57467, G_236_57467, 0x225e11748e3520a7f09788384ebb0eee56bcb44b6036a185a47eb4b9e42);
  }

  const G_P_236: int := 0xf1ba0c491eeef83c49fc1b744331bb096d4893142c187431f7b03e61a75a49

  lemma Order236OfPPart0()
    ensures Same(P, Pow(G_P_236, 43951),
                 0x5fde9c5122278812c06536482605c2a3a7b23185dbb19d8ef04cae67c0020692)
  {
    hide Pow, Same;
    Start(P, G_P_236);
    var e: nat, y := 0, 1;
    e, y := Next(P, G_P_236, e, y, 2, 0x709073d1ffed033997883f60abf9ed49b8362089b7f71c7d9dea1ea56f01adee);
    e, y := Next(P, G_P_236, e, y, 2, 0xde3eefd0bbc56806ab55ac396d56536597518ca60c8bf895e478d477333e84d);
    e, y := Next(P, G_P_236, e, y, 2, 0x20a53b8acc952df93aea51ce9d19b16922de85fdf57dfc2ddf28d1a90dcd5c07);
    e, y := Next(P, G_P_236, e, y, 3, 0x206fd5b3d4c68b4e2d908036ae1b16e4911d221e0517027258ca8648cae9df61);
    e, y := Next(P, G_P_236, e, y, 2, 0x4046bd38be5d3d4fcebb0e64abf0bc2453d46d9b95a8d83b59ce18f55b686889);
    e, y := Next(P, G_P_236, e, y, 2, 0x622abf3ba84630b1c78623f273cef54982157087116959363dc76bc858dadc06);
    e, y := Next(P, G_P_236, e, y, 3, 0x1b1fd343b4c5dd12d86f1aa9dcd532e025ffed3b0ad1f12f2eda876d7a634642);
    e, y := Next(P, G_P_236, e, y, 3, 0x5fde9c5122278812c06536482605c2a3a7b23185dbb19d8ef04cae67c0020692);
  }

  lemma Order236OfPPart1()
    ensures Same(P, Pow(G_P_236, 0xabaf8c6b),
                 0x5679a457f3f9d312d133adc8fdef7161de05d229f96e741a1616a1d3bbb18c7a)
  {
    hide Pow, Same;
    Order236OfPPart0();
    var e: nat, y := 43951,
      0x5fde9c5122278812c06536482605c2a3a7b23185dbb19d8ef04cae67c0020692;
    e, y := Next(P, G_P_236, e, y, 2, 0x2abc0b874a38e2940465b615bffdb6dc321808eaa693f78c208ffe09f41a1c6);
    e, y := Next(P, G_P_236, e, y, 0, 0x1dadfa118c804147f38342b13a809bd489473f161be3cb125ec35016f0baf036);
    e, y := Next(P, G_P_236, e, y, 3, 0x42b46e1a95fb5f3a97725084bb33d6c4a294b6580b5454ea392fde331c211c50);
    e, y := Next(P, G_P_236, e, y, 0, 0x6ab9446f2fd2cc9b0e3d84e2a3e9326ae3703f22d1f89b53655acb7921b442ae);
    e, y := Next(P, G_P_236, e, y, 1, 0x1cd0e3de30318dbd09003d65dc46fe179f6934eaf40fc4f31234a55cacdafc75);
    e, y := Next(P, G_P_236, e, y, 2, 0x2fb68890fb9d699f5c26bef68430ece1c910a3378f0aa05da3513eab05eb1f0f);
    e, y := Next(P, G_P_236, e, y, 2, 0x3ab413a3dda977ab29e4ee7ce5a249241dffcb20ff9d774f55c77eb17dbf3c8e);
    e, y := Next(P, G_P_236, e, y, 3, 0x5679a457f3f9d312d133adc8fdef7161de05d229f96e741a1616a1d3bbb18c7a);
  }

  lemma Order236OfPPart2()
    ensures Same(P, Pow(G_P_236, 0xabaf8c6b094f),
                 0x471f152bf9b3873b869c9330df042660bcddabf5cfe9571c7ab8e09dd6276132)
  {
    hide Pow, Same;
    Order236OfPPart1();
    var e: nat, y := 0xabaf8c6b,
      0x5679a457f3f9d312d133adc8fdef7161de05d229f96e741a1616a1d3bbb18c7a;
    e, y := Next(P, G_P_236, e, y, 0, 0x1e421e8bc5f8278149d3539d6a06b05e578cce9da8a8dcefed198effaa38a44c);
    e, y := Next(P, G_P_236, e, y, 0, 0x29afa85dcabde5f9fb5b594cdf54c7668ba4121e4542c8e998c7faed07eae4dc);
    e, y := Next(P, G_P_236, e, y, 2, 0x149fada88136c7aae3fd0d56aa59202db1e12ec3a72020399e2dcac5356dd1fd);
    e, y := Next(P, G_P_236, e, y, 1, 0x20f1e54f465a32cf2be5a1530a987ed4057d48ae46bb593aca2aac6d53954ab);
    e, y := Next(P, G_P_236, e, y, 1, 0x25077c77a63c5734190e06c2f38e153ada52c9208983a49ec3e83e39ca650d0d);
    e, y := Next(P, G_P_236, e, y, 0, 0x68afa9bc0909b911996836028aae7434c8b2b107f12709482f280331d893c583);
    e, y := Next(P, G_P_236, e, y, 3, 0x4c12133080ca764bc0c84a9516a937244d2351d7504f074885c3bacc634e88d);
    e, y := Next(P, G_P_236, e, y, 3, 0x471f152bf9b3873b869c9330df042660bcddabf5cfe9571c7ab8e09dd6276132);
  }

  lemma Order236OfPPart3()
    ensures Same(P, Pow(G_P_236, 0xabaf8c6b094fd0f3),
                 0x408bb1af6f2e580b0e1b2810ab3dd9cbf8766a309398165714a58144c3f56e75)
  {
    hide Pow, Same;
    Order236OfPPart2();
    var e: nat, y := 0xabaf8c6b094f,
      0x471f152bf9b3873b869c9330df042660bcddabf5cfe9571c7ab8e09dd6276132;
    e, y := Next(P, G_P_236, e, y, 3, 0x7512e77e51dc76a239d5f7433804ae2f4e0a9567afea3dc4a1eee0ca69ab4c77);
    e, y := Next(P, G_P_236, e, y, 1, 0x56a706447989e1133d5a4b694e77dc0fb5766dae4ca20bad5ac7428ce030ba65);
    e, y := Next(P, G_P_236, e, y, 0, 0x6d5235f572ce77058749b94ef0c65dc3dfddff52b85d31f80ff625db5eeef237);
    e, y := Next(P, G_P_236, e, y, 0, 0x7d417ec6d98a1286b74f85f5140448d4347e8bc4e5cd04fc3df149a0575e3a90);
    e, y := Next(P, G_P_236, e, y, 3, 0x8dfee1e1b27bd0e7028ada4f9ab839d883f209217343c88e64fbd1572f03880);
    e, y := Next(P, G_P_236, e, y, 3, 0x2088a85bfeed3aa50710c8f24742a0bad652ba7e4c2bbb0578cd3ed942694a2b);
    e, y := Next(P, G_P_236, e, y, 0, 0x120173a9d1c23cefe169ae6a9594d893208de899a04b73b6f85f2809f3b4c15c);
    e, y := Next(P, G_P_236, e, y, 3, 0x408bb1af6f2e580b0e1b2810ab3dd9cbf8766a309398165714a58144c3f56e75);
  }

  lemma Order236OfPPart4()
    ensures Same(P, Pow(G_P_236, 0xabaf8c6b094fd0f32c2c),
                 0x3a4ff0bad668aae8ee21301a2ea87405593b3f928b0646baf03caadf60a729f7)
  {
    hide Pow, Same;
    Order236OfPPart3();
    var e: nat, y := 0xabaf8c6b094fd0f3,
      0x408bb1af6f2e580b0e1b2810ab3dd9cbf8766a309398165714a58144c3f56e75;
    e, y := Next(P, G_P_236, e, y, 0, 0x71c3adf5d617a9591bc758a60aeafe94e871d4f39ed0971625289da78ba07fd0);
    e, y := Next(P, G_P_236, e, y, 2, 0x598738696b1a78ef858825e3bb42b77d3c440b0ffb4023d034e430d68a10f92d);
    e, y := Next(P, G_P_236, e, y, 3, 0x6a6071a7dcea1af2065a435440a0f69f10605d6e4fbc49a74fbe68c0520e6df9);
    e, y := Next(P, G_P_236, e, y, 0, 0x1e660ac6a55e6e3111a1534f02b14663794ff79244fb34cedf622299d628ac38);
    e, y := Next(P, G_P_236, e, y, 0, 0x2851bd007acd8d127a96e681a514755649246561cd0e743ae5feacdd379e6ce1);
    e, y := Next(P, G_P_236, e, y, 2, 0x51180164514973e4545bf09b322ea4daa755664baeb901d6eb28dd91b6399a38);
    e, y := Next(P, G_P_236, e, y, 3, 0x4fd6c4a4f2ab92028ad7e8e7c28dbbb894eb8fb08a50e4f99399372c6bcadb5c);
    e, y := Next(P, G_P_236, e, y, 0, 0x3a4ff0bad668aae8ee21301a2ea87405593b3f928b0646baf03caadf60a729f7);
  }

  lemma Order236OfPPart5()
    ensures Same(P, Pow(G_P_236, 0xabaf8c6b094fd0f32c2ccaba),
                 0x25b8863664a2c65e100b5d96599a41b343dabc28440377b2a6243bde8282771)
  {
    hide Pow, Same;
    Order236OfPPart4();
    var e: nat, y := 0xabaf8c6b094fd0f32c2c,
      0x3a4ff0bad668aae8ee21301a2ea87405593b3f928b0646baf03caadf60a729f7;
    e, y := Next(P, G_P_236, e, y, 3, 0x20fde7fc9957dd11a867a2c4b307c7c91963ea072b897998cdb7069db572793d);
    e, y := Next(P, G_P_236, e, y, 0, 0x72b9d444f95f46b8ad9f0e0ef87e4038ad3e36b33dd749609dfc106e8e9a6051);
    e, y := Next(P, G_P_236, e, y, 2, 0x24ab9f45bd4a4757d4777478edff94e928b99ea50d790362033312a35ee0435f);
    e, y := Next(P, G_P_236, e, y, 2, 0x2ff99ed066da187429838f40e8d46dcf272f51dba77afab163c10446a53a8b72);
    e, y := Next(P, G_P_236, e, y, 2, 0x4ce306502f60831bc6d924493f4d22ce514f935849e37cc0e8bca8d7ea4afe18);
    e, y := Next(P, G_P_236, e, y, 3, 0x125807166bf9a6e02e26fbc39953d5185ffefc092a4a412139accbb5d8440f76);
    e, y := Next(P, G_P_236, e, y, 2, 0x4765f2a22892c92360a6fd164e70ba4824e8d91519b7b610465505660e420db1);
    e, y := Next(P, G_P_236, e, y, 2, 0x25b8863664a2c65e100b5d96599a41b343dabc28440377b2a6243bde8282771);
  }

  lemma Order236OfPPart6()
    ensures Same(P, Pow(G_P_236, 0xabaf8c6b094fd0f32c2ccabab864),
                 0x6bcd80e7d3ed2f481a54c95c22f4d5611004ca745b245e4106a3e56e28600971)
  {
    hide Pow, Same;
    Order236OfPPart5();
    var e: nat, y := 0xabaf8c6b094fd0f32c2ccaba,
      0x25b8863664a2c65e100b5d96599a41b343dabc28440377b2a6243bde8282771;
    e, y := Next(P, G_P_236, e, y, 2, 0xd619ccfc6199823806750dbb4fb04a358e1d5555a2e1a545f9b2ffecd7f489b);
    e, y := Next(P, G_P_236, e, y, 3, 0x74c27c48a7b8c413267e3ad84fb422172e3bd9245e06ec100e49b0833a2e5d4b);
    e, y := Next(P, G_P_236, e, y, 2, 0xef4e8a6b5335e718464d99ea63238c1f431cc85f2ce304b9955ecf813853b00);
    e, y := Next(P, G_P_236, e, y, 0, 0x70375f32e278a7366b098a856fcff94eb55ef90f8e8eae6573dcec0d1e3b3ee4);
    e, y := Next(P, G_P_236, e, y, 1, 0x4297ceff3eb507f5737d9b6e10353dba0956eb67d43a6eb91b26598f04b2e93f);
    e, y := Next(P, G_P_236, e, y, 2, 0x4d72af793f012f3144a98a1b96ccd45a7144dcf75fd557d92941d9d9b6f1a811);
    e, y := Next(P, G_P_236, e, y, 1, 0x3fb7fda957cff97a18f25d50d2025558a4af39169f1c0afe615a2c2e8be44016);
    e, y := Next(P, G_P_236, e, y, 0, 0x6bcd80e7d3ed2f481a54c95c22f4d5611004ca745b245e4106a3e56e28600971);
  }

  lemma Order236OfPPart7()
    ensures Same(P, Pow(G_P_236, 0xabaf8c6b094fd0f32c2ccabab864dbec),
                 0x1ff921169ce8eb39e2b2d89c7b840a00c8bdb992423d2b382d585236579ec933)
  {
    hide Pow, Same;
    Order236OfPPart6();
    var e: nat, y := 0xabaf8c6b094fd0f32c2ccabab864,
      0x6bcd80e7d3ed2f481a54c95c22f4d5611004ca745b245e4106a3e56e28600971;
    e, y := Next(P, G_P_236, e, y, 3, 0x7aec489208ba02e91257d345b6ff9cdaeaf37db31c57c05b786554b186a99333);
    e, y := Next(P, G_P_236, e, y, 1, 0xe7aaa5b2c2d55d4d632e9bdf8ac84b1041911e93ae83cae3f93733119c113a4);
    e, y := Next(P, G_P_236, e, y, 2, 0x56ca03633b8811bb29cd8d750c1ed87f225e051ee9bf3d042db569d83294e5b0);
    e, y := Next(P, G_P_236, e, y, 3, 0x5e08c0e904ecf69c6d01bf9e0dd74977e4cb5b552c0cf4548878a1fe608f73cd);
    e, y := Next(P, G_P_236, e, y, 3, 0x3b127da5595ab21092d6ddd0093372987408a48a7bb353dd18f98b2cf1147ec);
    e, y := Next(P, G_P_236, e, y, 2, 0x26e65ef8be9735f822472757ad3ae14fdf112e15d950ae1d1e8f68f4dae0a5cb);
    e, y := Next(P, G_P_236, e, y, 3, 0x3662fbf29d4a5453e74ffa5345b5ccb54c96630512014d4791418e2052a8aa5d);
    e, y := Next(P, G_P_236, e, y, 0, 0x1ff921169ce8eb39e2b2d89c7b840a00c8bdb992423d2b382d585236579ec933);
  }

  lemma Order236OfPPart8()
    ensures Same(P, Pow(G_P_236, 0xabaf8c6b094fd0f32c2ccabab864dbecd991),
                 0x5810a04f1cd81ed8e7cd3241f4285462560e114366e53b1b55eb4d07055dfab2)
  {
    hide Pow, Same;
    Order236OfPPart7();
    var e: nat, y := 0xabaf8c6b094fd0f32c2ccabab864dbec,
      0x1ff921169ce8eb39e2b2d89c7b840a00c8bdb992423d2b382d585236579ec933;
    e, y := Next(P, G_P_236, e, y, 3, 0x3f1cb0cfb5c7bfb88b009016bdaf1853284d2a9d440466646002d303b4c007a4);
    e, y := Next(P, G_P_236, e, y, 1, 0x6540220c2ff6f07727e06770a7f9ce2969acf5697655c8743cdb340367468cad);
    e, y := Next(P, G_P_236, e, y, 2, 0x5b03ad4188eb393a96c354149435d01940a62f450414284d3b6b75cc817b86e2);
    e, y := Next(P, G_P_236, e, y, 1, 0x2c23dd39e9d257c7625aca98364116e5e31a38258a6ed1fb367d109a0f286cf);
    e, y := Next(P, G_P_236, e, y, 2, 0x49e400bb6eecb5bb35a63d70a3b14d383697a2a1066295456ac571acb5fe1673);
    e, y := Next(P, G_P_236, e, y, 1, 0x5cb23a07f0029392f6e377875706d02f20992fdf2a2241e0b4fdb4585212bce7);
    e, y := Next(P, G_P_236, e, y, 0, 0x3307c8530ac39ebbf5db17b92442821a11572fe1d1c4025906708a5662b4ad60);
    e, y := Next(P, G_P_236, e, y, 1, 0x5810a04f1cd81ed8e7cd3241f4285462560e114366e53b1b55eb4d07055dfab2);
  }

  lemma Order236OfPPart9()
    ensures Same(P, Pow(G_P_236, 0xabaf8c6b094fd0f32c2ccabab864dbecd9914467),
                 0x565e91c9f3c25b6052c1ee26a55b161299d9d98d5f462027ee9a85a3365cff)
  {
    hide Pow, Same;
    Order236OfPPart8();
    var e: nat, y := 0xabaf8c6b094fd0f32c2ccabab864dbecd991,
      0x5810a04f1cd81ed8e7cd3241f4285462560e114366e53b1b55eb4d07055dfab2;
    e, y := Next(P, G_P_236, e, y, 1, 0xb972427e4c493c9f1c0b75916300016d8512f160839cce8e768552b972af872);
    e, y := Next(P, G_P_236, e, y, 0, 0x6aaa7687155754d752cd79d9700db5927e1eb54bd705463382dd210abb661ab5);
    e, y := Next(P, G_P_236, e, y, 1, 0x6049bb9862b7dad5420b469e9c5f643a3d67fb1933538f3a9ac6c2bb90c260b6);
    e, y := Next(P, G_P_236, e, y, 0, 0x734cd3108ddf15e0e5e1c19aa5df9297e03066eb0567d3349f47da79e01335f7);
    e, y := Next(P, G_P_236, e, y, 1, 0x518ab6d958cc47e02e52a745b2551ad8791100f66ee81662966ca9e407bef803);
    e, y := Next(P, G_P_236, e, y, 2, 0x71be1da760f4c39d9e1d7af6a79959da6f603a79ace48605ee447483ad957fc);
    e, y := Next(P, G_P_236, e, y, 1, 0x7f208b30bee5ca828ae7467d7617c8c9518cc2c2f3b3e90b06bc75573935f253);
    e, y := Next(P, G_P_236, e, y, 3, 0x565e91c9f3c25b6052c1ee26a55b161299d9d98d5f462027ee9a85a3365cff);
  }

  lemma Order236OfPPart10()
    ensures Same(P, Pow(G_P_236, 0xabaf8c6b094fd0f32c2ccabab864dbecd99144679c1a),
                 0x28367540d567e8cc03c54018a6bcfcc74a761686f5381a0c1ab23ac029d6d760)
  {
    hide Pow, Same;
    Order236OfPPart9();
    var e: nat, y := 0xabaf8c6b094fd0f32c2ccabab864dbecd9914467,
      0x565e91c9f3c25b6052c1ee26a55b161299d9d98d5f462027ee9a85a3365cff;
    e, y := Next(P, G_P_236, e, y, 2, 0x1d4ae2fa1e3969eff503165d9c0e164de64116fe5a5c53d2febff879f91d02e8);
    e, y := Next(P, G_P_236, e, y, 1, 0x5325fda4237781932fab467f84baa0ccd6c742e2ebae5830b29e24393b6bbd41);
    e, y := Next(P, G_P_236, e, y, 3, 0x666085ad24b2f2dda30823d0e147b54d255a48d44dca7879c43a4beb6437f04);
    e, y := Next(P, G_P_236, e, y, 0, 0x2a5ea2c514438720624e33dedaa9fbe605e55ace3a1e9aac58494d9b1fd482cc);
    e, y := Next(P, G_P_236, e, y, 0, 0x33932da903b6f4f883d8ac0281a1509642b69d1f9e88c5607420c7e62801d08a);
    e, y := Next(P, G_P_236, e, y, 1, 0x6c0eb20c8ed317abdafd170465c91f748f8e5f100184466e411b495fabc9aa39);
    e, y := Next(P, G_P_236, e, y, 2, 0x47a985ab85613ee9453e2eb9aeffdcb65e219e40f89e9043ec993047c2b7cf7e);
    e, y := Next(P, G_P_236, e, y, 2, 0x28367540d567e8cc03c54018a6bcfcc74a761686f5381a0c1ab23ac029d6d760);
  }

  lemma Order236OfPPart11()
    ensures Same(P, Pow(G_P_236, 0xabaf8c6b094fd0f32c2ccabab864dbecd99144679c1adf80),
                 0x2a25440ed8fe4dc8b6c08632942cb9aa89bfed75b475ff0e6b3693ec46ff4d31)
  {
    hide Pow, Same;
    Order236OfPPart10();
    var e: nat, y := 0xabaf8c6b094fd0f32c2ccabab864dbecd99144679c1a,
      0x28367540d567e8cc03c54018a6bcfcc74a761686f5381a0c1ab23ac029d6d760;
    e, y := Next(P, G_P_236, e, y, 3, 0x3fe4332b65078599a85c651774a1a1fa37ebedfb1c9a00496a5e9b1c0c446c6f);
    e, y := Next(P, G_P_236, e, y, 1, 0x18100f62e51ce4c774066aa84638363a32143223b97da968c57cf8def22821b7);
    e, y := Next(P, G_P_236, e, y, 3, 0x4e6d7260b1537e825dc893994cc0a0ffd7854bc3ee6687b8827093487ffb3727);
    e, y := Next(P, G_P_236, e, y, 3, 0x77c29d3540fd172dbf616ad4b0fb57df65ca9d768f847a9ce2e179347a7f7470);
    e, y := Next(P, G_P_236, e, y, 2, 0x13ab3e86fc4cd5783ec28221bf1d290e75df6129cfb4a0cfcf6e85a75779de75);
    e, y := Next(P, G_P_236, e, y, 0, 0x21134695adb30e4f572ae6b7a46ca2ea787d2b502887c9dd6618a850549d5da);
    e, y := Next(P, G_P_236, e, y, 0, 0x139ea97ea9aaa3c6d9047451ae77412365bb25357b2142016d72a7fdebc86e71);
    e, y := Next(P, G_P_236, e, y, 0, 0x2a25440ed8fe4dc8b6c08632942cb9aa89bfed75b475ff0e6b3693ec46ff4d31);
  }

  lemma Order236OfPPart12()
    ensures Same(P, Pow(G_P_236, 0xabaf8c6b094fd0f32c2ccabab864dbecd99144679c1adf804898),
                 0x43858a89fa780fc32e3e06457787b9c490888baef23175bbca0cabcbed18052e)
  {
    hide Pow, Same;
    Order236OfPPart11();
    var e: nat, y := 0xabaf8c6b094fd0f32c2ccabab864dbecd99144679c1adf80,
      0x2a25440ed8fe4dc8b6c08632942cb9aa89bfed75b475ff0e6b3693ec46ff4d31;
    e, y := Next(P, G_P_236, e, y, 1, 0x5e0c9d13f09097a57f414fa5a04d4f8a4dec605213e9c732df7c1cd2d4d0b1fb);
    e, y := Next(P, G_P_236, e, y, 0, 0x37178aea0bb4d85817ee3f7274bc9efdff85527dcdcb95c0785386941baec09d);
    e, y := Next(P, G_P_236, e, y, 2, 0x22e7a766b1b29885e4a84b8b8b3e80e04db4ce86c429be706d7d58f4b1277bd3);
    e, y := Next(P, G_P_236, e, y, 0, 0x1ef090a7514b1305121dffd1d17232c7221af7b86d1dc1300d4a7d7c5857e93f);
    e, y := Next(P, G_P_236, e, y, 2, 0x50b82f4da7c8faf8b36a30e336d8a44fa7a59aa3872977f5568ec48c6101ba2d);
    e, y := Next(P, G_P_236, e, y, 1, 0x726464dc514497f714acb47ad4872984d9b112756d5d2b1db920dbe02fabd52b);
    e, y := Next(P, G_P_236, e, y, 2, 0xd826b69a278e8d0c716157124d06fea88ad392e27133ed4ba3a93c9ea0ad0cd);
    e, y := Next(P, G_P_236, e, y, 0, 0x43858a89fa780fc32e3e06457787b9c490888baef23175bbca0cabcbed18052e);
  }

  lemma Order236OfPPart13()
    ensures Same(P, Pow(G_P_236, 0xabaf8c6b094fd0f32c2ccabab864dbecd99144679c1adf804898fb20),
                 0x7665bdb55a01f0d012e89ecceb440abd6ee8d914c3f3296c8c9b4d3d242f444c)
  {
    hide Pow, Same;
    Order236OfPPart12();
    var e: nat, y := 0xabaf8c6b094fd0f32c2ccabab864dbecd99144679c1adf804898,
      0x43858a89fa780fc32e3e06457787b9c490888baef23175bbca0cabcbed18052e;
    e, y := Next(P, G_P_236, e, y, 3, 0x3ae5fe9810f4d4e6b6474c1b45f20f34fc2fd326ec54d08ec0cd145a90ac0212);
    e, y := Next(P, G_P_236, e, y, 3, 0x1e2bef643f7a160377e7dd036a4d6c0642b4dd24b17dbea3ed3b352f889d2c95);
    e, y := Next(P, G_P_236, e, y, 2, 0x630715a1fa4e44247feba27b363642e1d5a5e430bfa4dedda53c25323dee15df);
    e, y := Next(P, G_P_236, e, y, 3, 0x779804032778e125b8eb79b772d9d7b3e73093f720b7a759309e5e4c8d850ed8);
    e, y := Next(P, G_P_236, e, y, 0, 0x29d46a557fb5b049ba95c15d2fa1258f1559a69d186ce1e0240b2fb379b455b5);
    e, y := Next(P, G_P_236, e, y, 2, 0x3882b53e39915aaf95431c9b8b22fc6fd7560cf728094b67374aab3af58ff0db);
    e, y := Next(P, G_P_236, e, y, 0, 0x4cdd9483e1c4176679fe1de3f96ec39c89a42fade04cd1fe44968cf088c95333);
    e, y := Next(P, G_P_236, e, y, 0, 0x7665bdb55a01f0d012e89ecceb440abd6ee8d914c3f3296c8c9b4d3d242f444c);
  }

  lemma Order236OfP()
    ensures HasOrder(P, N236, G_P_236,
                     0x7acaff384090e983b641a51e1df0807078e467d06ab8164555f0f7fd51653bdc)
  {
    hide Pow, Same;
    Order236OfPPart13();
    var e: nat, y := 0xabaf8c6b094fd0f32c2ccabab864dbecd99144679c1adf804898fb20,
      0x7665bdb55a01f0d012e89ecceb440abd6ee8d914c3f3296c8c9b4d3d242f444c;
    e, y := Next(P, G_P_236, e, y, 1, 0x2aeee574e88f830756938e64f44f4c344bce1b27cc1b92306eb01732303e843b);
    e, y := Next(P, G_P_236, e, y, 0, 0x47006af951dcc9564c5306caeeb65ad2387deb17740fee8e417a965e14051c10);
    e, y := Next(P, G_P_236, e, y, 0, 0x6a43f73dfb5f30b83778821eb1927938e545d7908fedd6463dec632c87886fa7);
    e, y := Next(P, G_P_236, e, y, 2, 0x17785ba81c8ac511a579ed67b34c586a098799305eda0603773275cca20eb457);
    e, y := Next(P, G_P_236, e, y, 2, 0x12ea2b3618cf96277ddcd4ecf82b3a6827c49685349b3bb5a95d3af7f81a569);
    e, y := Next(P, G_P_236, e, y, 3, 1);
    SameMod(P, (G_P_236 - 1) * 0x7acaff384090e983b641a51e1df0807078e467d06ab8164555f0f7fd51653bdc, 1);
  }

  lemma PrimeP()
    ensures IsPrime(P)
  {
    hide Pow, Same, IsPrime, HasOrder;
    Prime236();
    Order236OfP();
    Pocklington(P, N236, G_P_236, 0x7acaff384090e983b641a51e1df0807078e467d06ab8164555f0f7fd51653bdc);
  }
}
