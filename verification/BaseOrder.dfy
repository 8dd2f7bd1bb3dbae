/** The order of the base point is l: l B = (0, 1) is computed from the base 4 digits of l, and l is prime. */
module BaseOrder {
  import opened PrimeField
  import opened PrimeModulus
  import opened CurveGroup
  import opened PointForms
  import opened ScalarLimbs
  import opened BasePoint
  import OrderCertificate
  import Primes

  /** X, Y and Z of ge_p2 after doubling a point with Z = 1. */
  lemma Doubled(p: Point, x: int, y: int, z: int)
    requires OnCurve(p) && x == (2 * (p.x * p.y)) * (2 - (p.y * p.y - p.x * p.x))
    requires y == (p.y * p.y + p.x * p.x) * (p.y * p.y - p.x * p.x)
    requires z == (p.y * p.y - p.x * p.x) * (2 - (p.y * p.y - p.x * p.x))
    ensures Projective(x, y, z, Add(p, p))
  {
    var xx, yy, ss := p.x * p.x, p.y * p.y, (p.x + p.y) * (p.x + p.y);
    CongMod(1, 0);
    CongSelf(p.x);
    CongSelf(p.y);
    CongSelf(xx);
    CongSelf(yy);
    CongSelf(2);
    CongSelf(ss);
    DoubleForm(p.x, p.y, 1, p, xx, yy, 2, ss);
    assert ss - (yy + xx) == 2 * (p.x * p.y);
    CongSelf(x);
    CongSelf(y);
    CongSelf(z);
    CompletedToProjective(ss - (yy + xx), yy + xx, yy - xx, 2 - (yy - xx), Add(p, p), x, y, z);
  }

  lemma Coordinate(u: int, f: int, x: int, a: int)
    requires Cong(u * f, x) && Cong(x, a * f) && !Cong(f, 0)
    ensures Cong(u, a)
  {
    CongTrans(f * u, x, f * a);
    Cancel(f, u, a);
  }

  /** Two doublings: (u, v) is the double of x/z, y/z. */
  lemma Redoubled(x: int, y: int, z: int, q: Point, u: int, v: int)
    requires OnCurve(q) && Projective(x, y, z, q) && 0 <= u < P && 0 <= v < P
    requires Cong(u * (y * y - x * x), 2 * (x * y)) && Cong(v * (2 * (z * z) - (y * y - x * x)), y * y + x * x)
    ensures Add(q, q) == Point(u, v)
  {
    hide OnCurve, Add;
    var xx, yy, zz2, ss := x * x, y * y, 2 * (z * z), (x + y) * (x + y);
    CongSelf(xx);
    CongSelf(yy);
    CongSelf(zz2);
    CongSelf(ss);
    DoubleForm(x, y, z, q, xx, yy, zz2, ss);
    assert ss - (yy + xx) == 2 * (x * y);
    Coordinate(u, yy - xx, 2 * (x * y), Add(q, q).x);
    Coordinate(v, zz2 - (yy - xx), yy + xx, Add(q, q).y);
    AddCloses(q, q);
    IsResidue(Add(q, q), u, v);
  }

  predicate FirstDouble(u: int, x: int, y: int) {
    (u * (y * y - x * x) - 2 * (x * y)) % P == 0
  }

  predicate SecondDouble(v: int, x: int, y: int, z: int) {
    (v * (2 * (z * z) - (y * y - x * x)) - (y * y + x * x)) % P == 0
  }

  lemma DoublesChecked(x: int, y: int, z: int, u: int, v: int)
    ensures FirstDouble(u, x, y) <==> Cong(u * (y * y - x * x), 2 * (x * y))
    ensures SecondDouble(v, x, y, z) <==> Cong(v * (2 * (z * z) - (y * y - x * x)), y * y + x * x)
  {
    CongIs(u * (y * y - x * x), 2 * (x * y));
    CongIs(v * (2 * (z * z) - (y * y - x * x)), y * y + x * x);
  }

  /** q is four times p: the checks are on the coordinates that doubling p once makes. */
  predicate QuadCheck(p: Point, q: Point) {
    && 0 <= q.x < P && 0 <= q.y < P
    && FirstDouble(q.x, (2 * (p.x * p.y)) * (2 - (p.y * p.y - p.x * p.x)),
                   (p.y * p.y + p.x * p.x) * (p.y * p.y - p.x * p.x))
    && SecondDouble(q.y, (2 * (p.x * p.y)) * (2 - (p.y * p.y - p.x * p.x)),
                    (p.y * p.y + p.x * p.x) * (p.y * p.y - p.x * p.x),
                    (p.y * p.y - p.x * p.x) * (2 - (p.y * p.y - p.x * p.x)))
  }

  lemma QuadOf(p: Point, q: Point)
    ensures OnCurve(p) && QuadCheck(p, q) ==> Add(Add(p, p), Add(p, p)) == q
  {
    hide OnCurve, Add, FirstDouble, SecondDouble;
    if OnCurve(p) && QuadCheck(p, q) {
      var s, t := p.y * p.y + p.x * p.x, p.y * p.y - p.x * p.x;
      var x, y, z := (2 * (p.x * p.y)) * (2 - t), s * t, t * (2 - t);
      Doubled(p, x, y, z);
      AddCloses(p, p);
      DoublesChecked(x, y, z, q.x, q.y);
      Redoubled(x, y, z, Add(p, p), q.x, q.y);
    }
  }

  // -------------------------------------------------------------------------------------------
  // The chain
  // -------------------------------------------------------------------------------------------

  /** q = 4 p, if p is a multiple of B. */
  ghost predicate IsQuad(p: Point, q: Point) {
    forall n :: At(n, p) ==> At(4 * n, q)
  }

  lemma QuadsChecked()
    ensures forall p, q :: QuadCheck(p, q) ==> IsQuad(p, q)
  {
    hide QuadCheck, OnCurve, Mul, Add;
    forall p, q | QuadCheck(p, q)
      ensures IsQuad(p, q)
    {
      forall n | At(n, p)
        ensures At(4 * n, q)
      {
        QuadOf(p, q);
        MultiplesSum(n, p, n, p);
        MultiplesSum(2 * n, Add(p, p), 2 * n, Add(p, p));
      }
    }
  }

  /** A check that is made once, where the constant is declared. */
  type Checked = b: bool | b witness true

  // The multiples of B, and how each comes from the one before.

  const Q1: Point := Point(0x203da8db56cff1468325d4b87a3520f91a739ec193ce1547493aa657c4c9f870,
    0x47d0e827cb1595e1470eb88580d5716c4cf22832ea2f0ff0df38ab61ca32112f)
  ghost const C1: Checked := QuadCheck(B, Q1)
  const Q2: Point := Point(0x23a4860627e53aeeb8e22b1508249c9109578d33e7bf237459b2596d6c28f9f8,
    0x709696f2827fc3729f980f2e3aad6e78b06a11ff8e079c27d87aab37c16727eb)
  ghost const C2: Checked := QuadCheck(Q1, Q2)
  const Q3: Point := Point(0x05fa64200bf829139cf290f9871d79a8b8e846fd6ad9d678f1517a0fb03ca40b,
    0x3d199eeaf926002872f486796fa8aa4c99f1125e6e0d196afbd695af17da0926)
  ghost const C3: Checked := QuadCheck(Q2, Q3)
  const Q4: Point := Point(0x5e7e07ed4e1decbfe6e9cbc126905449d4b578fbb561576d20b8bcdd0cc2a556,
    0x0f55755c51f102796bf5ebaa81d3260e7d1b3d9ac127d9a80e142031566cf6c7)
  ghost const C4: Checked := QuadCheck(Q3, Q4)
  const Q5: Point := Point(0x6b113a52f9f3fd0590ac7cb6c8cbb37abcf147c44b2ae11d9151c7d55b4a2b68,
    0x1aeb017159697e792eb8da1805519c06296595f4f57996c590954359f327c13d)
  ghost const C5: Checked := QuadCheck(Q4, Q5)
  const Q6: Point := Point(0x7d13c0248b891b47eb524f2692008e2f97b199bac426cb5902b9003a29ded6ea,
    0x59a976ab2c01a81a91f1a56c75ccc77a9e1e9e878e9fe9c3952080a6805b20d5)
  ghost const C6: Checked := QuadCheck(Q5, Q6)
  const Q7: Point := Point(0x07a8bc68bf5f3ed3bed79c11bf2d6b20cb84442dfe4ae185b0c2dabc38e74b8a,
    0x7249d7c47afd427018b32d20a2a81307bddc3e039574c80329aa786a22288901)
  ghost const C7: Checked := QuadCheck(Q6, Q7)
  const Q8: Point := Point(0x5de7faa2ee4e70132f541f79ca07cd54a39fe1347a6844d19e9d678a8411a565,
    0x2c9f23641e1c2e0aab8ea9926b432d92c0e8bc08901d6ff6df85e4cef854ec36)
  ghost const C8: Checked := QuadCheck(Q7, Q8)
  const Q9: Point := Point(0x6a6fbd51efa6a855e82cb0142325ba473fd7554aba208a400737475464f29434,
    0x16f5f8529f55fc2b7cf811161d7870ade1d1617e52c3c4f579ea06b27616d671)
  ghost const C9: Checked := QuadCheck(Q8, Q9)
  const Q10: Point := Point(0x06b349eebfed4dad4a805b63a6ed2231a565cda752d9477ff427dd9a8c9ab5ed,
    0x07a09289ff3e1f9aab68aa374c48df65f550c2323607b97744dee990608b64f8)
  ghost const C10: Checked := QuadCheck(Q9, Q10)
  const Q11: Point := Point(0x3bad86defe0d244dcc4b246c137dcc68bf6b733d1fff688f33431f2a339f8f3c,
    0x2de3cdf2fa86ba8c2b899f9fc04b8d5384145c3f68ea9b6ee05373dc01815179)
  ghost const C11: Checked := QuadCheck(Q10, Q11)
  const Q12: Point := Point(0x0af367956af630266b1cc760154256ed79da960dddca9d72a1e8cf27d8d43a77,
    0x21108d900134d3b3708dd28ace96b0b23dda9100e4b6a62a8131bd2f2ba408c5)
  ghost const C12: Checked := QuadCheck(Q11, Q12)
  const Q13: Point := Point(0x67dbc33418bbcd3878489398639484b6d6fa42f875b8c5af23bc92c69c5bdb6b,
    0x38436fdf8589a33059fc92e7ca7aa2250cc9ea48391b1e517c6fb056093af396)
  ghost const C13: Checked := QuadCheck(Q12, Q13)
  const Q14: Point := Point(0x1e45a60140a3b2dee9b8dc6ff307154a1b410bcd38e0e38fb10b2f6da1afbe2b,
    0x0e730da473dffd60d2f3241a85e68acb47d26e5043ad047d893f072c8dda0a76)
  ghost const C14: Checked := QuadCheck(Q13, Q14)
  const Q15: Point := Point(0x48f451397792915909604c632c838021641749a67fb8e91301427defd951f791,
    0x315385d3bd5a22b69068de89e52a3126525be7da886d693e99ff2f088322d560)
  ghost const C15: Checked := QuadCheck(Q14, Q15)
  const Q16: Point := Point(0x4d1e116d136158c5ddabd4276832800f2c081c1072de6f2d931797a46abc0cbb,
    0x6d415be49d4e35b65cc51354b5008f8c43e84b7b5e8a4b84f44e1efb10c9b91a)
  ghost const C16: Checked := QuadCheck(Q15, Q16)
  const Q17: Point := Point(0x33bfa90cc1b9df13e106ffcf6ca898d06b22d51df337243bf85b3f232869fcdf,
    0x53b120db6327cae59fa5fff109017d2df4acef01d2f10981439d824fb2da81d9)
  ghost const C17: Checked := QuadCheck(Q16, Q17)
  const Q18: Point := Point(0x2b6b892ae94b454b2c2d92bb947fc4d506d173d281779c2c153c001ded42d3d0,
    0x7f1cf64e0e180fc4d6e12c1b5c5285f376e979616a52c94a0dea4d48c5880cd2)
  ghost const C18: Checked := QuadCheck(Q17, Q18)
  const Q19: Point := Point(0x01371cf67fe47f8ef91246ae0485874d601e31984d854224569ac29e56a6ee87,
    0x71cad7d8350661ce798e332a98ee5b62f8431fd9ac5a4a48856ce9c4c5b64c73)
  ghost const C19: Checked := QuadCheck(Q18, Q19)
  const Q20: Point := Point(0x0f6c3a96e0032a9394337a02ffb2c83ba70efb8f566feab530fc90fa3b4710e5,
    0x3d4e97e286378675038a4b58e84224ee515e1d6697ac79389f78479be167635a)
  ghost const C20: Checked := QuadCheck(Q19, Q20)
  const Q21: Point := Point(0x184b48cb455000542259174da9a6eb83a928b2835182278abb6ec091e388a820,
    0x3ee0e07a03dc33a9dd60c2682380ef736679a5e383faf453fe324dba26e77c33)
  ghost const C21: Checked := QuadCheck(Q20, Q21)
  const Q22: Point := Point(0x52ee53b981dfbc41ddaa5ddc2754c4175f4811aa45f8e2b19a425657c238a83e,
    0x7eb0a1be3400dec87b388cad51613957643cdf0595b891cc6f925fb36da7f1c3)
  ghost const C22: Checked := QuadCheck(Q21, Q22)
  const Q23: Point := Point(0x2d8294fd94996032b73b4f09a0ff645ce8db39db5463f0fc57156a1d390a3b68,
    0x3a8a6faa67c6dd905a4fdeb95ac127c9fde3ac017c847ceadb2c55f1445af624)
  ghost const C23: Checked := QuadCheck(Q22, Q23)
  const Q24: Point := Point(0x52a837bc7a7bc9459bcc2ecf80f74d9ed99def0342e18cfbe8e799fbc504fd52,
    0x50d6460185d8924e5485f23f36a98c86053514d163547adab6fe91478a411196)
  ghost const C24: Checked := QuadCheck(Q23, Q24)
  const Q25: Point := Point(0x0ebc38c54fd6aa12dcc60ca5c72ed865b7c35a6bfcf98778c235307d306de6e4,
    0x04b3a1d9f2ef40fdb3e31ddd56a08526dbda15a4f58d78162c7bf23886763ce2)
  ghost const C25: Checked := QuadCheck(Q24, Q25)
  const Q26: Point := Point(0x006b2bd5d00fab38ceca21a27d6aaec82626b14b555d859527718f8ca404eba4,
    0x727340c27a15f6ab3d80547f0827c56ab1ba33bc30d1ef3909ea9a3af10c67e5)
  ghost const C26: Checked := QuadCheck(Q25, Q26)
  const Q27: Point := Point(0x08fe8df51b345989553484e20f600c2e46f4ed256f3c8dcc1615b872f0c2b925,
    0x2738e06810f4cec5d894c91432edeab5ba632e54d06f494b751bba44bc93abf8)
  ghost const C27: Checked := QuadCheck(Q26, Q27)
  const Q28: Point := Point(0x71dd75fe35761c01a48597ec730bc33237902fd4ad8612cbed1031eebdf40de4,
    0x39674a4532078e34378667beae5cb55f814ead9bbaf7e01b3b69533e9f88a411)
  ghost const C28: Checked := QuadCheck(Q27, Q28)
  const Q29: Point := Point(0x42545a6a59885c28266ae07652d24503c2fb5830c85817f6963981168cbec8f9,
    0x706406cdbd1ce0bdbd9ea269bab2e060b129d6da0f1e6983fb9b15672c2eb507)
  ghost const C29: Checked := QuadCheck(Q28, Q29)
  const Q30: Point := Point(0x57426aefc21be9ccf162e23d25ac3002ba8534351e65613f870f690f2fd46cf5,
    0x6b45b002fb4e8a6f59a6ffb006ed71f75434217333b266325204c7d1ac2e1f34)
  ghost const C30: Checked := QuadCheck(Q29, Q30)
  const Q31: Point := Point(0x592c8b8843ca1f7d9ee692d5e29bc1612b0a98bea402c5c2e1e8253b65feea37,
    0x42a352d8dc52fef9017cbe617cdbee3aaefed1935aa62f8679af6f2a1d00b5e0)
  ghost const C31: Checked := QuadCheck(Q30, Q31)
  const Q32: Point := Point(0x6222bd88bf2df9d5d44b60cfb4a08a960078db7ed51a35eb3e0b6b8ff4eda202,
    0x0325bb42ea4ed025dd6bdaed261b7c4f5410b608ba902b068f1efa5782e45313)
  ghost const C32: Checked := QuadCheck(Q31, Q32)
  const Q33: Point := Point(0x6d5066cf7137b4a5980aa453b672c84797fc6856f0ef5cf0c4be33fbbd39d169,
    0x54bb8cd82a0a87c883abe35abeb81857f95200b4222ea95b5cb347115219a417)
  ghost const C33: Checked := QuadCheck(Q32, Q33)
  const Q34: Point := Point(0x71ac99647b61b9eca6f0c23432a518f738aee708d5932d4ef0f172240250a226,
    0x3a96c2c028ebe5f48913be30147e41bc5e1cab9595d5404138a9aa1b5574cf25)
  ghost const C34: Checked := QuadCheck(Q33, Q34)
  const Q35: Point := Point(0x1c1b0d95db6a057eb34f28beeda9f6bbb5315285de2804d15c3b186bdb3f5c28,
    0x57bd5de4e0056cbb4d98abef9d1e0ed6cab1628ac08e36073e31d00a9ac3c5d5)
  ghost const C35: Checked := QuadCheck(Q34, Q35)
  const Q36: Point := Point(0x1f6a1fd8cc0e05b2742ba0fc0369b5247670543637dd033e64dbce90b2f23e9f,
    0x779964401ee869a9b31c0ef874a86440ba85d25c2ce932bd31a0865869605e19)
  ghost const C36: Checked := QuadCheck(Q35, Q36)
  const Q37: Point := Point(0x1f90c7ef4610dd083b3d64bac47574d9da326b536b9a6eb0f6c3134a847a0564,
    0x63344ccbe4169ab97a13c3ccb097c0f4fdffbcf6284412303c79a1c8ce3a2f7b)
  ghost const C37: Checked := QuadCheck(Q36, Q37)
  const Q38: Point := Point(0x22e2c039067920c42980dcb3a905fc91601c2b34e819ce1532ada4a5fc39d5cc,
    0x631cf9945a09bf26d7e595b3f8e3390696870512820df63c5418577089e1a8bb)
  ghost const C38: Checked := QuadCheck(Q37, Q38)
  const Q39: Point := Point(0x36b566a2c0f8e36e760992eb83d509238731939dd9dd0d19513f52e1e9e4f9ea,
    0x1bde4ad0433ee4e19e734c558978dd945ed244e38414387a43e70232ed39bb3a)
  ghost const C39: Checked := QuadCheck(Q38, Q39)
  const Q40: Point := Point(0x608de273a9f6a534219d7aaede3cf65a81e4dc03d7a2765eced1d2b7be4610f4,
    0x3b31d0113f98d81ab1312fb2837aa9c8dcc7960f84eb371358c6d841f67144fa)
  ghost const C40: Checked := QuadCheck(Q39, Q40)
  const Q41: Point := Point(0x0b2fcb60a19e6a0a29bcc1e5224ee0acfd648e6ee2143f90a5f5aa1c6d51c96f,
    0x6301b568e9c613866d76b4c693de25e83435344795fb78c3c5e944a1f33239dc)
  ghost const C41: Checked := QuadCheck(Q40, Q41)
  const Q42: Point := Point(0x3f748617ca63ab3e44c6e34f63e7328ea56a2a146da34368a57dca181254fe02,
    0x0fed89e6420fc47b3938a2891ba9acee4cbb2899ee4e9ca15a13dc527dc1641e)
  ghost const C42: Checked := QuadCheck(Q41, Q42)
  const Q43: Point := Point(0x2583374456f20c85e78e820263e1507524897a5232050bd0ebfc357d04b900bd,
    0x62d1c4fffd5ac72c7e7dd52c2bc9ea4077ebb7032a39291e0212da60cbcea18f)
  ghost const C43: Checked := QuadCheck(Q42, Q43)
  const Q44: Point := Point(0x69d98b5ecc35d56c97c0bf312955d199befe116b417d70f5f57e2dfd0af81ce5,
    0x3e26d487fbfe36ab44e0ca3b248fe94bce92a69b8154d50e2d5481f8259f4e8e)
  ghost const C44: Checked := QuadCheck(Q43, Q44)
  const Q45: Point := Point(0x4e1c036204e123f311e8da4e3fa212fcf0acafbded425b71a66b0dccb2500e7e,
    0x6a5908d961f00a62a2ac904fd824f6932f0e735f257a7d0d273d61736f1bb1c8)
  ghost const C45: Checked := QuadCheck(Q44, Q45)
  const Q46: Point := Point(0x1e34443347f9e627b3531157faab6eaca1bc3114df4a1423cc12bf8417b5d622,
    0x295955a5ed061eca7f87b9485666ba9489ec20a9c484224dc920350bb4a6fc79)
  ghost const C46: Checked := QuadCheck(Q45, Q46)
  const Q47: Point := Point(0x7c686b90cf6ff6a3a59cc7d8a5e00a2c9b2204decf83f96bb56b53ef630df083,
    0x000f1deab1d3a4a3d2528d9103d118fafda873ccf0a518c45821d51a7fd71533)
  ghost const C47: Checked := QuadCheck(Q46, Q47)
  const Q48: Point := Point(0x51f4ff8c599b1c96da82941520a9f5abf4a31eb8b84fc95056145ceb3b5775d0,
    0x35ac9588d46e41f3f6f99aee3852eeb4b12e807807d4bd1b7f8406b0d7863ac1)
  ghost const C48: Checked := QuadCheck(Q47, Q48)
  const Q49: Point := Point(0x3342c4717d55221def46b89fdd237cf4e9528170f9b524bc6e730cc4663403da,
    0x50676cdf00c935368d54ccf1fa7dd2671cd7ea46686e61fca49dc6a85b6937c5)
  ghost const C49: Checked := QuadCheck(Q48, Q49)
  const Q50: Point := Point(0x3faa2a093a19a02424f65a10955101f4dc015c43b2dfce8e001507abd741b845,
    0x7a1de10dacfda389ca663b15574bdc8ae8c5b6e7cee647e77b11ddbfc6eb8edc)
  ghost const C50: Checked := QuadCheck(Q49, Q50)
  const Q51: Point := Point(0x6070951e96e618be7d750fa819593ecbfe9c26972471ebed72c093714b7e6e90,
    0x7bb8b8086b2c8f273841de642871dc22c7adb51944d64304c0fe5f4c1d3e6689)
  ghost const C51: Checked := QuadCheck(Q50, Q51)
  const Q52: Point := Point(0x1924416956ea2c1269062588569b18178011ea7cba1a3266284f48aa01d5a90f,
    0x0c8e28127b7dcdd206fb6fee96eb88cfc7db7319826ac8cdb8b1fb8adaf021de)
  ghost const C52: Checked := QuadCheck(Q51, Q52)
  const Q53: Point := Point(0x34e2ddf5115701105d5d590f6617ccd7716c01b247948470c1514f12016bf75a,
    0x1bdaea88b78eb71777558f7452cd868e6d7fc33a0f85c3d2038bac585c1fd926)
  ghost const C53: Checked := QuadCheck(Q52, Q53)
  const Q54: Point := Point(0x49761c57ce3c8c4f1435d495903e2f536f3be3712e76af8d0b5a8b7d1ebc8fac,
    0x3225035e1065094ef32d7f3e7a6f8ff2748025f96e0c0b44eb35576b61e150a8)
  ghost const C54: Checked := QuadCheck(Q53, Q54)
  const Q55: Point := Point(0x091605b338ea1bd98bdfae06ba25bd540525a3b02efa65df30de5c6e8c637d0f,
    0x1df405521e9a2232baf654aa3d2f66bdd6d57fd5bac96f5aa5f8ad2864bf8cc7)
  ghost const C55: Checked := QuadCheck(Q54, Q55)
  const Q56: Point := Point(0x4339fa86a23242851a16afc3ab05b352a7b4bf53599a49dd7e29d364fc3a757b,
    0x6d07cc3462bae9160bbebb997510817040767faa9dbd13f158a5fe8a63a34b0e)
  ghost const C56: Checked := QuadCheck(Q55, Q56)
  const Q57: Point := Point(0x7b9e0081b2e20f4f3d3f6d57f7bf977b2f192142a2a9e40b1aacd15140c88b2f,
    0x093854716ef9794d2057036ff3f97da686fa3a1784c42279e8abf1fcc42b858c)
  ghost const C57: Checked := QuadCheck(Q56, Q57)
  const Q58: Point := Point(0x6bda13918dcbaf8529d6326ae7a9c278b72417c2188c5ea4f062fc50639295fb,
    0x2c3fa803b162ee887d0d97a6734866f992f846625f314117075da54bb6c20a36)
  ghost const C58: Checked := QuadCheck(Q57, Q58)
  const Q59: Point := Point(0x45bf322997c4469aac6d1e4251fb3490e60e7c0cd5cdd6f5cfb9bbc53587b9f1,
    0x529d884884075753fd9a2f9ba021ff427fea7b9773f0d4885da5edc024c69e66)
  ghost const C59: Checked := QuadCheck(Q58, Q59)
  const Q60: Point := Point(0x4da4821314574d4fed4dcf692c8b15b99b73f13633210333ce7871359b6e6424,
    0x314016034673d2d20529bc93a2dab6e462bcb5f66e1f4a6bf2170759a40a6e65)
  ghost const C60: Checked := QuadCheck(Q59, Q60)
  const Q61: Point := Point(0x04230253b946f9c176ea49e7fe2b913a35738999750b1e21555104dcab320bb4,
    0x04db9dd92f8d939e6e4d0b0245ef57a62d793b173e977b8fa69558741d1e5afc)
  ghost const C61: Checked := QuadCheck(Q60, Q61)
  const Q62: Point := Point(0x0b2cea0029ee963c0034b61bf19e384435f14554a7d297b5144838c38e375586,
    0x47ea95da28d39aaade5edb8ed941c687603cfdd1508776e96d6683199e99daea)
  ghost const C62: Checked := QuadCheck(Q61, Q62)
  const Q63: Point := Point(0x1f13202c95083f854583ff4cda13ef4b1e745a880460850e59e22c567d23ea24,
    0x66336d356c381b7ef21109e7fdfd7ffa0085087eb55c4778ad42025c90275f48)
  ghost const C63: Checked := QuadCheck(Q62, Q63)
  const Q64: Point := Point(0x4c27afff3c45f32c952d3984e14e29a098e685c9c2e723e5fc8047ae60b7e824,
    0x5f2c99e6526dc87d95f11eb626c29c3a90d0be1e51a4c49e5bbabd114bf5a66b)
  ghost const C64: Checked := QuadCheck(Q63, Q64)
  const Q65: Point := Point(0x21fee4804968a933df8957815bc8dd9cc6a4d06beb4d19b36cb822f04c2eaa13,
    0x500b7740072cb51d416c5da150858339bda5367a8972c2313060d3e930901700)
  ghost const C65: Checked := QuadCheck(Q64, Q65)
  const Q66: Point := Point(0x7ea78304507728dd99f0086fb9e090c5967f5f6a9c5d8fca0a1ec954baea07cb,
    0x754069dc0e577bbaa4e6e641df716fef040ad634ffe944b8a97b3eb227cdd25f)
  ghost const C66: Checked := SumCheck(Q65, B5, Q66)
  const Q67: Point := Point(0x28e5aeef868576117d40fba6d18148a6057ad9fbe8de8d038e2742ded97176f5,
    0x5b43a4a02f8caf711a26c0bef6bb06a23c670402778b076de5637978022a0142)
  ghost const C67: Checked := QuadCheck(Q66, Q67)
  const Q68: Point := Point(0x23018ebce6526fb121adb89fbfef285149144479bcf9e6bdb3dbd49a0d41bafa,
    0x1da419481dd95d5fd6a22a6872f0cf47edf7813f3e582ffcc9d464175c0529c7)
  ghost const C68: Checked := QuadCheck(Q67, Q68)
  const Q69: Point := Point(0x37d8267b60cebc6e166cac3ed747c59052f7ece9c9eb8c7e3e3d6be792bb93ca,
    0x75818d47fafc5aa85cb5c1d756ce8b5d7f71d2351fc9bb6289d49d8aa686a26c)
  ghost const C69: Checked := QuadCheck(Q68, Q69)
  const Q70: Point := Point(0x7f39e0519cde34ef435ce2a7be21029b6cf1de4d3f3113ba6b374d3672ce185c,
    0x4ee68e54e99b5679cd29b673be7e929a4861e4b905d3dacc5424e7f8c8753ba1)
  ghost const C70: Checked := SumCheck(Q69, B13, Q70)
  const Q71: Point := Point(0x551d0ed3a66bcdb201683eb76003d497320c24dab242388f7628e45293f7ab9d,
    0x1ad7f746893698c75b17386f821cfea2522b87bcb0da89fc4fcf052af1dc7f9e)
  ghost const C71: Checked := QuadCheck(Q70, Q71)
  const Q72: Point := Point(0x7980936fd2e9a76cc798cbda2fc0ad541ec2744d12406939d7d51661a917c09c,
    0x56d7d0975cf23a5ebb1b401d8d85891975b35e446b561079dfab669827faf080)
  ghost const C72: Checked := SumCheck(Q71, B3, Q72)
  const Q73: Point := Point(0x47f0964156ef7ac4cc78dbf65a4ba795c0c57055203a7eb1279c1ed5e5ba47ff,
    0x58f188bfde79266482804bce1d880ed9d2e41d492aefb2e4be9613fb59647255)
  ghost const C73: Checked := QuadCheck(Q72, Q73)
  const Q74: Point := Point(0x3ad4e6196ebcc8a02471fe557e7f02d8ecc07e4c348079590002d63cebafd76f,
    0x3841e4a6120b177f0d63f40770ec64b0cd281326e23da7ed744d0fddfa4c569b)
  ghost const C74: Checked := QuadCheck(Q73, Q74)
  const Q75: Point := Point(0x0e6c87d81d9521f5015a9a65139d734aae08d33f7c5745783ef7d1c16570a5b3,
    0x48449d43dd0f9b77425847e89acbca4a776e41ed2fd9f69e6a166fbc19206192)
  ghost const C75: Checked := SumCheck(Q74, B11, Q75)
  const Q76: Point := Point(0x261f7a783d577d8a1a775d868575d2176020b8dca8b23e75669a59a3518d4ace,
    0x78575cee5cb7622d25c06a690cbcbf941a44b993f1dd052bd4005da9dfef1f85)
  ghost const C76: Checked := QuadCheck(Q75, Q76)
  const Q77: Point := Point(0x1c08aa4b58e3694f3479b6cca3d7ebc1f5ce7c7be450eaa3c0e722c9ef341800,
    0x4088acf7361fda921091fa4070cfba9bf90c39710760219062ecc1a30a4f85ca)
  ghost const C77: Checked := SumCheck(Q76, B3, Q77)
  const Q78: Point := Point(0x5ecb9ebd0eb334f44f28add64956ee215e1979e3b9185ae2c2ab43c9921ef435,
    0x7c43baf8c5529d3278e9c1962a387635d3995b34ed59dcb7da779a2b61e9d12d)
  ghost const C78: Checked := QuadCheck(Q77, Q78)
  const Q79: Point := Point(0x7ab2e3d9c2901e2941c091d27c010b6a068500cf27e7856c8942ec393abaa09f,
    0x46ce5345b3f4a4a093d361f3769e7e7ccf4d606969399bd63450032b6360c55b)
  ghost const C79: Checked := QuadCheck(Q78, Q79)
  const Q80: Point := Point(0x09f00a580ed6c398da955eb2d9cdb9b8cfb11a54a2cc76b1a99b7285b07699c0,
    0x2a14b220b33d055d2adec71b5b1d3b5accbe7feae883fe5d739777b2d9b5d27c)
  ghost const C80: Checked := SumCheck(Q79, B9, Q80)
  const Q81: Point := Point(0x1f61cf9e79f59f58ccebbedb37b8a204255738e51469eb3f28cc35a6e3d0c076,
    0x347365cef3c7fc3bf58452a4122896b2989772f7558fac613c3a8dce92c3d225)
  ghost const C81: Checked := QuadCheck(Q80, Q81)
  const Q82: Point := Point(0x46f4abec855009b379e41e573f186713a22bbd731fc77c374e962132c21657a9,
    0x10451cfb157e60bf4e8f0394334bef6cf7d745a3ee07a419c208295d3923ff1b)
  ghost const C82: Checked := QuadCheck(Q81, Q82)
  const Q83: Point := Point(0x7f5192f483252e208b643b61e187013608693bd61087fff4951f925426fc37ae,
    0x0d2b31ac34a0860c2fa7e82446e07ce21ff96512c04486c9ea72b3f2d66bad4f)
  ghost const C83: Checked := SumCheck(Q82, B13, Q83)
  const Q84: Point := Point(0x7dd342c4cb53f8fda43d84df1fce45fcd88f3bfd02daf413538022313580a1aa,
    0x490a56d76d6320145d63b8da25001be71ec5de85ef152a4233416e39418374d3)
  ghost const C84: Checked := QuadCheck(Q83, Q84)
  const Q85: Point := Point(0x50e7c2166923aafb603a6a4ec2805efa92782aa176b1cf1d2da6f353d24426e1,
    0x163f11e23c22179f8054d29a25ca3624a5a18acbf89aa613620114c08a58292e)
  ghost const C85: Checked := SumCheck(Q84, B3, Q85)
  const Q86: Point := Point(0x6e5d45c222e1a4c91c31f29fb4ce570c8725f54869687eb187fe6266d9c9fd15,
    0x57022fa08a342d4ebdea2eb42debdd9702591f330bab998852a50f0e19d79ef0)
  ghost const C86: Checked := QuadCheck(Q85, Q86)
  const Q87: Point := Point(0x23afdf0d6a7e08f389d5a51847ced4f31b415ce3fa76997252d3c8042459fb4b,
    0x719536c017cfa3c17acee83a1939f41c822b8db2c7ab21ebc87dbe019385bc0a)
  ghost const C87: Checked := SumCheck(Q86, B2, Q87)
  const Q88: Point := Point(0x552a88f402b452ebe51a30dca8bf28c1dc253fda7e047eb8bca392fff3d5c727,
    0x3afb6ecb8561c3fc74c36c8351b9308901ec3431181a6d46192afad3908fb3af)
  ghost const C88: Checked := QuadCheck(Q87, Q88)
  const Q89: Point := Point(0x525144e31ba2780a6d75ce270b192f93323f054e3a056b1ef74ed24c0ae66c78,
    0x4ef69da42f8419babf6cb6c5c20e3b913d8e6bf49649fbfb2f5d331c91d742d8)
  ghost const C89: Checked := SumCheck(Q88, B2, Q89)
  const Q90: Point := Point(0x5186e5402b9d5fb6345beec14773b0b4156e6d95db8b4e297cba5fc5fca2bce4,
    0x364bf3eabb8fdfd4b244386e47bf45be535e6d9a997cbebdda43d9640f855db2)
  ghost const C90: Checked := QuadCheck(Q89, Q90)
  const Q91: Point := Point(0x76145e80bd944d3b04b759c1ad23a0bb149d0a3d63878e4bbf90aa12d12533b1,
    0x3a8d4a424e897751a95f74c919a41bd7198083b11858e603989d2d52c2d965e3)
  ghost const C91: Checked := SumCheck(Q90, B2, Q91)
  const Q92: Point := Point(0x70dc9136f5e352f230cbdd689ae7d73d1ec8b4d6bf4d5888a180d27186a88c6a,
    0x4ce7b00ace68ed9a47f6207b7d268b851bcbd00bc04a3d7e54b9f353f4725665)
  ghost const C92: Checked := QuadCheck(Q91, Q92)
  const Q93: Point := Point(0x1e16e28bc8fef5b8ace4cbce33a537dc5a43a95c674e0e76b121973713b7f06d,
    0x2a4333702f438304ad715a138d0cc33e51eb23fbe5f82209d9f304c223d73290)
  ghost const C93: Checked := QuadCheck(Q92, Q93)
  const Q94: Point := Point(0x27607138664d5b68fb01f6f77f3087a41fb0acb953654d484e3c5d4c7a88509f,
    0x2bb78190a5ec69460d2a93e7673c793669bd27cd65fe861084578e5c6e25214e)
  ghost const C94: Checked := QuadCheck(Q93, Q94)
  const Q95: Point := Point(0x0eda526805ac53315097de854cc424364de09b677c3ba5ba880d79ec99704fe9,
    0x17650d0facc47c02820c5f6624c192fbe7ede447f32b132f01aed546ab842e4e)
  ghost const C95: Checked := SumCheck(Q94, B11, Q95)
  const Q96: Point := Point(0x2bdb4fd3294154bcafedde160ad6a1cf372013272852476519998a75d717783c,
    0x5d6c356c5fc9e304d6ea3a51900b3af9fed6cd174ab61099d80fbbd4cfd5b22d)
  ghost const C96: Checked := QuadCheck(Q95, Q96)
  const Q97: Point := Point(0x3a130f2b1d23b092048472b07357dd17c4c7643fe6d898d613b65fc3506102af,
    0x518384230eb2c24d80d8b760567385ccf44b208a59441a401cd8e27b3907b0f2)
  ghost const C97: Checked := QuadCheck(Q96, Q97)
  const Q98: Point := Point(0x733c54266c4dca9986bd571ffd5d6ecdd101d795bb1bcb4e27ae488f57b1a022,
    0x6dc0a5253f33f9e1634fd4341dd3da9db3257f4bdf8d5ff14e17f3c938072b35)
  ghost const C98: Checked := SumCheck(Q97, B13, Q98)
  const Q99: Point := Point(0x116cced1e3fe29c23e054a69840dd16b7c09538d624be5bddcb79f2c4fb67d5d,
    0x0057275ca87dd28438f9d78851144c1a2bc4643bb3ac6bb8a83d8f74021564fc)
  ghost const C99: Checked := QuadCheck(Q98, Q99)
  const Q100: Point := Point(0x5deebd7de7a7545e7c203ffab7e659756f2759ff7b6b12d2fb59d02ba7301d48,
    0x24ab9d0d2dfafb6515fe277ae19bc9780b2a9a157a1fb85a9071623d22c024ea)
  ghost const C100: Checked := SumCheck(Q99, B3, Q100)
  const Q101: Point := Point(0x1d55f0cd97413538e6108615cdcb0d22dc26b8e2eb0ca65cb49e09da55935375,
    0x03df3aed9a78e7f5e4bd374babb0d97ad17f6e2f39c58f35a98cea57b0099c88)
  ghost const C101: Checked := QuadCheck(Q100, Q101)
  const Q102: Point := Point(0x69caf6cf90d3bb2eba6d8a1964518f3506ec6c2a98d10883b432598243570983,
    0x2e2e02a9bed93d225a51277465dbed3f0107f70b285ad646d263e607cc51d6c9)
  ghost const C102: Checked := QuadCheck(Q101, Q102)
  const Q103: Point := Point(0x3deddc210c532ba05c57d46b1e1558f10711d07bef62a5e090b5de45aede3e08,
    0x74857910bd0658820ce61ca81efc0ff3c8a750ce50ca5cc120227735b34afb48)
  ghost const C103: Checked := SumCheck(Q102, B9, Q103)
  const Q104: Point := Point(0x36effd3f538b91d2ef96f70bf2d2cd91b94776547c77aca570b6a86a9fcb4d53,
    0x18f46166fd50fac79da90bfc75034a6722a0a93d14335c0db5bbe59cd041d6c7)
  ghost const C104: Checked := QuadCheck(Q103, Q104)
  const Q105: Point := Point(0x30dba84f0cd132775194b4a25926320b2b0c5f120204d8e9545d70d764fbb206,
    0x01bc931a5b331adbfb5516736e78c6ee74639a8379f95208cc44233f1438ab76)
  ghost const C105: Checked := SumCheck(Q104, B3, Q105)
  const Q106: Point := Point(0x567c281163625fc06276e3b75fea4870c4f3077ca5ef80dd6fdc51dcbc8afd1f,
    0x7c9fe8d294d9748be92c38f17e898ccbb2b20612851621ae12c599a70a3c6518)
  ghost const C106: Checked := QuadCheck(Q105, Q106)
  const Q107: Point := Point(0x12f595d56f634362bc7db42e0599d004ccbbcad0345c345d7f5417dfa5052b7f,
    0x4177363de68c70b272c67420bbde72e14bb49d427e0735be9ecb2a92476fbc51)
  ghost const C107: Checked := QuadCheck(Q106, Q107)
  const Q108: Point := Point(0x23c49687aa7f17171c0e03b75415bcf6c91ab3843b403cada7513ce350c8acb7,
    0x12725e1afc6a67440384d1743563d228ec677c8e8022f42e7de961497d8efa74)
  ghost const C108: Checked := QuadCheck(Q107, Q108)
  const Q109: Point := Point(0x4f175c88f1f18c44c21c21d4859f4ab50eaed92d362b7f22c574d1887b1cf92a,
    0x3c67a93523a8aa9763a0ad2b976c66c7cf62181c2fa809b15bc4d25be4560f38)
  ghost const C109: Checked := SumCheck(Q108, B13, Q109)
  const Q110: Point := Point(0x69d813691098c822fb29c81e1a41b313ffadf5a69f17943e1cfa2e55dfb43122,
    0x2a216d2062bc2644ed0c18491c46bb9dbc8411411aae71f7cfd400f652b332cc)
  ghost const C110: Checked := QuadCheck(Q109, Q110)
  const Q111: Point := Point(0x0cf4b47ad791e73fa38f8aed02c9f6149eab95fe248c6c12bb9ae179d2c397bf,
    0x598a81acf70c86d51fa05bc4e37386907bf3182ace4bd475efa21daaf5c6f489)
  ghost const C111: Checked := SumCheck(Q110, B, Q111)
  const Q112: Point := Point(0x50ed1b5db8efaa39731bf6c0a6226130355445734eea5036b199b360288391fd,
    0x6c73a74024c33b709916f4f39857b46325a65ba3c7256dd9d82832e9af4eaf3d)
  ghost const C112: Checked := QuadCheck(Q111, Q112)
  const Q113: Point := Point(0x28781f00dc6a7f8f6bbf8a442fb51c425b7574649ab05fb1d4d47a9efecfdcb9,
    0x1936282072679b5e23efb5036c3c71eff491006e9170d7ec1a7d0e448c6f6663)
  ghost const C113: Checked := QuadCheck(Q112, Q113)
  const Q114: Point := Point(0x48c536dd151f35a5677221ce227b58185aeebf56f42fa0e35ea0e3279e51e9f5,
    0x01a189af1109aafa2ea3950d2fd18138a5da2b83321a71491446cfc7f04e852d)
  ghost const C114: Checked := SumCheck(Q113, B9, Q114)
  const Q115: Point := Point(0x46a9642b7fb5c9d44cb1a33d5ef366536d89efd7bc6d73519d6c87555069f75c,
    0x71d3f6a21c2c5d63c3b5628506e274284c404c45b9bc5259807e5d7f281c4f9a)
  ghost const C115: Checked := QuadCheck(Q114, Q115)
  const Q116: Point := Point(0x7e31e25ce2f33bdbeb7c20940e4012716424ee1d426c5be0a215e26d4664ba8d,
    0x574c1c6b3a0150def0940caaa7841f0d37a4315c63fcfa3006d005c3baf9ba42)
  ghost const C116: Checked := SumCheck(Q115, B, Q116)
  const Q117: Point := Point(0x1bd06846089dbbe5230400630c2cbfd21fa89c0c8f1dcbbf9fa5c157cffeed51,
    0x7473cd2f7a952ceb142611a6fc2c7b1a7e773401b9cbf8058b8150317c3ccadc)
  ghost const C117: Checked := QuadCheck(Q116, Q117)
  const Q118: Point := Point(0x46ed181fa9c14c7ad6f26af9d8a6f3840369eab60751da48e07669441e427e88,
    0x3159da64986c457fdc9a558811e02f916c3c1419e2ec7a77692bb9aa03eea812)
  ghost const C118: Checked := SumCheck(Q117, B2, Q118)
  const Q119: Point := Point(0x4bcb5fe2d71d9b1d24270b76cd89ece9aec968750ad5286dc875bc3cf3533577,
    0x3628ed54d02e5dfb64d0327c29ed40ab476e047ce4fa7ac02586ccbc75a214db)
  ghost const C119: Checked := QuadCheck(Q118, Q119)
  const Q120: Point := Point(0x15def7d3220773cf17caa0acb3cc1592a0a3b31a9ae0c32119b23f6609f59678,
    0x13eac586b39d40545275d33b9a1b989c179b72f043312898e49d2671aab0c404)
  ghost const C120: Checked := QuadCheck(Q119, Q120)
  const Q121: Point := Point(0x75ac8909bf1e224f29732dcda6c64471cfc2c0480a9332a5ab6262f3e4e74293,
    0x3cce4b3e3043fbf4dc7807940f5911dd415445864106e12c8815af37d8d2995e)
  ghost const C121: Checked := QuadCheck(Q120, Q121)
  const Q122: Point := Point(0x6952a974608d177fc8f5f3d942c430bf0faa89d6987b88db8e179a51379e0e6c,
    0x14d095f1bc87afb8f11379e4cb0b560c174344bdc6f5d81364890fdafbe6c993)
  ghost const C122: Checked := SumCheck(Q121, B, Q122)
  const Q123: Point := Point(0x05e917a9fdede4806681bc041b0e45569bcf7251e5c74e8139d2dcd9c6596af2,
    0x45fc91eba1ba3fe32cfe20527b179a7a994ea367f8faa02dd1ff4b68a17bbb59)
  ghost const C123: Checked := QuadCheck(Q122, Q123)
  const Q124: Point := Point(0x25f6004e26574a0c186f57750515b2dfbd6850d552e8e23b6c39eb3044aed4b5,
    0x0d47b26fbd27c7e54148557fee5604740eec86ff4dcb774842ec650906a766a3)
  ghost const C124: Checked := QuadCheck(Q123, Q124)
  const Q125: Point := Point(0x0b879c7577beb43edc63a01d72f3f341da3fe7ce62dc114df52b0144884d1d13,
    0x15f7e850e5db34973010fc14f7b8c1337ea151d2491b49ee12c3b8d369a9aac9)
  ghost const C125: Checked := QuadCheck(Q124, Q125)
  const Q126: Point := Point(0x6c6ce021fb62d202d23ed27c1605aaf64dd452950cf1f2a117a429f2f3796225,
    0x77178bc18403c9408c457574c33e3c33b878dd59b8cabb659b328469713a14be)
  ghost const C126: Checked := SumCheck(Q125, B9, Q126)
  const Q127: Point := Point(0x16634e2266cceaaf3214e4e384fe9445327c6ae6e9859a91500fd6a2aa133844,
    0x4ad6e23e70e77d4f7cd5a84f68a8e0f59da935652d2ae0222243d74a250fda8b)
  ghost const C127: Checked := QuadCheck(Q126, Q127)
  const Q128: Point := Point(0x093fbbfa99f64dc86cb4205e79c0b3efbd7144cc369d8b740c298bb94120e7df,
    0x7db56a89ccd1a70bd28f0aaa384b91ee26baa9321128324b4a66dc432a15822c)
  ghost const C128: Checked := SumCheck(Q127, B2, Q128)
  const Q129: Point := Point(0x6ae7e7952c5dce7537db7571a53051740dfaf89d4da25b4201912dc9278615de,
    0x16f2d16d2759ca1e6937a253c1d101dbc89ef93eeb2b638a5ebe74337add37b4)
  ghost const C129: Checked := QuadCheck(Q128, Q129)
  const Q130: Point := Point(0x50908269e007aebb1563165032240827fdf495a8caf5fcc10ef75c96309a1d2b,
    0x335ec0cbb845a756fdb6622c29eb970641ae36664edb46b33cd622ccfc5bdeea)
  ghost const C130: Checked := QuadCheck(Q129, Q130)
  const Q131: Point := Point(0x3926bf21cba647fde8367602f0ff38c251405dd90cf2172dc4bf877511294a43,
    0x74df064c09cac0feaccd1f1a52e21605469caa26ce0bfa95367df75b52399425)
  ghost const C131: Checked := SumCheck(Q130, B3, Q131)
  const Q132: Point := Point(0x56ac2f28cb88eb654ee053238535e1811813791d23d0c7481ff2e86f8af419d9,
    0x76200ea57cc69ae334d8625b0d22d96f140dd73f2f986350b2365b753a759060)
  ghost const C132: Checked := QuadCheck(Q131, Q132)
  const Q133: Point := Point(0x5cca363a50ffe6861e78963f556ebd1266f04e162f40e61238baadcce16b1062,
    0x0614330fcbd5ff656134bb6dbc0c74c87def250a24501c7e537aaf1c37d5a251)
  ghost const C133: Checked := QuadCheck(Q132, Q133)
  const Q134: Point := Point(0x724907c8333ce3e7fe289b3d85023f3923627328775985ea7014589228047415,
    0x580c74f2b8ac90bfc706a71a01d17cba7ef573e456599ad3fae8dc10e5a332a0)
  ghost const C134: Checked := SumCheck(Q133, B, Q134)
  const Q135: Point := Point(0x1a4224e211a7a9e0328c3f94f9a68db1f5c64e11316550dd24881f1f7faa632c,
    0x4209318eff6bcb02635ef01ee04e1167cda7ce110f44b0c4b949221bd1c1ca56)
  ghost const C135: Checked := QuadCheck(Q134, Q135)
  const Q136: Point := Point(0x5c06c7e88d0b85a578c4af131e5a384ae2afb95989cd94a16ddbed32aff746da,
    0x4bf6905e70d4136517cc308490826686feb00b26fb0509a2436f6799f33b6463)
  ghost const C136: Checked := SumCheck(Q135, B2, Q136)
  const Q137: Point := Point(0x601eff0da6e4ceefbbddc50a21a98cffe1b0ba3b762858b8085b1bdb9931fee7,
    0x6555b9c5a5be5c867d492ac80003ad793e87f460a273776d0ebd2f724cd08cec)
  ghost const C137: Checked := QuadCheck(Q136, Q137)
  const Q138: Point := Point(0x425470e6bd8021f06efa73ee40da8665ec636bcf5051645835f8020c3c938bb4,
    0x10c3fd564f49b9bfc8ab0aa0e3d3c9bde22915f6bfa116621f14ea7d41bb0e91)
  ghost const C138: Checked := QuadCheck(Q137, Q138)
  const Q139: Point := Point(0x178a44f994ac35a0f3285af991983925240231b0c5bc6ff78040d42b3a19244a,
    0x5bae1abcc2bb6ec3d4a2ecaa21b5dafc8f748a490908969a9fba9013196cc69b)
  ghost const C139: Checked := SumCheck(Q138, B9, Q139)
  const Q140: Point := Point(0x16a935cb40748addde32a77d4243c7c884d8fb36e154840b241a413bef559fb0,
    0x7edbc8c6b18860d800679eb62c587abff1d1d493846b268c3c47c920b20f8ead)
  ghost const C140: Checked := QuadCheck(Q139, Q140)
  const Q141: Point := Point(0x6d5586c73260cb42b688b50aa21cd579144ada78135f635381e713171b62eccf,
    0x55d78564f31756a9984382436c4040ae524bbadd76524dd8c2430e7562f57e17)
  ghost const C141: Checked := QuadCheck(Q140, Q141)
  const Q142: Point := Point(0x4ed6c2cba2b42b67a03ade50c551ce59f1b53bfddd02ca8c156e33d4a0141e83,
    0x7f822f1a849c0585e0a5478469d66d333fa0d9dafdca03c41782c6c42cdb518c)
  ghost const C142: Checked := SumCheck(Q141, B7, Q142)
  const Q143: Point := Point(0x6f14406fe8b1e547c8f1c25311160d24b3626b6c500fd9bcc56fee9ac0cabc64,
    0x3f89a9583eddb8c4144ef006276d0c72854e705bf853ed8397789b9cfcf0155c)
  ghost const C143: Checked := QuadCheck(Q142, Q143)
  const Q144: Point := Point(0x162c0a60007014665488dfea03a62daab77db6be6b0fa8012931decefd719f83,
    0x753e3146577c4ec607774f504673c132374f359d7c1fa3cf8c2afa419e9f1899)
  ghost const C144: Checked := QuadCheck(Q143, Q144)
  const Q145: Point := Point(0x04dad3a7467dbf831c3b23b538cd8d89105b6afa35a54958cd3a54e4a430d9eb,
    0x6019ae456b0754de77a6b7a48ad3d5b6f35fbadd659be289172aead403a84a6f)
  ghost const C145: Checked := QuadCheck(Q144, Q145)
  const Q146: Point := Point(0x60ac863b4b74c2679e54e63280dd1aa1707a245f08b0bf5b6429d6e8c968edf2,
    0x2066210dd3c343b296ac9c8286c289584b74dc5003233d5134aa149e8577d81c)
  ghost const C146: Checked := SumCheck(Q145, B15, Q146)
  const Q147: Point := Point(0x6bed9bda7a0757ba55772bd79d55ba3f192875dd53a26c000e6136ae4a33dcfc,
    0x4323452515812eec775a96c27a48c75a4a5d592548e3598d629b23acd498cb3e)
  ghost const C147: Checked := QuadCheck(Q146, Q147)
  const Q148: Point := Point(0x2ed490aaaedb5c0dbdd0e16ec66d6ae8e2b55143733b70807d46a862df4c1c4a,
    0x79ed1a819e64b5d6049a4f35a01f5c43a8ccfd63fe0da8a9baacecb26b72abf9)
  ghost const C148: Checked := QuadCheck(Q147, Q148)
  const Q149: Point := Point(0x31a0a560746de42769d0c44e3c6344d1e84772dd31ce08738a2a66f77940c66f,
    0x77f93c57c573ef2daf660a25ded3ac7fd1de802d9a617489061fe0d9e5146ce5)
  ghost const C149: Checked := SumCheck(Q148, B5, Q149)
  const Q150: Point := Point(0x158e388f03409f54c3e64564861551322a1f5f73e0ff6f86f44034507ea9e971,
    0x227faa5b623d9edd48028608c6c821072b90fda4ce565b426ecb49bb8a6a62e9)
  ghost const C150: Checked := QuadCheck(Q149, Q150)
  const Q151: Point := Point(0x07df77bd01c1477ce9e1697f5cedd78a4da12a7ad0434c165001b9aa8d1e6d2a,
    0x0c9e1894a8788c3a76b7a24b2c8881ecf942d7e9fb5f3f2bfab58f8e76091648)
  ghost const C151: Checked := QuadCheck(Q150, Q151)
  const Q152: Point := Point(0x228186ee051ff14e229513ae97e899bbbe33c3eeba62e25aa187da793bf7bc63,
    0x39af13cdc3e32d11a6c4f51df741f5696a1d8a54d741c6d47db65297ecd0e730)
  ghost const C152: Checked := SumCheck(Q151, B13, Q152)
  const Q153: Point := Point(0x56cef4beeb3de11659875735371548b600de8b9731d9e43dcaa87506596b7b3e,
    0x58946677980578b96c24485081813dc5717a301b171f0e2a1ddb736d45e09dd0)
  ghost const C153: Checked := QuadCheck(Q152, Q153)
  const Q154: Point := Point(0x720bf7dad9a24bf2c9c6194820a65b820d60402aebb1da57d2f8975fdc6c3fef,
    0x7d69189f7567f8ed19339c6c03b2e746ad78e65760b6c00648450c46eb8883d4)
  ghost const C154: Checked := QuadCheck(Q153, Q154)
  const Q155: Point := Point(0x3bf5d907ddba64048011170f321c52a695579dc72344acd8349aef36fcc92b5a,
    0x449f1306a05c04202c78e39d5be40d51d5336faac6319571d16ccad08ad6dbea)
  ghost const C155: Checked := QuadCheck(Q154, Q155)
  const Q156: Point := Point(0x412d51c6b5b0333b9d32566a0f718f293c065d203e47596c487fc9a4146ac646,
    0x11caa89538d4b46efb1217596c925cd0af5c74b79d38e8af9f7e4f166a40ae2c)
  ghost const C156: Checked := SumCheck(Q155, B15, Q156)
  const Q157: Point := Point(0x74d8ce961394d747e9d61e6b9a1061f44c2d51d829e0b23e7b71a785851f14b2,
    0x4ddc46c6e55561edbb01ff116a8c92529d06b2d2314d111e8e8cd94989adf6dd)
  ghost const C157: Checked := QuadCheck(Q156, Q157)
  const Q158: Point := Point(0x734f888f563b8c38535121af9c0f43d3175b2cb8ce520216373e7099e90a2fb3,
    0x6fb1d83c8fe2cde813885ff8ae8cdce55e3dd829efd98ac194d3a48ef41a68b5)
  ghost const C158: Checked := QuadCheck(Q157, Q158)
  const Q159: Point := Point(0x72ae998b572929f5fd20ba2adfd10c7afbc9bbe9d0d93cf8cfa51130afe990f6,
    0x1a17d98da7bd9ac5fb755c2cf8fb2b36735a9264b9ef1043ad4d065381dc693e)
  ghost const C159: Checked := SumCheck(Q158, B11, Q159)
  const Q160: Point := Point(0x5e96c92c3291ac013f5b1dce022923a396d3389f6ada584d36a9d29f70da2ad3,
    0x6666666666666666666666666666666666666666666666666666666666666658)
  ghost const C160: Checked := QuadCheck(Q159, Q160)
  const Q161: Point := Point(0x0000000000000000000000000000000000000000000000000000000000000000,
    0x0000000000000000000000000000000000000000000000000000000000000001)
  ghost const C161: Checked := SumCheck(Q160, B, Q161)

  lemma To16()
    ensures At(0x100000000, Q16)
  {
    hide At, QuadCheck, SumCheck;
    BaseIs();
    QuadsChecked();
    assert C1 && C2 && C3 && C4 && C5 && C6 && C7 && C8;
    assert C9 && C10 && C11 && C12 && C13 && C14 && C15 && C16;
  }

  lemma To32()
    ensures At(0x10000000000000000, Q32)
  {
    hide At, QuadCheck, SumCheck;
    To16();
    QuadsChecked();
    assert C17 && C18 && C19 && C20 && C21 && C22 && C23 && C24;
    assert C25 && C26 && C27 && C28 && C29 && C30 && C31 && C32;
  }

  lemma To48()
    ensures At(0x1000000000000000000000000, Q48)
  {
    hide At, QuadCheck, SumCheck;
    To32();
    QuadsChecked();
    assert C33 && C34 && C35 && C36 && C37 && C38 && C39 && C40;
    assert C41 && C42 && C43 && C44 && C45 && C46 && C47 && C48;
  }

  lemma To64()
    ensures At(0x100000000000000000000000000000000, Q64)
  {
    hide At, QuadCheck, SumCheck;
    To48();
    QuadsChecked();
    assert C49 && C50 && C51 && C52 && C53 && C54 && C55 && C56;
    assert C57 && C58 && C59 && C60 && C61 && C62 && C63 && C64;
  }

  lemma To80()
    ensures At(0x1000000000000000000000000000000014def9, Q80)
  {
    hide At, QuadCheck, SumCheck;
    To64();
    QuadsChecked();
    B3Is();
    SumsChecked(3, B3);
    B5Is();
    SumsChecked(5, B5);
    B9Is();
    SumsChecked(9, B9);
    B11Is();
    SumsChecked(11, B11);
    B13Is();
    SumsChecked(13, B13);
    assert C65 && C66 && C67 && C68 && C69 && C70 && C71 && C72;
    assert C73 && C74 && C75 && C76 && C77 && C78 && C79 && C80;
  }

  lemma To96()
    ensures At(0x1000000000000000000000000000000014def9dea2c, Q96)
  {
    hide At, QuadCheck, SumCheck;
    To80();
    QuadsChecked();
    B2Is();
    SumsChecked(2, B2);
    B3Is();
    SumsChecked(3, B3);
    B11Is();
    SumsChecked(11, B11);
    B13Is();
    SumsChecked(13, B13);
    assert C81 && C82 && C83 && C84 && C85 && C86 && C87 && C88;
    assert C89 && C90 && C91 && C92 && C93 && C94 && C95 && C96;
  }

  lemma To112()
    ensures At(0x1000000000000000000000000000000014def9dea2f79cd4, Q112)
  {
    hide At, QuadCheck, SumCheck;
    To96();
    QuadsChecked();
    BaseIs();
    SumsChecked(1, B);
    B3Is();
    SumsChecked(3, B3);
    B9Is();
    SumsChecked(9, B9);
    B13Is();
    SumsChecked(13, B13);
    assert C97 && C98 && C99 && C100 && C101 && C102 && C103 && C104;
    assert C105 && C106 && C107 && C108 && C109 && C110 && C111 && C112;
  }

  lemma To128()
    ensures At(0x1000000000000000000000000000000014def9dea2f79cd658126, Q128)
  {
    hide At, QuadCheck, SumCheck;
    To112();
    QuadsChecked();
    BaseIs();
    SumsChecked(1, B);
    B2Is();
    SumsChecked(2, B2);
    B9Is();
    SumsChecked(9, B9);
    assert C113 && C114 && C115 && C116 && C117 && C118 && C119 && C120;
    assert C121 && C122 && C123 && C124 && C125 && C126 && C127 && C128;
  }

  lemma To144()
    ensures At(0x40000000000000000000000000000000537be77a8bde735960498c6970, Q144)
  {
    hide At, QuadCheck, SumCheck;
    To128();
    QuadsChecked();
    BaseIs();
    SumsChecked(1, B);
    B2Is();
    SumsChecked(2, B2);
    B3Is();
    SumsChecked(3, B3);
    B7Is();
    SumsChecked(7, B7);
    B9Is();
    SumsChecked(9, B9);
    assert C129 && C130 && C131 && C132 && C133 && C134 && C135 && C136;
    assert C137 && C138 && C139 && C140 && C141 && C142 && C143 && C144;
  }

  lemma To160()
    ensures At(0x1000000000000000000000000000000014def9dea2f79cd65812631a5cf5d3ec, Q160)
  {
    hide At, QuadCheck, SumCheck;
    To144();
    QuadsChecked();
    B5Is();
    SumsChecked(5, B5);
    B11Is();
    SumsChecked(11, B11);
    B13Is();
    SumsChecked(13, B13);
    B15Is();
    SumsChecked(15, B15);
    assert C145 && C146 && C147 && C148 && C149 && C150 && C151 && C152;
    assert C153 && C154 && C155 && C156 && C157 && C158 && C159 && C160;
  }

  lemma To161()
    ensures At(0x1000000000000000000000000000000014def9dea2f79cd65812631a5cf5d3ed, Q161)
  {
    hide At, QuadCheck, SumCheck;
    To160();
    QuadsChecked();
    BaseIs();
    SumsChecked(1, B);
    assert C161;
  }

  /** l B = (0, 1). */
  lemma OrderOfBase()
    ensures Mul(L, B) == ZERO
  {
    hide Mul, OnCurve;
    To161();
  }

  /** If two multiples of B are ZERO, so is that of their remainder. */
  lemma RemainderOf(m: int, r: int)
    requires r > 0 && Mul(m, B) == ZERO && Mul(r, B) == ZERO
    ensures Mul(m % r, B) == ZERO
  {
    hide Mul, OnCurve;
    var q := m / r;
    BaseIsPoint();
    MulMul(q, r, B);
    MulMul(q, 0, B);
    assert m == q * r + m % r;
    MulAdd(q * r, m % r, B);
    MulOnCurve(m % r, B);
    MulZero(B);
    AddZero(Mul(m % r, B));
  }

  /** No smaller multiple of B is ZERO, since l is prime. */
  lemma {:induction false} NoShorterOrder(r: int)
    requires 0 < r < L && Mul(r, B) == ZERO
    ensures false
    decreases r
  {
    hide Mul, OnCurve, Primes.IsPrime;
    if r == 1 {
      BaseIs();
    } else {
      OrderCertificate.PrimeL();
      Primes.NotDivisor(L, r);
      OrderOfBase();
      RemainderOf(L, r);
      NoShorterOrder(L % r);
    }
  }

  /** The multiples of B repeat after l steps, and not before. */
  lemma OrderExactly(k: int)
    ensures Mul(k, B) == ZERO <==> k % L == 0
  {
    hide Mul, OnCurve;
    OrderOfBase();
    if Mul(k, B) == ZERO {
      RemainderOf(k, L);
      if k % L != 0 {
        NoShorterOrder(k % L);
      }
    }
    if k % L == 0 {
      BaseIsPoint();
      MulMul(k / L, L, B);
      MulMul(k / L, 0, B);
      MulZero(B);
      assert k == (k / L) * L;
    }
  }

  lemma MulZero(p: Point)
    ensures Mul(0, p) == ZERO
  {
  }
}
