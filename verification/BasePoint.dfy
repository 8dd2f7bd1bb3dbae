/** The base point of section 5.1 of RFC 8032, its odd multiples up to 15 B, and the table of them that verification
    uses (keypair/precomp_data.h:1-42). */
module BasePoint {
  import opened PrimeField
  import opened PrimeModulus
  import opened EdwardsAlgebra
  import opened EdwardsCurve
  import opened CurveConstants
  import opened CurveGroup
  import opened PointForms
  import opened FieldElement
  import opened Ge
  import opened DoubleScalarMult
  import opened Montgomery

  const B: Point := Point(
    15112221349535400772501151409588531511454012693041857206046113283949847762202,
    46316835694926478169428394003475163141307993866256225615783033603165251855960)

  const B2: Point := Point(
    0x36ab384c9f5a046c3d043b7d1833e7ac080d8e4515d7a45f83c5a14e2843ce0e,
    0x2260cdf3092329c21da25ee8c9a21f5697390f51643851560e5f46ae6af8a3c9)

  const B3: Point := Point(
    0x67ae9c4a22928f491ff4ae743edac83a6343981981624886ac62485fd3f8e25c,
    0x1267b1d177ee69aba126a18e60269ef79f16ec176724030402c3684878f5b4d4)

  const B5: Point := Point(
    0x49fda73eade3587bfcef7cf7d12da5de5c2819f93e1be1a591409cc0322ef233,
    0x5f4825b298feae6fe02c6e148992466631282eca89430b5d10d21f83d676c8ed)

  const B7: Point := Point(
    0x14568685fcf4bd4ee9e3ee194b1d810783e809f3bbf1ce955855981af50e4107,
    0x31c563e32b47d52f87ce6468dd36ad41f0882b46f7abf23d12c4c4b59f4062b8)

  const B9: Point := Point(
    0x357cc970c80071651bf336e06f9422b886d80e5c2e4e0294d3e023065185715c,
    0x7f3d23c2c2dd0df4b2befce956f2d2fd1f789013236e4430c74e44845522f1c0)

  const B11: Point := Point(
    0x14e528b1154be417b6cf078dd6712438d381a5b2c593d552ff2fd2c1207cf3cb,
    0x2d9082313f21ab975a6f7ce340ff0fce1258591c3c9c58d4308f2dc36a033713)

  const B13: Point := Point(
    0x107427e0d5f366ccdb33adf0282d304f8843e3e88d22b7b83780e073b7c05fed,
    0x12dbb00ded538b7478466022d2da89b83740cfb2289a272387efe1aeea401f80)

  const B15: Point := Point(
    0x4f162deaec2ec435dc5ac6f95d20419ed9631374770189cb90617f3e66a18dc1,
    0x12cbfb2d04ff22f55162f70164d29331ace5af18a19a9aa1946d4cc4ad2e5cdf)

  // -------------------------------------------------------------------------------------------
  // Points given by numbers
  // -------------------------------------------------------------------------------------------

  lemma DCong(x: int, n: int)
    requires Cong(n, 1 + D_RESIDUE * x)
    ensures Cong(n, 1 + D() * x)
  {
    DResidue();
    DIs(D_RESIDUE);
    CongScale(x, D_RESIDUE, D());
    CongSelf(1);
    CongAdd(1, 1, x * D_RESIDUE, x * D());
    CongTrans(n, 1 + D_RESIDUE * x, 1 + D() * x);
  }

  predicate PointCheck(p: Point) {
    && 0 <= p.x < P && 0 <= p.y < P
    && (p.y * p.y - p.x * p.x - (1 + D_RESIDUE * ((p.x * p.y) * (p.x * p.y)))) % P == 0
  }

  lemma IsPoint(p: Point, m: int)
    requires 0 <= p.x < P && 0 <= p.y < P && m == (p.x * p.y) * (p.x * p.y)
    requires Cong(p.y * p.y - p.x * p.x, 1 + D_RESIDUE * m)
    ensures OnCurve(p)
  {
    DCong(m, p.y * p.y - p.x * p.x);
    OnCurveIs(p);
  }

  lemma PointsChecked()
    ensures forall p :: PointCheck(p) ==> OnCurve(p)
  {
    forall p | PointCheck(p)
      ensures OnCurve(p)
    {
      var m := (p.x * p.y) * (p.x * p.y);
      CongIs(p.y * p.y - p.x * p.x, 1 + D_RESIDUE * m);
      IsPoint(p, m);
    }
  }

  lemma Spread(c: int, d: int, m: int)
    ensures c * (1 + d * m) == c + (c * m) * d && c * (1 - d * m) == c - (c * m) * d
  {
  }

  lemma Denominator(c: int, m: int)
    ensures Cong(c * (1 + D() * m), c * (1 + D_RESIDUE * m)) && Cong(c * (1 - D() * m), c * (1 - D_RESIDUE * m))
  {
    DResidue();
    DIs(D_RESIDUE);
    CongScale(c * m, D_RESIDUE, D());
    CongSym((c * m) * D_RESIDUE, (c * m) * D());
    Spread(c, D_RESIDUE, m);
    Spread(c, D(), m);
    CongSelf(c);
    CongAdd(c, c, (c * m) * D(), (c * m) * D_RESIDUE);
  }

  lemma Checked(x: int, y: int, m: int, s: int, t: int)
    requires Cong(x * (1 + D_RESIDUE * m), s) && Cong(y * (1 - D_RESIDUE * m), t)
    ensures Cong(x * (1 + D() * m), s) && Cong(y * (1 - D() * m), t)
  {
    Denominator(x, m);
    Denominator(y, m);
    CongTrans(x * (1 + D() * m), x * (1 + D_RESIDUE * m), s);
    CongTrans(y * (1 - D() * m), y * (1 - D_RESIDUE * m), t);
  }

  lemma SumTerms(d: int, x1: int, y1: int, x2: int, y2: int, x: int, y: int, m: int, s: int, t: int)
    requires m == (x1 * y1) * (x2 * y2) && s == x1 * y2 + y1 * x2 && t == y1 * y2 + x1 * x2
    requires Cong(x * (1 + d * m), s) && Cong(y * (1 - d * m), t)
    ensures IsSum(d, x1, y1, x2, y2, x, y)
  {
  }

  lemma IsResidue(p: Point, x: int, y: int)
    requires OnCurve(p) && Cong(x, p.x) && Cong(y, p.y) && 0 <= x < P && 0 <= y < P
    ensures p == Point(x, y)
  {
    OnCurveIs(p);
    Residues(x, p.x);
    Residues(y, p.y);
  }

  /** p is n B. */
  ghost predicate At(n: int, p: Point) {
    Mul(n, B) == p && OnCurve(p)
  }

  lemma SumOf(p: Point, q: Point, r: Point, m: int, s: int, t: int)
    requires OnCurve(p) && OnCurve(q) && 0 <= r.x < P && 0 <= r.y < P
    requires m == (p.x * p.y) * (q.x * q.y) && s == p.x * q.y + p.y * q.x && t == p.y * q.y + p.x * q.x
    requires Cong(r.x * (1 + D_RESIDUE * m), s) && Cong(r.y * (1 - D_RESIDUE * m), t)
    ensures Add(p, q) == r
  {
    hide OnCurve, Add, IsSum;
    Checked(r.x, r.y, m, s, t);
    SumTerms(D(), p.x, p.y, q.x, q.y, r.x, r.y, m, s, t);
    AddUnique(p, q, r.x, r.y);
    AddCloses(p, q);
    IsResidue(Add(p, q), r.x, r.y);
  }

  lemma MultiplesSum(m: int, p: Point, n: int, q: Point)
    requires At(m, p) && At(n, q)
    ensures At(m + n, Add(p, q))
  {
    hide OnCurve, Mul, Add;
    AddCloses(p, q);
    BaseIsPoint();
    MulAdd(m, n, B);
  }

  predicate FirstCheck(c: int, m: int, s: int) {
    (c * (1 + D_RESIDUE * m) - s) % P == 0
  }

  predicate SecondCheck(c: int, m: int, s: int) {
    (c * (1 - D_RESIDUE * m) - s) % P == 0
  }

  /** r is the sum of p and q. */
  predicate SumCheck(p: Point, q: Point, r: Point) {
    && 0 <= r.x < P && 0 <= r.y < P
    && FirstCheck(r.x, (p.x * p.y) * (q.x * q.y), p.x * q.y + p.y * q.x)
    && SecondCheck(r.y, (p.x * p.y) * (q.x * q.y), p.y * q.y + p.x * q.x)
  }

  /** q = p + k B, if p is a multiple of B. */
  ghost predicate IsMore(p: Point, k: int, q: Point) {
    forall n :: At(n, p) ==> At(n + k, q)
  }

  lemma ChecksMean(c: int, m: int, s: int)
    ensures FirstCheck(c, m, s) <==> Cong(c * (1 + D_RESIDUE * m), s)
    ensures SecondCheck(c, m, s) <==> Cong(c * (1 - D_RESIDUE * m), s)
  {
    CongIs(c * (1 + D_RESIDUE * m), s);
    CongIs(c * (1 - D_RESIDUE * m), s);
  }

  lemma SumChecked(p: Point, q: Point, r: Point)
    ensures OnCurve(p) && OnCurve(q) && SumCheck(p, q, r) ==> Add(p, q) == r
  {
    hide OnCurve, Add, FirstCheck, SecondCheck;
    if OnCurve(p) && OnCurve(q) && SumCheck(p, q, r) {
      var m, s, t := (p.x * p.y) * (q.x * q.y), p.x * q.y + p.y * q.x, p.y * q.y + p.x * q.x;
      ChecksMean(r.x, m, s);
      ChecksMean(r.y, m, t);
      SumOf(p, q, r, m, s, t);
    }
  }

  lemma SumsChecked(k: int, q: Point)
    requires At(k, q)
    ensures forall p, r :: SumCheck(p, q, r) ==> IsMore(p, k, r)
  {
    hide SumCheck, OnCurve, Mul, Add;
    forall p, r | SumCheck(p, q, r)
      ensures IsMore(p, k, r)
    {
      forall n | At(n, p)
        ensures At(n + k, r)
      {
        MultiplesSum(n, p, k, q);
        SumChecked(p, q, r);
      }
    }
  }

  // -------------------------------------------------------------------------------------------
  // The multiples of the base point
  // -------------------------------------------------------------------------------------------

  lemma BaseIsPoint()
    ensures OnCurve(B)
  {
    PointsChecked();
    assert PointCheck(B);
  }

  lemma BaseIs()
    ensures At(1, B)
  {
    BaseIsPoint();
    MulOne(B);
  }

  lemma B2Is()
    ensures At(2, B2)
  {
    hide At, OnCurve;
    BaseIs();
    SumsChecked(1, B);
    assert SumCheck(B, B, B2);
  }

  lemma B3Is()
    ensures At(3, B3)
  {
    hide At, OnCurve;
    BaseIs();
    B2Is();
    SumsChecked(2, B2);
    assert SumCheck(B, B2, B3);
  }

  lemma B5Is()
    ensures At(5, B5)
  {
    hide At, OnCurve;
    B2Is();
    B3Is();
    SumsChecked(2, B2);
    assert SumCheck(B3, B2, B5);
  }

  lemma B7Is()
    ensures At(7, B7)
  {
    hide At, OnCurve;
    B2Is();
    B5Is();
    SumsChecked(2, B2);
    assert SumCheck(B5, B2, B7);
  }

  lemma B9Is()
    ensures At(9, B9)
  {
    hide At, OnCurve;
    B2Is();
    B7Is();
    SumsChecked(2, B2);
    assert SumCheck(B7, B2, B9);
  }

  lemma B11Is()
    ensures At(11, B11)
  {
    hide At, OnCurve;
    B2Is();
    B9Is();
    SumsChecked(2, B2);
    assert SumCheck(B9, B2, B11);
  }

  lemma B13Is()
    ensures At(13, B13)
  {
    hide At, OnCurve;
    B2Is();
    B11Is();
    SumsChecked(2, B2);
    assert SumCheck(B11, B2, B13);
  }

  lemma B15Is()
    ensures At(15, B15)
  {
    hide At, OnCurve;
    B2Is();
    B13Is();
    SumsChecked(2, B2);
    assert SumCheck(B13, B2, B15);
  }

  /** y = 4/5, and x is even. */
  lemma BaseCoordinates()
    ensures Cong(5 * B.y, 4) && B.x % 2 == 0
  {
    CongMod(5 * B.y, 4);
  }

  /** The base point of section 4.1 of RFC 7748. */
  lemma BaseU()
    ensures U(B.y) == 9
  {
    hide CurveGroup.Quotient;
    CongMod(1 - B.y, 0);
    CongMod(9 * (1 - B.y), 1 + B.y);
    QuotientTimes(1 + B.y, 1 - B.y);
    SameQuotient(1 - B.y, U(B.y), 9, 1 + B.y);
    QuotientRange(1 + B.y, 1 - B.y);
    Residues(U(B.y), 9);
  }

  // -------------------------------------------------------------------------------------------
  // The table Bi
  // -------------------------------------------------------------------------------------------

  const PLUS1: Limbs :=
    [25967493, -14356035, 29566456, 3660896, -12694345, 4014787, 27544626, -11754271, -6079156, 2047605]
  const PLUS3: Limbs :=
    [15636291, -9688557, 24204773, -7912398, 616977, -16685262, 27787600, -14772189, 28944400, -1550024]
  const PLUS5: Limbs :=
    [10861363, 11473154, 27284546, 1981175, -30064349, 12577861, 32867885, 14515107, -15438304, 10819380]
  const PLUS7: Limbs :=
    [5153746, 9909285, 1723747, -2777874, 30523605, 5516873, 19480852, 5230134, -23952439, -15175766]
  const PLUS9: Limbs :=
    [-22518993, -6692182, 14201702, -8745502, -23510406, 8844726, 18474211, -1361450, -13062696, 13821877]
  const PLUS11: Limbs :=
    [-25154831, -4185821, 29681144, 7868801, -6854661, -9423865, -12437364, -663000, -31111463, -16132436]
  const PLUS13: Limbs :=
    [-33521811, 3180713, -2394130, 14003687, -16903474, -16270840, 17238398, 4729455, -18074513, 9256800]
  const PLUS15: Limbs :=
    [-3151181, -5046075, 9282714, 6866145, -31907062, -863023, -18940575, 15033784, 25105118, -7894876]

  const MINUS1: Limbs :=
    [-12545711, 934262, -2722910, 3049990, -727428, 9406986, 12720692, 5043384, 19500929, -15469378]
  const MINUS3: Limbs :=
    [16568933, 4717097, -11556148, -1102322, 15682896, -11807043, 16354577, -11775962, 7689662, 11199574]
  const MINUS5: Limbs :=
    [4708026, 6336745, 20377586, 9066809, -11272109, 6594696, -25653668, 12483688, -12668491, 5581306]
  const MINUS7: Limbs :=
    [-30269007, -3463509, 7665486, 10083793, 28475525, 1649722, 20654025, 16520125, 30598449, 7715701]
  const MINUS9: Limbs :=
    [-6455177, -7839871, 3374702, -4740862, -27098617, -10571707, 31655028, -7212327, 18853322, -14220951]
  const MINUS11: Limbs :=
    [25576264, -2703214, 7349804, -11814844, 16472782, 9300885, 3844789, 15725684, 171356, 6466918]
  const MINUS13: Limbs :=
    [-25182317, -4174131, 32336398, 5036987, -21236817, 11360617, 22616405, 9761698, -19827198, 630305]
  const MINUS15: Limbs :=
    [-24326370, 15950226, -31801215, -14592823, -11662737, -5090925, 1573892, -2625887, 2198790, -15804619]

  const XY2D1: Limbs :=
    [-8738181, 4489570, 9688441, -14785194, 10184609, -12363380, 29287919, 11864899, -24514362, -4438546]
  const XY2D3: Limbs :=
    [30464156, -5976125, -11779434, -15670865, 23220365, 15915852, 7512774, 10017326, -17749093, -9920357]
  const XY2D5: Limbs :=
    [19563160, 16186464, -29386857, 4097519, 10237984, -4348115, 28542350, 13850243, -23678021, -15815942]
  const XY2D7: Limbs :=
    [28881845, 14381568, 9657904, 3680757, -20181635, 7843316, -31400660, 1370708, 29794553, -1409300]
  const XY2D9: Limbs :=
    [4566830, -12963868, -28974889, -12240689, -7602672, -2830569, -8514358, -10431137, 2207753, -3209784]
  const XY2D11: Limbs :=
    [23103977, 13316479, 9739013, -16149481, 817875, -15038942, 8965339, -14088058, -30714912, 16193877]
  const XY2D13: Limbs :=
    [-13720693, 2639453, -24237460, -7406481, 9494427, -5774029, -6554551, -15960994, -2449256, -14291300]
  const XY2D15: Limbs :=
    [-3099351, 10324967, -2241613, 7453183, -5446979, -2735503, -13812022, -16236442, -32461234, -12290683]

  predicate EntryCheck(plus: int, minus: int, xy2d: int, p: Point) {
    && (plus - (p.y + p.x)) % P == 0 && (minus - (p.y - p.x)) % P == 0
    && (xy2d - 2 * (D_RESIDUE * (p.x * p.y))) % P == 0
  }

  lemma EntryOf(plus: int, minus: int, xy2d: int, p: Point)
    requires Cong(plus, p.y + p.x) && Cong(minus, p.y - p.x) && Cong(xy2d, 2 * (D_RESIDUE * (p.x * p.y)))
    ensures Cached(plus, minus, 1, xy2d, p)
  {
    CongMod(1, 0);
    DResidue();
    DIs(D_RESIDUE);
    CongScale(2 * (p.x * p.y), D_RESIDUE, D());
    TwiceProduct(D_RESIDUE, p.x * p.y);
    TwiceProduct(D(), p.x * p.y);
    CongTrans(xy2d, 2 * (D_RESIDUE * (p.x * p.y)), 2 * (D() * (p.x * p.y)));
  }

  lemma EntriesChecked(p: Point)
    ensures forall plus, minus, xy2d :: EntryCheck(plus, minus, xy2d, p) ==> Cached(plus, minus, 1, xy2d, p)
  {
    forall plus, minus, xy2d | EntryCheck(plus, minus, xy2d, p)
      ensures Cached(plus, minus, 1, xy2d, p)
    {
      CongIs(plus, p.y + p.x);
      CongIs(minus, p.y - p.x);
      CongIs(xy2d, 2 * (D_RESIDUE * (p.x * p.y)));
      EntryOf(plus, minus, xy2d, p);
    }
  }

  lemma TwiceProduct(d: int, m: int)
    ensures (2 * m) * d == 2 * (d * m)
  {
  }

  lemma Entry1()
    requires At(1, B)
    ensures Within(PLUS1, 110) && Within(MINUS1, 110) && Within(XY2D1, 110)
    ensures Cached(Val(PLUS1), Val(MINUS1), 1, Val(XY2D1), B)
  {
    hide Val, Cached, OnCurve, Mul;
    ValExplicit(PLUS1);
    ValExplicit(MINUS1);
    ValExplicit(XY2D1);
    EntriesChecked(B);
    assert EntryCheck(Val(PLUS1), Val(MINUS1), Val(XY2D1), B);
  }

  lemma Entry3()
    requires At(3, B3)
    ensures Within(PLUS3, 110) && Within(MINUS3, 110) && Within(XY2D3, 110)
    ensures Cached(Val(PLUS3), Val(MINUS3), 1, Val(XY2D3), B3)
  {
    hide Val, Cached, OnCurve, Mul;
    ValExplicit(PLUS3);
    ValExplicit(MINUS3);
    ValExplicit(XY2D3);
    EntriesChecked(B3);
    assert EntryCheck(Val(PLUS3), Val(MINUS3), Val(XY2D3), B3);
  }

  lemma Entry5()
    requires At(5, B5)
    ensures Within(PLUS5, 110) && Within(MINUS5, 110) && Within(XY2D5, 110)
    ensures Cached(Val(PLUS5), Val(MINUS5), 1, Val(XY2D5), B5)
  {
    hide Val, Cached, OnCurve, Mul;
    ValExplicit(PLUS5);
    ValExplicit(MINUS5);
    ValExplicit(XY2D5);
    EntriesChecked(B5);
    assert EntryCheck(Val(PLUS5), Val(MINUS5), Val(XY2D5), B5);
  }

  lemma Entry7()
    requires At(7, B7)
    ensures Within(PLUS7, 110) && Within(MINUS7, 110) && Within(XY2D7, 110)
    ensures Cached(Val(PLUS7), Val(MINUS7), 1, Val(XY2D7), B7)
  {
    hide Val, Cached, OnCurve, Mul;
    ValExplicit(PLUS7);
    ValExplicit(MINUS7);
    ValExplicit(XY2D7);
    EntriesChecked(B7);
    assert EntryCheck(Val(PLUS7), Val(MINUS7), Val(XY2D7), B7);
  }

  lemma Entry9()
    requires At(9, B9)
    ensures Within(PLUS9, 110) && Within(MINUS9, 110) && Within(XY2D9, 110)
    ensures Cached(Val(PLUS9), Val(MINUS9), 1, Val(XY2D9), B9)
  {
    hide Val, Cached, OnCurve, Mul;
    ValExplicit(PLUS9);
    ValExplicit(MINUS9);
    ValExplicit(XY2D9);
    EntriesChecked(B9);
    assert EntryCheck(Val(PLUS9), Val(MINUS9), Val(XY2D9), B9);
  }

  lemma Entry11()
    requires At(11, B11)
    ensures Within(PLUS11, 110) && Within(MINUS11, 110) && Within(XY2D11, 110)
    ensures Cached(Val(PLUS11), Val(MINUS11), 1, Val(XY2D11), B11)
  {
    hide Val, Cached, OnCurve, Mul;
    ValExplicit(PLUS11);
    ValExplicit(MINUS11);
    ValExplicit(XY2D11);
    EntriesChecked(B11);
    assert EntryCheck(Val(PLUS11), Val(MINUS11), Val(XY2D11), B11);
  }

  lemma Entry13()
    requires At(13, B13)
    ensures Within(PLUS13, 110) && Within(MINUS13, 110) && Within(XY2D13, 110)
    ensures Cached(Val(PLUS13), Val(MINUS13), 1, Val(XY2D13), B13)
  {
    hide Val, Cached, OnCurve, Mul;
    ValExplicit(PLUS13);
    ValExplicit(MINUS13);
    ValExplicit(XY2D13);
    EntriesChecked(B13);
    assert EntryCheck(Val(PLUS13), Val(MINUS13), Val(XY2D13), B13);
  }

  lemma Entry15()
    requires At(15, B15)
    ensures Within(PLUS15, 110) && Within(MINUS15, 110) && Within(XY2D15, 110)
    ensures Cached(Val(PLUS15), Val(MINUS15), 1, Val(XY2D15), B15)
  {
    hide Val, Cached, OnCurve, Mul;
    ValExplicit(PLUS15);
    ValExplicit(MINUS15);
    ValExplicit(XY2D15);
    EntriesChecked(B15);
    assert EntryCheck(Val(PLUS15), Val(MINUS15), Val(XY2D15), B15);
  }

  predicate Holds(r: GePrecomp, plus: Limbs, minus: Limbs, xy2d: Limbs)
    reads r
  {
    r.yPlusX == plus && r.yMinusX == minus && r.xy2d == xy2d
  }

  /** The table Bi of precomp_data.h. */
  predicate IsBi(table: seq<GePrecomp>)
    reads table
  {
    |table| == 8
    && Holds(table[0], PLUS1, MINUS1, XY2D1)
    && Holds(table[1], PLUS3, MINUS3, XY2D3)
    && Holds(table[2], PLUS5, MINUS5, XY2D5)
    && Holds(table[3], PLUS7, MINUS7, XY2D7)
    && Holds(table[4], PLUS9, MINUS9, XY2D9)
    && Holds(table[5], PLUS11, MINUS11, XY2D11)
    && Holds(table[6], PLUS13, MINUS13, XY2D13)
    && Holds(table[7], PLUS15, MINUS15, XY2D15)
  }

  lemma EntryIs(r: GePrecomp, plus: Limbs, minus: Limbs, xy2d: Limbs, n: int, p: Point)
    requires Holds(r, plus, minus, xy2d) && At(n, p)
    requires Within(plus, 110) && Within(minus, 110) && Within(xy2d, 110)
    requires Cached(Val(plus), Val(minus), 1, Val(xy2d), p)
    ensures IsPrecomp(r, Mul(n, B))
  {
    hide Mul, OnCurve, Within, Val;
  }

  /** It holds the odd multiples of B. */
  lemma BiIsOdd(table: seq<GePrecomp>)
    requires IsBi(table)
    ensures OddPrecomp(table, B)
  {
    hide Mul, OnCurve, Within, Val, Holds, Cached, IsPrecomp, At;
    BaseIs();
    Entry1();
    EntryIs(table[0], PLUS1, MINUS1, XY2D1, 1, B);
    B3Is();
    Entry3();
    EntryIs(table[1], PLUS3, MINUS3, XY2D3, 3, B3);
    B5Is();
    Entry5();
    EntryIs(table[2], PLUS5, MINUS5, XY2D5, 5, B5);
    B7Is();
    Entry7();
    EntryIs(table[3], PLUS7, MINUS7, XY2D7, 7, B7);
    B9Is();
    Entry9();
    EntryIs(table[4], PLUS9, MINUS9, XY2D9, 9, B9);
    B11Is();
    Entry11();
    EntryIs(table[5], PLUS11, MINUS11, XY2D11, 11, B11);
    B13Is();
    Entry13();
    EntryIs(table[6], PLUS13, MINUS13, XY2D13, 13, B13);
    B15Is();
    Entry15();
    EntryIs(table[7], PLUS15, MINUS15, XY2D15, 15, B15);
  }
}
