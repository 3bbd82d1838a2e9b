/** The values that the tests of the shuffle expect (`src/lib/__tests__/shuffle.test.ts:5-24`), computed from
    the definitions.  They fix the constants. */
module ShuffleReferences {
  import opened Arithmetic
  import opened Hashing
  import opened JsNumbers
  import opened Words

  // ---------------------------------------------------------------- operators by hexadecimal digits

  datatype Hex = Hex(b3: bool, b2: bool, b1: bool, b0: bool)

  const D0 := Hex(false, false, false, false)
  const D1 := Hex(false, false, false, true)
  const D2 := Hex(false, false, true, false)
  const D3 := Hex(false, false, true, true)
  const D4 := Hex(false, true, false, false)
  const D5 := Hex(false, true, false, true)
  const D6 := Hex(false, true, true, false)
  const D7 := Hex(false, true, true, true)
  const D8 := Hex(true, false, false, false)
  const D9 := Hex(true, false, false, true)
  const DA := Hex(true, false, true, false)
  const DB := Hex(true, false, true, true)
  const DC := Hex(true, true, false, false)
  const DD := Hex(true, true, false, true)
  const DE := Hex(true, true, true, false)
  const DF := Hex(true, true, true, true)

  function Bit(b: bool): nat { if b then 1 else 0 }

  /** The number that ends in these bits, and in this digit. */
  function ThenBits(h: nat, p: bool, q: bool): nat { 2 * (2 * h + Bit(p)) + Bit(q) }

  function Then(h: nat, d: Hex): nat { ThenBits(ThenBits(h, d.b3, d.b2), d.b1, d.b0) }

  function XorHex(a: Hex, b: Hex): Hex { Hex(a.b3 != b.b3, a.b2 != b.b2, a.b1 != b.b1, a.b0 != b.b0) }

  function OrHex(a: Hex, b: Hex): Hex { Hex(a.b3 || b.b3, a.b2 || b.b2, a.b1 || b.b1, a.b0 || b.b0) }

  lemma XorNextBit(h: nat, p: bool, h': nat, q: bool)
    ensures Xor(2 * h + Bit(p), 2 * h' + Bit(q)) == 2 * Xor(h, h') + Bit(p != q)
  {
    assert (2 * h + Bit(p)) / 2 == h && (2 * h' + Bit(q)) / 2 == h';
    if h == 0 && h' == 0 {
      XorZero(0);
    }
  }

  lemma XorNextPair(h: nat, p1: bool, p0: bool, h': nat, q1: bool, q0: bool, r: nat)
    requires Xor(h, h') == r
    ensures Xor(ThenBits(h, p1, p0), ThenBits(h', q1, q0)) == ThenBits(r, p1 != q1, p0 != q0)
  {
    hide Xor;
    XorNextBit(h, p1, h', q1);
    XorNextBit(2 * h + Bit(p1), p0, 2 * h' + Bit(q1), q0);
  }

  lemma XorNextDigit(h: nat, a: Hex, h': nat, b: Hex, r: nat)
    requires Xor(h, h') == r
    ensures Xor(Then(h, a), Then(h', b)) == Then(r, XorHex(a, b))
  {
    hide Xor, ThenBits;
    var c := XorHex(a, b);
    XorNextPair(h, a.b3, a.b2, h', b.b3, b.b2, r);
    XorNextPair(ThenBits(h, a.b3, a.b2), a.b1, a.b0, ThenBits(h', b.b3, b.b2), b.b1, b.b0, ThenBits(r, c.b3, c.b2));
  }

  /** Two digits more, where the result for the digits before is known. */
  lemma XorNextTwo(h: nat, a1: Hex, a0: Hex, h': nat, b1: Hex, b0: Hex, r: nat)
    requires Xor(h, h') == r
    ensures Xor(Then(Then(h, a1), a0), Then(Then(h', b1), b0)) == Then(Then(r, XorHex(a1, b1)), XorHex(a0, b0))
  {
    hide Xor, XorHex, Then;
    XorNextDigit(h, a1, h', b1, r);
    XorNextDigit(Then(h, a1), a0, Then(h', b1), b0, Then(r, XorHex(a1, b1)));
  }

  lemma OrNextBit(h: nat, p: bool, h': nat, q: bool)
    ensures Or(2 * h + Bit(p), 2 * h' + Bit(q)) == 2 * Or(h, h') + Bit(p || q)
  {
    assert (2 * h + Bit(p)) / 2 == h && (2 * h' + Bit(q)) / 2 == h';
    if h == 0 && h' == 0 {
      OrZero(0);
    }
  }

  lemma OrNextPair(h: nat, p1: bool, p0: bool, h': nat, q1: bool, q0: bool, r: nat)
    requires Or(h, h') == r
    ensures Or(ThenBits(h, p1, p0), ThenBits(h', q1, q0)) == ThenBits(r, p1 || q1, p0 || q0)
  {
    hide Or;
    OrNextBit(h, p1, h', q1);
    OrNextBit(2 * h + Bit(p1), p0, 2 * h' + Bit(q1), q0);
  }

  lemma OrNextDigit(h: nat, a: Hex, h': nat, b: Hex, r: nat)
    requires Or(h, h') == r
    ensures Or(Then(h, a), Then(h', b)) == Then(r, OrHex(a, b))
  {
    hide Or, ThenBits;
    var c := OrHex(a, b);
    OrNextPair(h, a.b3, a.b2, h', b.b3, b.b2, r);
    OrNextPair(ThenBits(h, a.b3, a.b2), a.b1, a.b0, ThenBits(h', b.b3, b.b2), b.b1, b.b0, ThenBits(r, c.b3, c.b2));
  }

  /** Two digits more, where the result for the digits before is known. */
  lemma OrNextTwo(h: nat, a1: Hex, a0: Hex, h': nat, b1: Hex, b0: Hex, r: nat)
    requires Or(h, h') == r
    ensures Or(Then(Then(h, a1), a0), Then(Then(h', b1), b0)) == Then(Then(r, OrHex(a1, b1)), OrHex(a0, b0))
  {
    hide Or, OrHex, Then;
    OrNextDigit(h, a1, h', b1, r);
    OrNextDigit(Then(h, a1), a0, Then(h', b1), b0, Then(r, OrHex(a1, b1)));
  }

  lemma ShrOf(a: nat, k: nat, p: nat, q: nat, r: nat)
    requires Power2(k) == p && a == q * p + r && r < p
    ensures Shr(a, k) == q
  {
    hide Shr, Shl, Power2;
    Power2Is(k);
    ShrSplits(a, k);
    ShlMultiplies(Shr(a, k), k);
    QuotientIs(a, p, Shr(a, k), a - Shr(a, k) * p);
    QuotientIs(a, p, q, r);
  }

  lemma ImulOf(a: Word, b: Word, q: nat, r: Word)
    requires a * b == q * 0x1_0000_0000 + r
    ensures Imul(a, b) == r
  {
    hide Product;
    ProductIsTimes(a, b);
    RemainderIs(a * b, q, r);
  }

  lemma Powers2()
    ensures Power2(7) == 0x80 && Power2(13) == 0x2000 && Power2(14) == 0x4000 && Power2(15) == 0x8000
    ensures Power2(16) == 0x1_0000
  {
    assert Power2(7) == 0x80;
    assert Power2(13) == 0x2000;
  }

  // ---------------------------------------------------------------- mulberry32(1)

  lemma FirstMixStarts()
    ensures Imul(XorShift(1831565814, 15), Or32(1831565814, 1)) == 2438037344
  {
    hide Xor, Or, Shr, Imul;
    Powers2();
    ShrOf(1831565814, 15, 0x8000, 55894, 31222);
    XorZero(0);
    XorNextTwo(0, D6, DD, 0, D0, D0, 0);
    XorNextTwo(109, D2, DB, 0, D0, D0, 109);
    XorNextTwo(27947, D7, D9, 0, DD, DA, 27947);
    XorNextTwo(7154553, DF, D6, 218, D5, D6, 7154595);
    assert XorShift(1831565814, 15) == 1831576480;
    OrZero(7154553);
    OrNextTwo(7154553, DF, D6, 0, D0, D1, 7154553);
    assert Or(1831565814, 1) == 1831565815;
    ImulOf(1831576480, 1831565815, 781065986, 2438037344);
  }

  lemma FirstMixGoesOn()
    ensures Imul(XorShift(2438037344, 7), Or32(2438037344, 61)) == 2692913190
  {
    hide Xor, Or, Shr, Imul;
    Powers2();
    ShrOf(2438037344, 7, 0x80, 19047166, 96);
    XorZero(0);
    XorNextTwo(0, D9, D1, 0, D0, D1, 0);
    XorNextTwo(145, D5, D1, 1, D2, D2, 144);
    XorNextTwo(37201, D7, DF, 290, DA, D2, 36979);
    XorNextTwo(9523583, D6, D0, 74402, DF, DE, 9466845);
    assert XorShift(2438037344, 7) == 2423512478;
    OrZero(9523583);
    OrNextTwo(9523583, D6, D0, 0, D3, DD, 9523583);
    assert Or(2438037344, 61) == 2438037373;
    ImulOf(2423512478, 2438037373, 1375706399, 2692913190);
  }

  lemma FirstMix()
    ensures Mix(1831565814) == 2693262067
  {
    hide Xor, Or32, Shr, Imul;
    Powers2();
    FirstMixStarts();
    FirstMixGoesOn();
    XorZero(0);
    XorNextTwo(0, D9, D1, 0, D3, D1, 0);
    XorNextTwo(145, D5, D1, 49, DD, D4, 160);
    XorNextTwo(37201, D7, DF, 12756, D1, D7, 41093);
    XorNextTwo(9523583, D6, D0, 3265559, D8, D6, 10519912);
    assert Xor32(2438037344, Add32(2438037344, 2692913190)) == 2693097702;
    ShrOf(2693097702, 14, 0x4000, 164373, 10470);
    XorZero(0);
    XorNextTwo(0, DA, D0, 0, D0, D0, 0);
    XorNextTwo(160, D8, D5, 0, D0, D2, 160);
    XorNextTwo(41093, D6, D8, 2, D8, D2, 41095);
    XorNextTwo(10519912, DE, D6, 642, D1, D5, 10520554);
  }

  lemma SecondMixStarts()
    ensures Imul(XorShift(3663131627, 15), Or32(3663131627, 1)) == 3561611074
  {
    hide Xor, Or, Shr, Imul;
    Powers2();
    ShrOf(3663131627, 15, 0x8000, 111789, 29675);
    XorZero(0);
    XorNextTwo(0, DD, DA, 0, D0, D0, 0);
    XorNextTwo(218, D5, D6, 0, D0, D1, 218);
    XorNextTwo(55894, DF, D3, 1, DB, D4, 55895);
    XorNextTwo(14309107, DE, DB, 436, DA, DD, 14309191);
    assert XorShift(3663131627, 15) == 3663152966;
    OrZero(14309107);
    OrNextTwo(14309107, DE, DB, 0, D0, D1, 14309107);
    assert Or(3663131627, 1) == 3663131627;
    ImulOf(3663152966, 3663131627, 3124263948, 3561611074);
  }

  lemma SecondMixGoesOn()
    ensures Imul(XorShift(3561611074, 7), Or32(3561611074, 61)) == 11580676
  {
    hide Xor, Or, Shr, Imul;
    Powers2();
    ShrOf(3561611074, 7, 0x80, 27825086, 66);
    XorZero(0);
    XorNextTwo(0, DD, D4, 0, D0, D1, 0);
    XorNextTwo(212, D4, D9, 1, DA, D8, 213);
    XorNextTwo(54345, DD, DF, 424, D9, D3, 54753);
    XorNextTwo(13912543, D4, D2, 108691, DB, DE, 14016844);
    assert XorShift(3561611074, 7) == 3588312316;
    OrZero(13912543);
    OrNextTwo(13912543, D4, D2, 0, D3, DD, 13912543);
    assert Or(3561611074, 61) == 3561611135;
    ImulOf(3588312316, 3561611135, 2975615929, 11580676);
  }

  lemma SecondMix()
    ensures Mix(3663131627) == 11749833
  {
    hide Xor, Or32, Shr, Imul;
    Powers2();
    SecondMixStarts();
    SecondMixGoesOn();
    XorZero(0);
    XorNextTwo(0, DD, D4, 0, DD, D4, 0);
    XorNextTwo(212, D4, D9, 212, DF, DA, 0);
    XorNextTwo(54345, DD, DF, 54522, D9, D4, 179);
    XorNextTwo(13912543, D4, D2, 13957780, D4, D6, 45899);
    assert Xor32(3561611074, Add32(3561611074, 11580676)) == 11750148;
    ShrOf(11750148, 14, 0x4000, 717, 2820);
    XorZero(0);
    XorNextTwo(0, D0, D0, 0, D0, D0, 0);
    XorNextTwo(0, DB, D3, 0, D0, D0, 0);
    XorNextTwo(179, D4, DB, 0, D0, D2, 179);
    XorNextTwo(45899, D0, D4, 2, DC, DD, 45897);
  }

  /** From counter 1 on the generator draws the words 2693262067 and 11749833, over 2^32. */
  lemma MulberryReference()
    ensures Draw(1) == 2693262067 && Draw(Advance(1)) == 11749833
  {
    hide Mix;
    RoundedIsExact(1 + STEP);
    RoundedIsExact(1 + STEP + STEP);
    FirstMix();
    SecondMix();
  }

  // ---------------------------------------------------------------- xmur3("hello world")

  /** One round on given numbers: `x` is the hash with the unit in, `q` and `m` its product's parts, and
      `high` and `low` the parts of `m` that are rotated. */
  lemma RoundOf(h: nat, a1: Hex, a0: Hex, b1: Hex, b0: Hex, x: Word, q: nat, high: nat, low: nat)
    requires Then(Then(h, a1), a0) < 0x1_0000_0000 && Then(Then(h, XorHex(a1, b1)), XorHex(a0, b0)) == x
    requires x * 3432918353 == q * 0x1_0000_0000 + high * 0x8_0000 + low && low < 0x8_0000 && high < 0x2000
    ensures Then(Then(0, b1), b0) < 0x1_0000
    ensures AbsorbUnit(Then(Then(h, a1), a0), Then(Then(0, b1), b0)) == low * 0x2000 + high
  {
    hide Xor, Rotate, Imul, XorHex;
    var m: Word := high * 0x8_0000 + low;
    XorZero(h);
    XorNextTwo(h, a1, a0, 0, b1, b0, h);
    ImulOf(x, 3432918353, q, m);
    RotateParts(m, low, high);
  }

  lemma FirstRounds()
    ensures AbsorbUnit(1779033708, 104) == 258510369
    ensures AbsorbUnit(258510369, 101) == 3740305377
    ensures AbsorbUnit(3740305377, 108) == 2509486814
  {
    hide AbsorbUnit;
    RoundOf(6949350, D6, DC, D6, D8, 1779033604, 1421961260, 3617, 31556);
    RoundOf(1009806, D2, D1, D6, D5, 258510404, 206624416, 2017, 456580);
    RoundOf(14610567, DE, D1, D6, DC, 3740305293, 2989583342, 6878, 306333);
  }

  lemma SecondRounds()
    ensures AbsorbUnit(2509486814, 108) == 1804225453
    ensures AbsorbUnit(1804225453, 111) == 3796653561
    ensures AbsorbUnit(3796653561, 32) == 2312453541
  {
    hide AbsorbUnit;
    RoundOf(9802682, DD, DE, D6, DC, 2509486770, 2005804141, 2989, 220242);
    RoundOf(7047755, DA, DD, D6, DF, 1804225474, 1442096834, 5625, 463458);
    RoundOf(14830677, DF, D9, D2, D0, 3796653529, 3034621844, 7589, 282281);
  }

  lemma ThirdRounds()
    ensures AbsorbUnit(2312453541, 119) == 1328435966
    ensures AbsorbUnit(1328435966, 111) == 865875573
    ensures AbsorbUnit(865875573, 114) == 3395745479
  {
    hide AbsorbUnit;
    RoundOf(9033021, DA, D5, D7, D7, 2312453586, 1848317765, 4862, 162162);
    RoundOf(5189202, DF, DE, D6, DF, 1328435857, 1061803622, 5749, 105697);
    RoundOf(3382326, D7, D5, D7, D2, 865875463, 692084377, 5831, 414519);
  }

  lemma LastRounds()
    ensures AbsorbUnit(3395745479, 108) == 1130591407
    ensures AbsorbUnit(1130591407, 100) == 879195369
  {
    hide AbsorbUnit;
    RoundOf(13264630, DC, D7, D6, DC, 3395745451, 2714180592, 5295, 138011);
    RoundOf(4416372, DA, DF, D6, D4, 1130591435, 903668833, 5353, 107323);
  }

  lemma HelloWorldStage1()
    ensures Stage1(879195369) == 1752303450
  {
    hide Xor, Shr, Imul;
    Powers2();
    ShrOf(879195369, 16, 0x10000, 13415, 29929);
    XorZero(0);
    XorNextTwo(0, D3, D4, 0, D0, D0, 0);
    XorNextTwo(52, D6, D7, 0, D0, D0, 52);
    XorNextTwo(13415, D7, D4, 0, D3, D4, 13415);
    XorNextTwo(3434356, DE, D9, 52, D6, D7, 3434304);
    ImulOf(879181966, 2246822507, 459925697, 1752303450);
  }

  lemma HelloWorldStage2()
    ensures Stage2(1752303450) == 2225637842
  {
    hide Xor, Shr, Imul;
    Powers2();
    ShrOf(1752303450, 13, 0x2000, 213904, 1882);
    XorZero(0);
    XorNextTwo(0, D6, D8, 0, D0, D0, 0);
    XorNextTwo(104, D7, D2, 0, D0, D3, 104);
    XorNextTwo(26738, D0, D7, 3, D4, D3, 26737);
    XorNextTwo(6844935, D5, DA, 835, D9, D0, 6844740);
    ImulOf(1752253642, 3266489909, 1332657141, 2225637842);
  }

  lemma HelloWorldStage3()
    ensures XorShift(2225637842, 16) == 2225606010
  {
    hide Xor, Shr, Imul;
    Powers2();
    ShrOf(2225637842, 16, 0x10000, 33960, 35282);
    XorZero(0);
    XorNextTwo(0, D8, D4, 0, D0, D0, 0);
    XorNextTwo(132, DA, D8, 0, D0, D0, 132);
    XorNextTwo(33960, D8, D9, 0, D8, D4, 33960);
    XorNextTwo(8693897, DD, D2, 132, DA, D8, 8693773);
  }

  lemma Absorbs(h: Word, s: JsString, t: JsString, c: CodeUnit, r: Word, r': Word)
    requires t == s + [c] && Absorb(h, s) == r && AbsorbUnit(r, c) == r'
    ensures Absorb(h, t) == r'
  {
    hide AbsorbUnit;
    assert t[..|t| - 1] == s;
  }

  lemma HelloWorldAbsorbed()
    ensures Absorb(1779033708, [104, 101, 108, 108, 111, 32, 119, 111, 114, 108, 100]) == 879195369
  {
    hide AbsorbUnit, Absorb;
    var s: JsString := [104, 101, 108, 108, 111, 32, 119, 111, 114, 108, 100];
    FirstRounds();
    SecondRounds();
    ThirdRounds();
    LastRounds();
    AbsorbsNothing(1779033708, s[..0]);
    Absorbs(1779033708, s[..0], s[..1], 104, 1779033708, 258510369);
    Absorbs(1779033708, s[..1], s[..2], 101, 258510369, 3740305377);
    Absorbs(1779033708, s[..2], s[..3], 108, 3740305377, 2509486814);
    Absorbs(1779033708, s[..3], s[..4], 108, 2509486814, 1804225453);
    Absorbs(1779033708, s[..4], s[..5], 111, 1804225453, 3796653561);
    Absorbs(1779033708, s[..5], s[..6], 32, 3796653561, 2312453541);
    Absorbs(1779033708, s[..6], s[..7], 119, 2312453541, 1328435966);
    Absorbs(1779033708, s[..7], s[..8], 111, 1328435966, 865875573);
    Absorbs(1779033708, s[..8], s[..9], 114, 865875573, 3395745479);
    Absorbs(1779033708, s[..9], s[..10], 108, 3395745479, 1130591407);
    Absorbs(1779033708, s[..10], s[..11], 100, 1130591407, 879195369);
    assert s[..11] == s;
  }

  lemma AbsorbsNothing(h: Word, s: JsString)
    requires s == []
    ensures Absorb(h, s) == h
  {
  }

  /** The first seed drawn for "hello world". */
  lemma XmurReference()
    ensures Seed([104, 101, 108, 108, 111, 32, 119, 111, 114, 108, 100], 1) == 2225606010
  {
    hide Xor, Absorb, Stage1, Stage2, XorShift;
    HelloWorldAbsorbed();
    HelloWorldStage1();
    HelloWorldStage2();
    HelloWorldStage3();
    XorZero(6949350);
    XorNextTwo(6949350, D6, D7, 0, D0, DB, 6949350);
    assert InitialHash(11) == 1779033708;
  }
}
