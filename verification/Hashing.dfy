/** The seed hash `xmur3` and the number generator `mulberry32` (`src/lib/shuffle.ts`). */
module Hashing {
  import opened JsNumbers
  import opened Words

  /** A JavaScript string: a sequence of 16-bit code units. */
  type CodeUnit = n: nat | n < 0x1_0000

  type JsString = seq<CodeUnit>

  // ---------------------------------------------------------------- xmur3

  function InitialHash(length: nat): Word {
    Xor32(1779033703, length % TWO_32)
  }

  function Scramble(x: Word): Word { Imul(x, 3432918353) }

  function Rotate(m: Word): Word {
    Or32(Shl32(m, 13), Shr32(m, 19))
  }

  /** One round of the loop in `xmur3`: fold a code unit into the hash. */
  function AbsorbUnit(h: Word, c: CodeUnit): Word {
    Rotate(Scramble(Xor32(h, c)))
  }

  /** The hash after all the code units of `s`, starting from `h`. */
  function Absorb(h: Word, s: JsString): Word {
    if s == [] then h else AbsorbUnit(Absorb(h, s[..|s| - 1]), s[|s| - 1])
  }

  function XorShift(h: Word, k: nat): Word {
    Xor32(h, Shr32(h, k))
  }

  function Stage1(h: Word): Word { Imul(XorShift(h, 16), 2246822507) }

  function Stage2(h: Word): Word { Imul(XorShift(h, 13), 3266489909) }

  /** What a call of the closure returned by `xmur3` turns the hash into (and returns). */
  function Output(h: Word): Word { XorShift(Stage2(Stage1(h)), 16) }

  function UndoStage1(y: Word): Word { XorShift(Imul(y, 2781581891), 16) }

  function UndoStage2(y: Word): Word {
    var x := Imul(y, 2127672349);
    Xor32(XorShift(x, 13), Shr32(x, 26))
  }

  /** `Output` run backwards: undo the xor-shifts, multiply by the inverse constants. */
  function OutputInverse(y: Word): Word { UndoStage1(UndoStage2(XorShift(y, 16))) }

  /** The n-th value drawn from `xmur3(s)`, counting from one; the zeroth is the absorbed hash. */
  function Seed(s: JsString, n: nat): Word {
    if n == 0 then Absorb(InitialHash(|s|), s) else Output(Seed(s, n - 1))
  }

  // ---------------------------------------------------------------- xmur3 in JavaScript's operators

  function JsRound(h: int, c: CodeUnit): int {
    var m := JsImul(JsXor(h, c), 3432918353);
    JsOr(JsShl(m, 13), JsShr(m, 19))
  }

  function JsAbsorb(h: int, s: JsString): int {
    if s == [] then h else JsRound(JsAbsorb(h, s[..|s| - 1]), s[|s| - 1])
  }

  function JsOutput(h: int): int {
    var x := JsImul(JsXor(h, JsShr(h, 16)), 2246822507);
    var y := JsImul(JsXor(x, JsShr(x, 13)), 3266489909);
    JsXor(y, JsShr(y, 16))
  }

  /** What `h` holds, a signed number, after the loop and `n` draws. */
  function JsSeed(s: JsString, n: nat): int {
    if n == 0 then JsAbsorb(JsXor(1779033703, |s|), s) else JsOutput(JsSeed(s, n - 1))
  }

  lemma RoundIs(h: int, c: CodeUnit)
    ensures ToUint32(JsRound(h, c)) == AbsorbUnit(ToUint32(h), c)
  {
    hide JsXor, JsOr, JsShl, JsShr, JsImul, Xor32, Or32, Shl32, Shr32, Imul;
    var m := JsImul(JsXor(h, c), 3432918353);
    XorIs(h, c);
    ImulIs(JsXor(h, c), 3432918353);
    ShlIs(m, 13);
    ShrIs(m, 19);
    OrIs(JsShl(m, 13), JsShr(m, 19));
  }

  lemma XorShiftIs(h: int, k: nat)
    ensures ToUint32(JsXor(h, JsShr(h, k))) == XorShift(ToUint32(h), k)
  {
    hide JsXor, JsShr, Xor32, Shr32;
    ShrIs(h, k);
    XorIs(h, JsShr(h, k));
  }

  lemma OutputIs(h: int)
    ensures ToUint32(JsOutput(h)) == Output(ToUint32(h))
  {
    hide JsXor, JsShr, JsImul, XorShift, Imul;
    var x := JsImul(JsXor(h, JsShr(h, 16)), 2246822507);
    var y := JsImul(JsXor(x, JsShr(x, 13)), 3266489909);
    XorShiftIs(h, 16);
    ImulIs(JsXor(h, JsShr(h, 16)), 2246822507);
    XorShiftIs(x, 13);
    ImulIs(JsXor(x, JsShr(x, 13)), 3266489909);
    XorShiftIs(y, 16);
  }

  lemma {:induction false} AbsorbIs(h: int, s: JsString)
    ensures ToUint32(JsAbsorb(h, s)) == Absorb(ToUint32(h), s)
  {
    hide JsRound, AbsorbUnit;
    if s != [] {
      AbsorbIs(h, s[..|s| - 1]);
      RoundIs(JsAbsorb(h, s[..|s| - 1]), s[|s| - 1]);
    }
  }

  /** The words of this model are what JavaScript's operators compute, at every draw from every string. */
  lemma {:induction false} SeedIs(s: JsString, n: nat)
    ensures ToUint32(JsSeed(s, n)) == Seed(s, n)
  {
    hide JsAbsorb, JsOutput, Absorb, Output, JsXor, Xor32;
    if n == 0 {
      XorIs(1779033703, |s|);
      AbsorbIs(JsXor(1779033703, |s|), s);
    } else {
      SeedIs(s, n - 1);
      OutputIs(JsSeed(s, n - 1));
    }
  }

  class Xmur3 {
    var h: int

    constructor (str: JsString)
      ensures h == JsSeed(str, 0) && ToUint32(h) == Seed(str, 0)
    {
      hide JsXor, JsOr, JsShl, JsShr, JsImul;
      var hash := JsXor(1779033703, |str|);
      for i := 0 to |str|
        invariant hash == JsAbsorb(JsXor(1779033703, |str|), str[..i])
      {
        assert str[..i + 1][..i] == str[..i];
        hash := JsImul(JsXor(hash, str[i]), 3432918353);
        hash := JsOr(JsShl(hash, 13), JsShr(hash, 19));
      }
      assert str[..|str|] == str;
      SeedIs(str, 0);
      h := hash;
    }

    method Next() returns (seed: int)
      modifies this
      ensures h == JsOutput(old(h))
      ensures seed == ToUint32(h) == Output(ToUint32(old(h)))
    {
      hide JsXor, JsImul, Output;
      OutputIs(h);
      h := JsImul(JsXor(h, JsShr(h, 16)), 2246822507);
      h := JsImul(JsXor(h, JsShr(h, 13)), 3266489909);
      h := JsXor(h, JsShr(h, 16));
      seed := JsShr(h, 0);
    }
  }

  /** A shift by at least 16 bits is undone by repeating the step. */
  lemma XorShift16Twice(x: Word)
    ensures XorShift(XorShift(x, 16), 16) == x
  {
    XorShiftsRight(x, Shr(x, 16), 16);
    ShrAdds(x, 16, 16);
    Powers();
    ShrIsZero(x, 32);
    XorTelescopes(x, Shr(x, 16), 0);
    XorZero(x);
  }

  lemma XorShift13Undone(x: Word)
    ensures var y := XorShift(x, 13); Xor32(XorShift(y, 13), Shr32(y, 26)) == x
    ensures var y := Xor32(XorShift(x, 13), Shr32(x, 26)); XorShift(y, 13) == x
  {
    var x13, x26, x39 := Shr(x, 13), Shr(x, 26), Shr(x, 39);
    ShrAdds(x, 13, 13);
    ShrAdds(x, 13, 26);
    ShrAdds(x, 26, 13);
    ShrAdds(x, 32, 7);
    Powers();
    ShrIsZero(x, 32);
    assert x39 == 0;
    XorZero(x);
    XorZero(x26);
    // y = x ^ x13, so y >>> 13 = x13 ^ x26 and y >>> 26 = x26
    XorShiftsRight(x, x13, 13);
    XorShiftsRight(x, x13, 26);
    XorTelescopes(x, x13, x26);
    XorCancels(x, x26);
    // y = (x ^ x13) ^ x26, so y >>> 13 = (x13 ^ x26) ^ 0
    XorShiftsRight(Xor(x, x13), x26, 13);
    XorZero(Xor(x13, x26));
    Xor3(x, x13, x26);
  }

  lemma {:induction false} Xor3(a: nat, b: nat, c: nat)
    ensures Xor(Xor(Xor(a, b), c), Xor(b, c)) == a
    decreases a + b + c
  {
    if a != 0 || b != 0 || c != 0 {
      XorDigit(a, b);
      XorDigit(b, c);
      XorDigit(Xor(a, b), c);
      Xor3(a / 2, b / 2, c / 2);
    }
  }

  lemma Stage1IsBijective(x: Word)
    ensures UndoStage1(Stage1(x)) == x
    ensures Stage1(UndoStage1(x)) == x
  {
    ImulInverse(XorShift(x, 16), 2246822507, 2781581891);
    XorShift16Twice(x);
    XorShift16Twice(Imul(x, 2781581891));
    ImulInverse(x, 2781581891, 2246822507);
  }

  lemma Stage2IsBijective(x: Word)
    ensures UndoStage2(Stage2(x)) == x
    ensures Stage2(UndoStage2(x)) == x
  {
    ImulInverse(XorShift(x, 13), 3266489909, 2127672349);
    XorShift13Undone(x);
    XorShift13Undone(Imul(x, 2127672349));
    ImulInverse(x, 2127672349, 3266489909);
  }

  /** The output step is a bijection on 32-bit words. */
  lemma OutputIsBijective(h: Word)
    ensures OutputInverse(Output(h)) == h
    ensures Output(OutputInverse(h)) == h
  {
    XorShift16Twice(Stage2(Stage1(h)));
    Stage2IsBijective(Stage1(h));
    Stage1IsBijective(h);
    Stage1IsBijective(UndoStage2(XorShift(h, 16)));
    Stage2IsBijective(XorShift(h, 16));
    XorShift16Twice(h);
  }

  /** Rotating by 13 moves the high 13 bits below the low 19. */
  lemma RotateParts(x: Word, low: nat, high: nat)
    requires x == high * 0x8_0000 + low && low < 0x8_0000 && high < 0x2000
    ensures Rotate(x) == low * 0x2000 + high
  {
    Powers();
    ShlMultiplies(x, 13);
    ShlMultiplies(low, 13);
    assert Shl(x, 13) == high * TWO_32 + low * 0x2000;
    RemainderIs(Shl(x, 13), high, low * 0x2000);
    ShrSplits(x, 19);
    ShlMultiplies(Shr(x, 19), 19);
    OrOfDisjoint(low, high, 13);
  }

  lemma RotateInjective(x: Word, y: Word)
    requires Rotate(x) == Rotate(y)
    ensures x == y
  {
    RotateParts(x, x % 0x8_0000, x / 0x8_0000);
    RotateParts(y, y % 0x8_0000, y / 0x8_0000);
    SameParts(x % 0x8_0000, x / 0x8_0000, y % 0x8_0000, y / 0x8_0000);
  }

  lemma SameParts(low: nat, high: nat, low': nat, high': nat)
    requires low * 0x2000 + high == low' * 0x2000 + high'
    requires high < 0x2000 && high' < 0x2000
    ensures low == low' && high == high'
  {
  }

  lemma ScrambleInjective(x: Word, y: Word)
    requires Scramble(x) == Scramble(y)
    ensures x == y
  {
    ImulInverse(x, 3432918353, 3739302833);
    ImulInverse(y, 3432918353, 3739302833);
  }

  /** A round of absorption loses nothing: it is injective in the hash, and in the code unit. */
  lemma AbsorbUnitInjective(h: Word, c: CodeUnit, h': Word, c': CodeUnit)
    requires AbsorbUnit(h, c) == AbsorbUnit(h', c')
    ensures h == h' <==> c == c'
  {
    var x, x' := Xor32(h, c), Xor32(h', c');
    RotateInjective(Scramble(x), Scramble(x'));
    ScrambleInjective(x, x');
    XorInjective(h, c, h', c');
  }

  /** Absorbing the same code units keeps distinct hashes distinct. */
  lemma {:induction false} AbsorbInjective(h: Word, h': Word, s: JsString)
    requires Absorb(h, s) == Absorb(h', s)
    ensures h == h'
  {
    if s != [] {
      var init, last := s[..|s| - 1], s[|s| - 1];
      AbsorbUnitInjective(Absorb(h, init), last, Absorb(h', init), last);
      AbsorbInjective(h, h', init);
    }
  }

  lemma {:induction false} AbsorbConcat(h: Word, s: JsString, t: JsString)
    ensures Absorb(h, s + t) == Absorb(Absorb(h, s), t)
  {
    if t == [] {
      assert s + t == s;
    } else {
      assert (s + t)[..|s + t| - 1] == s + t[..|t| - 1];
      AbsorbConcat(h, s, t[..|t| - 1]);
    }
  }

  lemma OneUnitChangesHash(h: Word, a: JsString, c: CodeUnit, c': CodeUnit, b: JsString)
    requires c != c'
    ensures Absorb(h, a + [c] + b) != Absorb(h, a + [c'] + b)
  {
    var u, u' := Absorb(h, a + [c]), Absorb(h, a + [c']);
    AbsorbConcat(h, a + [c], b);
    AbsorbConcat(h, a + [c'], b);
    assert (a + [c])[..|a|] == a && (a + [c'])[..|a|] == a;
    if Absorb(u, b) == Absorb(u', b) {
      AbsorbInjective(u, u', b);
      AbsorbUnitInjective(Absorb(h, a), c, Absorb(h, a), c');
    }
  }

  /** Two seed strings that differ in exactly one code unit never share a seed, whichever draw of
      the hash is taken. */
  lemma {:induction false} OneUnitChangesSeed(a: JsString, c: CodeUnit, c': CodeUnit, b: JsString, n: nat)
    requires c != c'
    ensures Seed(a + [c] + b, n) != Seed(a + [c'] + b, n)
  {
    hide Output, OutputInverse;
    var s, s' := a + [c] + b, a + [c'] + b;
    if n == 0 {
      OneUnitChangesHash(InitialHash(|s|), a, c, c', b);
    } else {
      OneUnitChangesSeed(a, c, c', b, n - 1);
      OutputIsBijective(Seed(s, n - 1));
      OutputIsBijective(Seed(s', n - 1));
    }
  }

  // ---------------------------------------------------------------- mulberry32

  const STEP: nat := 0x6d2b79f5
  const TWO_53: nat := 0x20_0000_0000_0000

  /** The 32-bit word that one call turns the counter's low 32 bits into. */
  function Mix(a: Word): Word {
    var t := Imul(XorShift(a, 15), Or32(a, 1));
    var u := Xor32(t, Add32(t, Imul(XorShift(t, 7), Or32(t, 61))));
    XorShift(u, 14)
  }

  /** How many low bits of `x` do not fit the 53-bit significand of a double. */
  function ExcessBits(x: nat): nat {
    if x < TWO_53 then 0 else 1 + ExcessBits(x / 2)
  }

  /** `x` rounded to the nearest double, ties to even. */
  function Rounded(x: nat): nat {
    var e := ExcessBits(x);
    if e == 0 then x
    else
      var q := Shr(x, e);
      var low, half := x - Shl(q, e), Shl(1, e - 1);
      if low < half || (low == half && q % 2 == 0) then Shl(q, e) else Shl(q + 1, e)
  }

  /** The counter of `mulberry32` after one more call: a double that is never wrapped. */
  function Advance(a: nat): nat { Rounded(a + STEP) }

  /** The counter after `n` calls. */
  function Counter(seed: nat, n: nat): nat {
    if n == 0 then seed else Advance(Counter(seed, n - 1))
  }

  /** The counter of the 32-bit generator that `mulberry32` is meant to be. */
  function WrappedCounter(seed: nat, n: nat): Word {
    if n == 0 then seed % TWO_32 else Add32(WrappedCounter(seed, n - 1), STEP)
  }

  /** The draws of `random()` are words over 2^32; this is the word. */
  function Draw(a: nat): Word { Mix(Advance(a) % TWO_32) }

  /** The word of the draw, in JavaScript's operators, with `a` the counter after its advance: the sum of
      `t` and a product is not wrapped but by the `^` that takes it. */
  function JsDraw(a: int): int {
    var t := JsImul(JsXor(a, JsShr(a, 15)), JsOr(a, 1));
    var u := JsXor(t, t + JsImul(JsXor(t, JsShr(t, 7)), JsOr(t, 61)));
    JsShr(JsXor(u, JsShr(u, 14)), 0)
  }

  /** The word drawn is what JavaScript's operators compute, for every counter. */
  lemma DrawIs(a: nat)
    ensures JsDraw(Advance(a)) == Draw(a)
  {
    MixIs(Advance(a));
  }

  lemma MixIs(a: int)
    ensures JsDraw(a) == Mix(ToUint32(a))
  {
    hide JsXor, JsOr, JsImul, XorShift, Xor32, Or32, Imul, Add32;
    var t := JsImul(JsXor(a, JsShr(a, 15)), JsOr(a, 1));
    XorShiftIs(a, 15);
    OrIs(a, 1);
    ImulIs(JsXor(a, JsShr(a, 15)), JsOr(a, 1));
    var m := JsImul(JsXor(t, JsShr(t, 7)), JsOr(t, 61));
    XorShiftIs(t, 7);
    OrIs(t, 61);
    ImulIs(JsXor(t, JsShr(t, 7)), JsOr(t, 61));
    AddIs(t, m);
    XorIs(t, t + m);
    XorShiftIs(JsXor(t, t + m), 14);
  }

  class Mulberry32 {
    var a: nat

    constructor (seed: nat)
      ensures a == seed
    {
      a := seed;
    }

    method Next() returns (word: int)
      modifies this
      ensures a == Advance(old(a))
      ensures word == JsDraw(a) == Draw(old(a))
    {
      hide JsXor, JsOr, JsImul, Draw, Rounded;
      DrawIs(a);
      a := Rounded(a + STEP);
      var t: int := a;
      t := JsImul(JsXor(t, JsShr(t, 15)), JsOr(t, 1));
      t := JsXor(t, t + JsImul(JsXor(t, JsShr(t, 7)), JsOr(t, 61)));
      word := JsShr(JsXor(t, JsShr(t, 14)), 0);
    }
  }

  /** While the counter stays below 2^53 it is exact. */
  lemma {:induction false} CounterIsExact(seed: nat, n: nat)
    requires seed + n * STEP < TWO_53
    ensures Counter(seed, n) == seed + n * STEP
  {
    if n != 0 {
      CounterIsExact(seed, n - 1);
      RoundedIsExact(seed + n * STEP);
    }
  }

  lemma RoundedIsExact(x: nat)
    requires x < TWO_53
    ensures Rounded(x) == x
  {
  }

  /** While the counter stays below 2^53 the generator is the 32-bit one. */
  lemma {:induction false} CounterWraps(seed: nat, n: nat)
    requires seed + n * STEP < TWO_53
    ensures Counter(seed, n) % TWO_32 == WrappedCounter(seed, n)
  {
    CounterIsExact(seed, n);
    if n != 0 {
      CounterIsExact(seed, n - 1);
      CounterWraps(seed, n - 1);
      AddWraps(Counter(seed, n - 1), STEP);
    }
  }

  lemma AddWraps(x: nat, y: Word)
    ensures (x + y) % TWO_32 == Add32(x % TWO_32, y)
  {
  }

  lemma {:induction false} WrappedCounterIs(seed: nat, n: nat)
    ensures WrappedCounter(seed, n) == (seed + n * STEP) % TWO_32
  {
    if n != 0 {
      WrappedCounterIs(seed, n - 1);
      AddWraps(seed + (n - 1) * STEP, STEP);
    }
  }

  /** Between 2^53 and 2^54 doubles are the even numbers: odd sums go to a neighbour. */
  lemma RoundedToEven(x: nat)
    requires TWO_53 <= x < 2 * TWO_53
    ensures if x % 2 == 0 then Rounded(x) == x else Rounded(x) == x - 1 || Rounded(x) == x + 1
  {
    var q := x / 2;
    assert ExcessBits(q) == 0 && ExcessBits(x) == 1;
    assert Shr(x, 1) == Shr(q, 0) == q;
    assert Shl(q, 0) == q && Shl(q + 1, 0) == q + 1;
    assert Shl(q, 1) == 2 * q && Shl(q + 1, 1) == 2 * q + 2 && Shl(1, 0) == 1;
  }

  /** The sums of the counter up to the n-th are all below 2^53, or the last is the first to reach it, and
      even. */
  predicate SumsAreDoubles(seed: nat, n: nat) {
    || seed + n * STEP < TWO_53
    || (seed + (n - 1) * STEP < TWO_53 && (seed + n * STEP) % 2 == 0)
  }

  /** The counter agrees with the wrapping one in all draws up to the n-th, if and only if all sums up to
      the n-th are doubles: the step is odd, so that past 2^53 one of two sums is not. */
  lemma CounterWrapsExactly(seed: nat, n: nat)
    requires seed < TWO_53
    ensures (forall k: nat | k <= n :: Counter(seed, k) % TWO_32 == WrappedCounter(seed, k))
            <==> SumsAreDoubles(seed, n)
  {
    if SumsAreDoubles(seed, n) {
      forall k: nat | k <= n ensures Counter(seed, k) % TWO_32 == WrappedCounter(seed, k) {
        StepsGrow(seed, k, n);
        if seed + k * STEP < TWO_53 {
          CounterWraps(seed, k);
        } else {
          CounterReaches(seed, k);
        }
      }
    } else {
      var k := FirstReaching(seed, n);
      CounterReaches(seed, k);
      if (seed + k * STEP) % 2 == 0 {
        StepsGrow(seed, k + 1, n);
        CounterLeaves(seed, k + 1);
      }
    }
  }

  lemma StepsGrow(seed: nat, i: nat, j: nat)
    requires i <= j
    ensures seed + i * STEP <= seed + j * STEP
    ensures i < j ==> seed + i * STEP <= seed + (j - 1) * STEP
  {
  }

  /** The first sum to reach 2^53. */
  lemma {:induction false} FirstReaching(seed: nat, n: nat) returns (k: nat)
    requires seed < TWO_53 <= seed + n * STEP
    ensures 0 < k <= n && seed + (k - 1) * STEP < TWO_53 <= seed + k * STEP
  {
    if seed + (n - 1) * STEP < TWO_53 {
      k := n;
    } else {
      k := FirstReaching(seed, n - 1);
    }
  }

  lemma CounterReaches(seed: nat, k: nat)
    requires k > 0 && seed + (k - 1) * STEP < TWO_53 <= seed + k * STEP
    ensures Counter(seed, k) == Rounded(seed + k * STEP)
    ensures Counter(seed, k) % TWO_32 == WrappedCounter(seed, k) <==> (seed + k * STEP) % 2 == 0
  {
    CounterIsExact(seed, k - 1);
    WrappedCounterIs(seed, k);
    RoundedToEven(seed + k * STEP);
    NeighboursDiffer(seed + k * STEP);
  }

  lemma CounterLeaves(seed: nat, k: nat)
    requires k > 1 && seed + (k - 2) * STEP < TWO_53 <= seed + (k - 1) * STEP
    requires (seed + (k - 1) * STEP) % 2 == 0
    ensures Counter(seed, k) % TWO_32 != WrappedCounter(seed, k)
  {
    hide Rounded, WrappedCounter;
    var x := seed + (k - 1) * STEP;
    CounterReaches(seed, k - 1);
    RoundedToEven(x);
    assert Counter(seed, k) == Rounded(x + STEP);
    WrappedCounterIs(seed, k);
    assert seed + k * STEP == x + STEP;
    RoundedToEven(x + STEP);
    NeighboursDiffer(x + STEP);
  }

  lemma NeighboursDiffer(x: nat)
    requires x > 0
    ensures (x - 1) % TWO_32 != x % TWO_32 && (x + 1) % TWO_32 != x % TWO_32
  {
  }

  /** No two draws below 2^53 start from the same 32-bit state: the step is odd. */
  lemma StatesAreDistinct(seed: nat, i: nat, j: nat)
    requires i < j && seed + j * STEP < TWO_53
    ensures Counter(seed, i) % TWO_32 != Counter(seed, j) % TWO_32
  {
    CounterIsExact(seed, i);
    CounterIsExact(seed, j);
    assert j < TWO_32;
    OddStepsDiffer(Counter(seed, i), j - i);
  }

  lemma OddStepsDiffer(x: nat, d: nat)
    requires 0 < d < TWO_32
    ensures x % TWO_32 != (x + d * STEP) % TWO_32
  {
    if x % TWO_32 == (x + d * STEP) % TWO_32 {
      var k := SameRemainder(x, x + d * STEP);
      Powers();
      OddFactor(d, STEP, k, 32);
      var m: nat :| d == Shl(m, 32);
      ShlMultiplies(m, 32);
    }
  }

  lemma SameRemainder(x: nat, y: nat) returns (k: int)
    requires x % TWO_32 == y % TWO_32
    ensures y - x == k * TWO_32
  {
    k := y / TWO_32 - x / TWO_32;
  }

  /** An odd factor does not help a product to be divisible by a power of two. */
  lemma {:induction false} OddFactor(d: nat, odd: nat, k: int, n: nat)
    requires odd % 2 == 1 && d * odd == k * Shl(1, n)
    ensures exists m: nat :: d == Shl(m, n)
  {
    if n == 0 {
      assert d == Shl(d, 0);
    } else {
      var half := k * Shl(1, n - 1);
      assert d * odd == 2 * half;
      var h := EvenFactor(d, odd, half);
      OddFactor(h, odd, k, n - 1);
      var m: nat :| h == Shl(m, n - 1);
      assert d == Shl(m, n);
    }
  }

  lemma EvenFactor(d: nat, odd: nat, half: int) returns (h: nat)
    requires odd % 2 == 1 && d * odd == 2 * half
    ensures d == 2 * h && h * odd == half
  {
    h := d / 2;
    assert d * odd == 2 * (h * odd) + (d % 2) * odd;
  }
}
