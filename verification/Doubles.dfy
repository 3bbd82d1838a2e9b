/** Rounding to doubles, as `Hashing` computes it for the counter of `mulberry32`, against section 4.3.1 of
    IEEE 754-2019: to the nearest, and of two nearest to the one with an even significand. */
module Doubles {
  import opened Arithmetic
  import opened Hashing
  import opened JsNumbers
  import opened Words

  function Scaled(m: nat, e: nat): nat { m * Power2(e) }

  /** A natural number with a significand of 53 bits. */
  ghost predicate IsDouble(d: nat) {
    exists m, e :: d == Scaled(m, e) && m < 0x20_0000_0000_0000
  }

  function Distance(x: nat, y: nat): nat {
    if x <= y then y - x else x - y
  }

  lemma {:induction false} ExcessIs(x: nat)
    ensures var e := ExcessBits(x);
            x < 0x20_0000_0000_0000 * Power2(e) && (e > 0 ==> x >= 0x10_0000_0000_0000 * Power2(e))
  {
    if x >= 0x20_0000_0000_0000 {
      ExcessIs(x / 2);
    }
  }

  /** The double below, in units of its last place, and what is left over. */
  lemma Parts(x: nat, e: nat) returns (q: nat, low: nat)
    requires e == ExcessBits(x) && e > 0
    ensures q == Shr(x, e) && x == q * Power2(e) + low && low < Power2(e)
    ensures 0x10_0000_0000_0000 <= q < 0x20_0000_0000_0000
  {
    hide Shr, Shl, Power2, ExcessBits;
    var p := Power2(e);
    ExcessIs(x);
    Power2Is(e);
    ShrSplits(x, e);
    q := Shr(x, e);
    ShlMultiplies(q, e);
    low := x - q * p;
    Leading(x, q, low, p);
  }

  lemma Leading(x: nat, q: nat, low: nat, p: nat)
    requires x == q * p + low && low < p && 0x10_0000_0000_0000 * p <= x < 0x20_0000_0000_0000 * p
    ensures 0x10_0000_0000_0000 <= q < 0x20_0000_0000_0000
  {
    if q >= 0x20_0000_0000_0000 {
      ProductAtMost(0x20_0000_0000_0000, q, p);
    }
    if q + 1 <= 0x10_0000_0000_0000 {
      ProductAtMost(q + 1, 0x10_0000_0000_0000, p);
    }
  }

  lemma RoundedIs(x: nat, e: nat, q: nat, low: nat)
    requires e == ExcessBits(x) && e > 0 && q == Shr(x, e) && x == q * Power2(e) + low && low < Power2(e)
    ensures Power2(e) == 2 * Power2(e - 1)
    ensures Rounded(x) ==
            if low < Power2(e - 1) || (low == Power2(e - 1) && q % 2 == 0) then q * Power2(e) else (q + 1) * Power2(e)
  {
    hide Shr, Shl, ExcessBits;
    Power2Is(e - 1);
    Power2Is(e);
    ShlMultiplies(q, e);
    ShlMultiplies(q + 1, e);
  }

  lemma {:induction false} PowersMultiply(e: nat, f: nat)
    ensures Power2(e + f) == Power2(e) * Power2(f)
  {
    if e > 0 {
      PowersMultiply(e - 1, f);
    }
  }

  lemma ProductAtMost(a: nat, b: nat, p: nat)
    requires a <= b
    ensures a * p <= b * p
  {
  }

  /** Between neighbours there is no double. */
  lemma NoneBetween(d: nat, q: nat, e: nat)
    requires IsDouble(d) && e > 0 && 0x10_0000_0000_0000 <= q
    ensures d <= q * Power2(e) || d >= (q + 1) * Power2(e)
  {
    hide Power2;
    var p := Power2(e);
    var m: nat, f: nat :| d == Scaled(m, f) && m < 0x20_0000_0000_0000;
    if f >= e {
      PowersMultiply(f - e, e);
      var k := Scaled(m, f - e);
      assert d == k * p by {
        Reassociated(m, Power2(f - e), p);
      }
      if k <= q {
        ProductAtMost(k, q, p);
      } else {
        ProductAtMost(q + 1, k, p);
      }
    } else {
      SmallerScale(m, f, e);
      ProductAtMost(0x10_0000_0000_0000, q, p);
    }
  }

  lemma Reassociated(a: nat, b: nat, c: nat)
    ensures a * (b * c) == (a * b) * c
  {
  }

  lemma SmallerScale(m: nat, f: nat, e: nat)
    requires f < e && m < 0x20_0000_0000_0000
    ensures m * Power2(f) <= 0x10_0000_0000_0000 * Power2(e)
  {
    var g, h := Power2(e - 1 - f), Power2(f);
    PowersMultiply(e - 1 - f, f);
    assert Power2(e) == 2 * (g * h);
    ProductAtMost(1, g, h);
    ProductAtMost(m, 0x20_0000_0000_0000, h);
  }

  lemma NeighboursAreDoubles(q: nat, e: nat)
    requires q < 0x20_0000_0000_0000
    ensures IsDouble(q * Power2(e)) && IsDouble((q + 1) * Power2(e))
  {
    assert q * Power2(e) == Scaled(q, e);
    if q + 1 < 0x20_0000_0000_0000 {
      assert (q + 1) * Power2(e) == Scaled(q + 1, e);
    } else {
      assert (q + 1) * Power2(e) == Scaled(0x10_0000_0000_0000, e + 1);
    }
  }

  lemma IsMultiple(k: nat, p: nat)
    requires p > 0
    ensures (k * p) % p == 0
  {
    QuotientIs(k * p, p, k, 0);
  }

  lemma HalfMultiple(m: nat, p: nat)
    requires m % 2 == 0 && p > 0
    ensures (m * p) % (2 * p) == 0
  {
    assert m * p == (m / 2) * (2 * p);
    IsMultiple(m / 2, 2 * p);
  }

  /** The rounded number is a double, none is nearer, and where another is as near, its significand is even:
      it is a multiple of twice their distance. */
  lemma RoundedIsNearest(x: nat, d: nat)
    ensures IsDouble(Rounded(x))
    ensures IsDouble(d) ==> Distance(x, Rounded(x)) <= Distance(x, d)
    ensures IsDouble(d) && d != Rounded(x) && Distance(x, d) == Distance(x, Rounded(x)) ==>
              Rounded(x) % (2 * Distance(d, Rounded(x))) == 0
  {
    hide Power2, IsDouble, Shr, Shl, ExcessBits;
    var e := ExcessBits(x);
    if e == 0 {
      ExcessIs(x);
      SmallIsDouble(x);
    } else {
      var q, low := Parts(x, e);
      var p := Power2(e);
      RoundedIs(x, e, q, low);
      NeighboursAreDoubles(q, e);
      assert (q + 1) * p == q * p + p;
      if IsDouble(d) {
        NoneBetween(d, q, e);
        if q % 2 == 0 {
          HalfMultiple(q, p);
        } else {
          HalfMultiple(q + 1, p);
        }
      }
    }
  }

  lemma SmallIsDouble(x: nat)
    requires x < 0x20_0000_0000_0000 * Power2(0)
    ensures IsDouble(x)
  {
    assert x == Scaled(x, 0);
  }
}
