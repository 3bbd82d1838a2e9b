/** 32-bit unsigned words and the bitwise operators of JavaScript on them, written on natural
    numbers.  `^`, `|` and `>>>` are `Xor`, `Or` and `Shr`; `Math.imul` is a product modulo 2^32. */
module Words {

  const TWO_32: nat := 0x1_0000_0000

  type Word = n: nat | n < TWO_32

  /** Exclusive or, bit by bit. */
  function Xor(a: nat, b: nat): nat {
    if a == 0 && b == 0 then 0
    else (if a % 2 == b % 2 then 0 else 1) + 2 * Xor(a / 2, b / 2)
  }

  /** Inclusive or, bit by bit. */
  function Or(a: nat, b: nat): nat {
    if a == 0 && b == 0 then 0
    else (if a % 2 == 1 || b % 2 == 1 then 1 else 0) + 2 * Or(a / 2, b / 2)
  }

  /** Logical right shift by `k` bits. */
  function Shr(a: nat, k: nat): nat {
    if k == 0 then a else Shr(a / 2, k - 1)
  }

  /** `2^k * a`. */
  function Shl(a: nat, k: nat): nat {
    if k == 0 then a else 2 * Shl(a, k - 1)
  }

  function Xor32(a: Word, b: Word): Word {
    Powers();
    XorBound(a, b, 32);
    Xor(a, b)
  }

  function Or32(a: Word, b: Word): Word {
    Powers();
    OrBound(a, b, 32);
    Or(a, b)
  }

  function Shr32(a: Word, k: nat): Word {
    ShrBound(a, k);
    Shr(a, k)
  }

  function Shl32(a: Word, k: nat): Word { Shl(a, k) % TWO_32 }

  /** `a * b` by shift and add; `ProductIsTimes` ties it to the integer product. */
  function Product(a: nat, b: nat): nat {
    if a == 0 then 0 else (if a % 2 == 1 then b else 0) + 2 * Product(a / 2, b)
  }

  function Imul(a: Word, b: Word): Word { Product(a, b) % TWO_32 }

  function Add32(a: Word, b: Word): Word { (a + b) % TWO_32 }

  lemma Powers()
    ensures Shl(1, 13) == 0x2000 && Shl(1, 19) == 0x8_0000 && Shl(1, 32) == TWO_32
  {
    assert Shl(1, 13) == 0x2000;
    assert Shl(1, 19) == 0x8_0000;
    assert Shl(1, 32) == TWO_32;
  }

  lemma {:induction false} ShrBound(a: nat, k: nat)
    ensures Shr(a, k) <= a
  {
    if k != 0 {
      ShrBound(a / 2, k - 1);
    }
  }

  lemma {:induction false} XorBound(a: nat, b: nat, n: nat)
    requires a < Shl(1, n) && b < Shl(1, n)
    ensures Xor(a, b) < Shl(1, n)
  {
    if a != 0 || b != 0 {
      XorBound(a / 2, b / 2, n - 1);
    }
  }

  lemma {:induction false} OrBound(a: nat, b: nat, n: nat)
    requires a < Shl(1, n) && b < Shl(1, n)
    ensures Or(a, b) < Shl(1, n)
  {
    if a != 0 || b != 0 {
      OrBound(a / 2, b / 2, n - 1);
    }
  }

  lemma {:induction false} XorZero(a: nat)
    ensures Xor(a, 0) == a
  {
    if a != 0 {
      XorZero(a / 2);
    }
  }

  lemma Digits(low: nat, high: nat)
    requires low < 2
    ensures (low + 2 * high) % 2 == low && (low + 2 * high) / 2 == high
  {
  }

  lemma XorDigit(a: nat, b: nat)
    ensures Xor(a, b) % 2 == if a % 2 == b % 2 then 0 else 1
    ensures Xor(a, b) / 2 == Xor(a / 2, b / 2)
  {
    Digits(if a % 2 == b % 2 then 0 else 1, Xor(a / 2, b / 2));
  }

  /** The middle term of two exclusive ors cancels. */
  lemma {:induction false} XorTelescopes(a: nat, b: nat, c: nat)
    ensures Xor(Xor(a, b), Xor(b, c)) == Xor(a, c)
    decreases a + b + c
  {
    if a != 0 || b != 0 || c != 0 {
      XorTelescopes(a / 2, b / 2, c / 2);
      XorDigit(a, b);
      XorDigit(b, c);
    }
  }

  lemma XorCancels(a: nat, b: nat)
    ensures Xor(Xor(a, b), b) == a
  {
    XorTelescopes(a, b, 0);
    XorZero(a);
    XorZero(b);
  }

  lemma {:induction false} XorSymmetric(a: nat, b: nat)
    ensures Xor(a, b) == Xor(b, a)
    decreases a + b
  {
    if a != 0 || b != 0 {
      XorSymmetric(a / 2, b / 2);
    }
  }

  lemma XorInjective(a: nat, b: nat, a': nat, b': nat)
    requires Xor(a, b) == Xor(a', b')
    ensures a == a' <==> b == b'
  {
    XorCancels(a, b);
    XorCancels(a', b');
    XorSymmetric(a, b);
    XorSymmetric(a', b');
    XorCancels(b, a);
    XorCancels(b', a');
  }

  /** Shifting right distributes over exclusive or. */
  lemma {:induction false} XorShiftsRight(a: nat, b: nat, k: nat)
    ensures Shr(Xor(a, b), k) == Xor(Shr(a, k), Shr(b, k))
  {
    if k != 0 {
      XorDigit(a, b);
      XorShiftsRight(a / 2, b / 2, k - 1);
    }
  }

  lemma {:induction false} ShrAdds(a: nat, j: nat, k: nat)
    ensures Shr(Shr(a, j), k) == Shr(a, j + k)
  {
    if j != 0 {
      ShrAdds(a / 2, j - 1, k);
    }
  }

  /** What a right shift drops is below the unit it keeps. */
  lemma {:induction false} ShrSplits(a: nat, k: nat)
    ensures 0 <= a - Shl(Shr(a, k), k) < Shl(1, k)
  {
    if k != 0 {
      ShrSplits(a / 2, k - 1);
    }
  }

  lemma {:induction false} ShlMultiplies(a: nat, k: nat)
    ensures Shl(a, k) == a * Shl(1, k)
  {
    if k != 0 {
      ShlMultiplies(a, k - 1);
    }
  }

  lemma {:induction false} ShrIsZero(a: nat, k: nat)
    requires a < Shl(1, k)
    ensures Shr(a, k) == 0
  {
    if k != 0 {
      ShrIsZero(a / 2, k - 1);
    }
  }

  /** On bits that do not overlap, inclusive or is a sum. */
  lemma {:induction false} OrOfDisjoint(a: nat, b: nat, k: nat)
    requires b < Shl(1, k)
    ensures Or(Shl(a, k), b) == Shl(a, k) + b
  {
    if k == 0 {
      OrZero(a);
    } else if Shl(a, k) != 0 || b != 0 {
      OrOfDisjoint(a, b / 2, k - 1);
      Digits(0, Shl(a, k - 1));
    }
  }

  lemma {:induction false} OrZero(a: nat)
    ensures Or(a, 0) == a
  {
    if a != 0 {
      OrZero(a / 2);
    }
  }

  lemma {:induction false} ProductIsTimes(a: nat, b: nat)
    ensures Product(a, b) == a * b
  {
    if a != 0 {
      ProductIsTimes(a / 2, b);
      SplitProduct(a / 2, a % 2, b);
    }
  }

  lemma SplitProduct(h: nat, r: nat, b: nat)
    ensures (2 * h + r) * b == 2 * (h * b) + r * b
  {
  }

  /** A product with a constant is undone by a product with its inverse modulo 2^32. */
  lemma ImulInverse(x: Word, c: Word, d: Word)
    requires (c * d) % TWO_32 == 1
    ensures Imul(Imul(x, c), d) == x
  {
    hide Product;
    var k, q := x * c / TWO_32, c * d / TWO_32;
    var r := Imul(x, c);
    ProductIsTimes(x, c);
    ProductIsTimes(r, d);
    Regroup(x, c, d, k, q, r);
    RemainderIs(r * d, x * q - k * d, x);
  }

  lemma Regroup(x: int, c: int, d: int, k: int, q: int, r: int)
    requires x * c == k * TWO_32 + r && c * d == q * TWO_32 + 1
    ensures r * d == (x * q - k * d) * TWO_32 + x
  {
    calc {
      r * d;
      (x * c - k * TWO_32) * d;
      x * (c * d) - k * d * TWO_32;
      x * (q * TWO_32 + 1) - k * d * TWO_32;
      (x * q - k * d) * TWO_32 + x;
    }
  }

  lemma RemainderIs(a: int, q: int, r: Word)
    requires a == q * TWO_32 + r
    ensures a % TWO_32 == r
  {
  }
}
