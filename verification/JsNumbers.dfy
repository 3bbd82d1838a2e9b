/** JavaScript's bitwise operators and `Math.imul` on numbers, as sections 6.1.6.1 and 21.3.2.19 of the
    ECMAScript language specification (14th edition, June 2023) define them, for integers that a double holds:
    operands are taken to 32 bits, and results are signed, but those of `>>>`. */
module JsNumbers {
  import opened Arithmetic
  import opened Words

  function ToUint32(x: int): Word { x % TWO_32 }

  function ToInt32(x: int): (r: int)
    ensures -0x8000_0000 <= r < 0x8000_0000
  {
    if x % TWO_32 < 0x8000_0000 then x % TWO_32 else x % TWO_32 - TWO_32
  }

  /** The lowest `n` bits, the lowest first. */
  function Bits(x: nat, n: nat): (bits: seq<nat>)
    ensures |bits| == n && forall k | 0 <= k < n :: bits[k] < 2
  {
    if n == 0 then [] else [x % 2] + Bits(x / 2, n - 1)
  }

  function Value(bits: seq<nat>): nat {
    if bits == [] then 0 else bits[0] + 2 * Value(bits[1..])
  }

  /** `a ^ b`. */
  function JsXor(a: int, b: int): int {
    var x, y := Bits(ToUint32(a), 32), Bits(ToUint32(b), 32);
    ToInt32(Value(seq(32, k requires 0 <= k < 32 => (x[k] + y[k]) % 2)))
  }

  /** `a | b`. */
  function JsOr(a: int, b: int): int {
    var x, y := Bits(ToUint32(a), 32), Bits(ToUint32(b), 32);
    ToInt32(Value(seq(32, k requires 0 <= k < 32 => if x[k] + y[k] > 0 then 1 else 0)))
  }

  function Power2(k: nat): (p: nat)
    ensures p > 0
  {
    if k == 0 then 1 else 2 * Power2(k - 1)
  }

  /** `a << k`. */
  function JsShl(a: int, k: nat): int { ToInt32(ToInt32(a) * Power2(k)) }

  /** `a >>> k`. */
  function JsShr(a: int, k: nat): int { ToUint32(a) / Power2(k) }

  /** `Math.imul(a, b)`. */
  function JsImul(a: int, b: int): int { ToInt32(ToInt32(a) * ToInt32(b)) }

  // ---------------------------------------------------------------- on words

  lemma Signs(x: int)
    ensures ToUint32(ToInt32(x)) == ToUint32(x)
    ensures exists q :: ToInt32(x) == ToUint32(x) + q * TWO_32
  {
    if x % TWO_32 < 0x8000_0000 {
      assert ToInt32(x) == ToUint32(x) + 0 * TWO_32;
    } else {
      assert ToInt32(x) == ToUint32(x) + -1 * TWO_32;
    }
  }

  lemma {:induction false} XorOfBits(a: nat, b: nat, n: nat)
    requires a < Shl(1, n) && b < Shl(1, n)
    ensures var x, y := Bits(a, n), Bits(b, n);
            Value(seq(n, k requires 0 <= k < n => (x[k] + y[k]) % 2)) == Xor(a, b)
  {
    if n > 0 {
      XorOfBits(a / 2, b / 2, n - 1);
      var x, y := Bits(a, n), Bits(b, n);
      var x', y' := Bits(a / 2, n - 1), Bits(b / 2, n - 1);
      var r := seq(n, k requires 0 <= k < n => (x[k] + y[k]) % 2);
      assert r[1..] == seq(n - 1, k requires 0 <= k < n - 1 => (x'[k] + y'[k]) % 2);
      assert (a % 2 + b % 2) % 2 == if a % 2 == b % 2 then 0 else 1;
    }
  }

  lemma {:induction false} OrOfBits(a: nat, b: nat, n: nat)
    requires a < Shl(1, n) && b < Shl(1, n)
    ensures var x, y := Bits(a, n), Bits(b, n);
            Value(seq(n, k requires 0 <= k < n => if x[k] + y[k] > 0 then 1 else 0)) == Or(a, b)
  {
    if n > 0 {
      OrOfBits(a / 2, b / 2, n - 1);
      var x, y := Bits(a, n), Bits(b, n);
      var x', y' := Bits(a / 2, n - 1), Bits(b / 2, n - 1);
      var r := seq(n, k requires 0 <= k < n => if x[k] + y[k] > 0 then 1 else 0);
      assert r[1..] == seq(n - 1, k requires 0 <= k < n - 1 => if x'[k] + y'[k] > 0 then 1 else 0);
    }
  }

  lemma XorIs(a: int, b: int)
    ensures ToUint32(JsXor(a, b)) == Xor32(ToUint32(a), ToUint32(b))
  {
    hide Xor, Bits, Value;
    Powers();
    XorOfBits(ToUint32(a), ToUint32(b), 32);
    XorBound(ToUint32(a), ToUint32(b), 32);
    Signs(Xor(ToUint32(a), ToUint32(b)));
  }

  lemma OrIs(a: int, b: int)
    ensures ToUint32(JsOr(a, b)) == Or32(ToUint32(a), ToUint32(b))
  {
    hide Or, Bits, Value;
    Powers();
    OrOfBits(ToUint32(a), ToUint32(b), 32);
    OrBound(ToUint32(a), ToUint32(b), 32);
    Signs(Or(ToUint32(a), ToUint32(b)));
  }

  lemma {:induction false} Power2Is(k: nat)
    ensures Power2(k) == Shl(1, k)
  {
    if k > 0 {
      Power2Is(k - 1);
    }
  }

  lemma ShrIs(a: int, k: nat)
    ensures JsShr(a, k) == Shr32(ToUint32(a), k)
  {
    hide Shr, Shl, Power2;
    var u := ToUint32(a);
    Power2Is(k);
    ShrSplits(u, k);
    ShlMultiplies(Shr(u, k), k);
    QuotientIs(u, Power2(k), Shr(u, k), u - Shr(u, k) * Power2(k));
  }

  lemma SameRemainder(x: int, y: int, q: int)
    requires x == y + q * TWO_32
    ensures ToUint32(x) == ToUint32(y)
  {
  }

  lemma ShlIs(a: int, k: nat)
    ensures ToUint32(JsShl(a, k)) == Shl32(ToUint32(a), k)
  {
    hide Shl, Power2;
    Power2Is(k);
    ShlMultiplies(ToUint32(a), k);
    Signs(a);
    var q :| ToInt32(a) == ToUint32(a) + q * TWO_32;
    var p := Power2(k);
    Distributes(ToUint32(a), q, p);
    SameRemainder(ToInt32(a) * p, ToUint32(a) * p, q * p);
    Signs(ToInt32(a) * p);
  }

  lemma Distributes(x: int, q: int, p: int)
    ensures (x + q * TWO_32) * p == x * p + (q * p) * TWO_32
  {
  }

  lemma ImulIs(a: int, b: int)
    ensures ToUint32(JsImul(a, b)) == Imul(ToUint32(a), ToUint32(b))
  {
    hide Product;
    ProductIsTimes(ToUint32(a), ToUint32(b));
    Signs(a);
    Signs(b);
    var p :| ToInt32(a) == ToUint32(a) + p * TWO_32;
    var q :| ToInt32(b) == ToUint32(b) + q * TWO_32;
    Distributes(ToUint32(a), p, ToInt32(b));
    Distributes(ToUint32(b), q, ToUint32(a));
    SameRemainder(ToInt32(a) * ToInt32(b), ToUint32(a) * ToInt32(b), p * ToInt32(b));
    SameRemainder(ToInt32(b) * ToUint32(a), ToUint32(b) * ToUint32(a), q * ToUint32(a));
    Signs(ToInt32(a) * ToInt32(b));
  }

  lemma AddIs(a: int, b: int)
    ensures ToUint32(a + b) == Add32(ToUint32(a), ToUint32(b))
  {
  }
}
