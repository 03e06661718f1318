/** Bitwise operations on numbers, and what they do to single bits. */
module Bitwise {

  ghost function Pow2(k: nat): (r: nat)
    ensures r >= 1
  {
    if k == 0 then 1 else 2 * Pow2(k - 1)
  }

  /** Bitwise and */
  function And(a: nat, b: nat): nat {
    if a == 0 || b == 0 then 0 else (if a % 2 == 1 && b % 2 == 1 then 1 else 0) + 2 * And(a / 2, b / 2)
  }

  /** Bitwise or */
  function Or(a: nat, b: nat): nat
    decreases a + b
  {
    if a == 0 then b else (if a % 2 == 1 || b % 2 == 1 then 1 else 0) + 2 * Or(a / 2, b / 2)
  }

  /** Bitwise exclusive or */
  function Xor(a: nat, b: nat): nat
    decreases a + b
  {
    if a == 0 then b else (if a % 2 != b % 2 then 1 else 0) + 2 * Xor(a / 2, b / 2)
  }

  /** a << k and a >> k */
  function ShiftLeft(a: nat, k: nat): nat
    decreases k
  {
    if k == 0 then a else ShiftLeft(2 * a, k - 1)
  }

  function ShiftRight(a: nat, k: nat): nat
    decreases k
  {
    if k == 0 then a else ShiftRight(a / 2, k - 1)
  }

  /** Bit i of a number, the lowest being bit 0 */
  ghost predicate Bit(x: nat, i: nat) {
    x / Pow2(i) % 2 == 1
  }

  lemma BitAbove(x: nat, i: nat)
    requires i > 0
    ensures Bit(x, i) <==> Bit(x / 2, i - 1)
  {
    DivideTwice(x, Pow2(i - 1));
  }

  lemma BitLowest(x: nat)
    ensures Bit(x, 0) <==> x % 2 == 1
  {
    assert Pow2(0) == 1;
  }

  lemma DivideTwice(x: nat, p: nat)
    requires p > 0
    ensures x / (2 * p) == x / 2 / p
  {
    var q, r := x / 2 / p, x / 2 % p;
    assert x == 2 * (q * p + r) + x % 2;
    var s := 2 * r + x % 2;
    assert x == (2 * p) * q + s && s < 2 * p;
    QuotientIs(x, 2 * p, q, s);
  }

  lemma QuotientIs(x: nat, d: nat, q: nat, r: nat)
    requires r < d && x == d * q + r
    ensures x / d == q && x % d == r
  {
    var p := x / d;
    assert x == d * p + x % d;
    assert d * (p - q) == d * p - d * q;
    SmallMultiple(d, p - q);
  }

  lemma SmallMultiple(d: int, e: int)
    requires -d < d * e < d
    ensures e == 0
  {
  }

  lemma Monotone(a: nat, b: nat, c: nat)
    requires a <= b
    ensures a * c <= b * c
  {
  }

  lemma {:induction false} BitOfAnd(a: nat, b: nat, i: nat)
    ensures Bit(And(a, b), i) <==> Bit(a, i) && Bit(b, i)
    decreases i
  {
    hide Bit;
    BitOfZero(i);
    if i == 0 {
      BitLowest(a);
      BitLowest(b);
      BitLowest(And(a, b));
    } else {
      BitAbove(a, i);
      BitAbove(b, i);
      BitAbove(And(a, b), i);
      BitOfAnd(a / 2, b / 2, i - 1);
    }
  }

  lemma {:induction false} BitOfOr(a: nat, b: nat, i: nat)
    ensures Bit(Or(a, b), i) <==> Bit(a, i) || Bit(b, i)
    decreases i
  {
    hide Bit;
    BitOfZero(i);
    if i == 0 {
      BitLowest(a);
      BitLowest(b);
      BitLowest(Or(a, b));
    } else {
      BitAbove(a, i);
      BitAbove(b, i);
      BitAbove(Or(a, b), i);
      BitOfOr(a / 2, b / 2, i - 1);
    }
  }

  lemma {:induction false} BitOfXor(a: nat, b: nat, i: nat)
    ensures Bit(Xor(a, b), i) <==> !(Bit(a, i) <==> Bit(b, i))
    decreases i
  {
    hide Bit;
    BitOfZero(i);
    if i == 0 {
      BitLowest(a);
      BitLowest(b);
      BitLowest(Xor(a, b));
    } else {
      BitAbove(a, i);
      BitAbove(b, i);
      BitAbove(Xor(a, b), i);
      BitOfXor(a / 2, b / 2, i - 1);
    }
  }

  lemma BitOfZero(i: nat)
    ensures !Bit(0, i)
  {
    assert 0 / Pow2(i) == 0;
  }

  /** The complement of n bits */
  lemma {:induction false} BitOfComplement(a: nat, n: nat, i: nat)
    requires a < Pow2(n) && i < n
    ensures Bit(Pow2(n) - 1 - a, i) <==> !Bit(a, i)
    decreases i
  {
    hide Bit;
    var c := Pow2(n) - 1 - a;
    assert c / 2 == Pow2(n - 1) - 1 - a / 2 && c % 2 == 1 - a % 2;
    if i == 0 {
      BitLowest(a);
      BitLowest(c);
    } else {
      BitAbove(a, i);
      BitAbove(c, i);
      BitOfComplement(a / 2, n - 1, i - 1);
    }
  }

  /** The operations on numbers of n bits give numbers of n bits. */
  lemma {:induction false} BitwiseBelow(a: nat, b: nat, n: nat)
    requires a < Pow2(n) && b < Pow2(n)
    ensures And(a, b) < Pow2(n) && Or(a, b) < Pow2(n) && Xor(a, b) < Pow2(n)
    decreases n
  {
    if n > 0 {
      BitwiseBelow(a / 2, b / 2, n - 1);
    }
  }

  lemma {:induction false} ShiftLeftIs(a: nat, k: nat)
    ensures ShiftLeft(a, k) == a * Pow2(k)
    decreases k
  {
    if k > 0 {
      ShiftLeftIs(2 * a, k - 1);
      assert 2 * a * Pow2(k - 1) == a * (2 * Pow2(k - 1));
    }
  }

  /** A value and the part of it below bit k. */
  lemma {:induction false} ShiftRightSplits(a: nat, k: nat) returns (low: nat)
    decreases k
    ensures low < Pow2(k) && a == low + ShiftRight(a, k) * Pow2(k)
  {
    if k == 0 {
      low := 0;
    } else {
      var l := ShiftRightSplits(a / 2, k - 1);
      low := a % 2 + 2 * l;
      var h, p := ShiftRight(a / 2, k - 1), Pow2(k - 1);
      hide ShiftRight, Pow2;
      OneBitMore(a, l, h, p);
    }
  }

  lemma OneBitMore(a: nat, l: nat, h: nat, p: nat)
    requires l < p && a / 2 == l + h * p
    ensures a % 2 + 2 * l < 2 * p && a == a % 2 + 2 * l + h * (2 * p)
  {
    assert h * (2 * p) == 2 * (h * p);
  }

  lemma ShiftRightIs(a: nat, k: nat)
    ensures ShiftRight(a, k) == a / Pow2(k)
  {
    var low := ShiftRightSplits(a, k);
    QuotientIs(a, Pow2(k), ShiftRight(a, k), low);
  }

  lemma TwiceProduct(p: int, q: int)
    ensures 2 * (p * q) == (2 * p) * q
  {
  }

  lemma {:induction false} Pow2Add(j: nat, k: nat)
    ensures Pow2(j + k) == Pow2(j) * Pow2(k)
  {
    if j > 0 {
      Pow2Add(j - 1, k);
      TwiceProduct(Pow2(j - 1), Pow2(k));
    }
  }

  lemma SmallPowers()
    ensures Pow2(0) == 1 && Pow2(8) == 0x100 && Pow2(16) == 0x1_0000
  {
    assert Pow2(2) == 4;
    assert Pow2(4) == 16;
    assert Pow2(6) == 64;
    assert Pow2(8) == 256;
    Pow2Add(8, 8);
  }

  lemma {:induction false} Pow2Grows(j: nat, k: nat)
    requires j <= k
    ensures Pow2(j) <= Pow2(k)
    decreases k - j
  {
    if j < k {
      Pow2Grows(j, k - 1);
    }
  }

  /** The or of disjoint bits is their sum. */
  lemma {:induction false} OrDisjoint(a: nat, k: nat, b: nat)
    requires a < Pow2(k)
    ensures Or(a, b * Pow2(k)) == a + b * Pow2(k)
    decreases k
  {
    if a > 0 {
      assert k > 0;
      var p := Pow2(k - 1);
      assert b * (2 * p) == 2 * (b * p);
      assert (b * Pow2(k)) % 2 == 0 && (b * Pow2(k)) / 2 == b * p;
      OrDisjoint(a / 2, k - 1, b);
    }
  }

  lemma {:induction false} OrZero(a: nat)
    ensures Or(a, 0) == a && Or(0, a) == a
  {
    if a > 0 {
      OrZero(a / 2);
    }
  }

  lemma {:induction false} OrCommutes(a: nat, b: nat)
    ensures Or(a, b) == Or(b, a)
    decreases a + b
  {
    if a > 0 && b > 0 {
      OrCommutes(a / 2, b / 2);
    } else {
      OrZero(a);
      OrZero(b);
    }
  }

  /** Setting the lowest bit of an even word. */
  lemma OrLowest(a: nat, b: nat)
    requires b < 2
    ensures Or(2 * a, b) == 2 * a + b
  {
    OrDisjoint(b, 1, a);
    OrCommutes(2 * a, b);
  }
}
