/** What the functions of section 3.4 of RFC 1321 and the circular shift of section 2
    do to single bits and to numbers. */
module Md5Bits {
  import opened Bitwise
  import opened Md5Spec

  /** F chooses: where x has a one it is y, elsewhere z. */
  lemma FChooses(x: Word, y: Word, z: Word, i: nat)
    requires i < 32
    ensures Bit(F(x, y, z), i) <==> if Bit(x, i) then Bit(y, i) else Bit(z, i)
  {
    hide Bit, And, Or, Not;
    BitOfOr(And32(x, y), And32(Not(x), z), i);
    BitOfAnd(x, y, i);
    BitOfAnd(Not(x), z, i);
    BitOfNot(x, i);
  }

  /** G chooses by z: where z has a one it is x, elsewhere y. */
  lemma GChooses(x: Word, y: Word, z: Word, i: nat)
    requires i < 32
    ensures Bit(G(x, y, z), i) <==> if Bit(z, i) then Bit(x, i) else Bit(y, i)
  {
    hide Bit, And, Or, Not;
    BitOfOr(And32(x, z), And32(y, Not(z)), i);
    BitOfAnd(x, z, i);
    BitOfAnd(y, Not(z), i);
    BitOfNot(z, i);
  }

  /** H is the parity of the three. */
  lemma HIsParity(x: Word, y: Word, z: Word, i: nat)
    requires i < 32
    ensures Bit(H(x, y, z), i) <==> (Bit(x, i) <==> (Bit(y, i) <==> Bit(z, i)))
  {
    hide Bit, Xor;
    BitOfXor(Xor32(x, y), z, i);
    BitOfXor(x, y, i);
  }

  /** I differs from y where x has a one or z has none. */
  lemma IFlips(x: Word, y: Word, z: Word, i: nat)
    requires i < 32
    ensures Bit(I(x, y, z), i) <==> if Bit(x, i) || !Bit(z, i) then !Bit(y, i) else Bit(y, i)
  {
    hide Bit, Or, Xor, Not;
    BitOfXor(y, Or32(x, Not(z)), i);
    BitOfOr(x, Not(z), i);
    BitOfNot(z, i);
  }

  lemma BitOfNot(x: Word, i: nat)
    requires i < 32
    ensures Bit(Not(x), i) <==> !Bit(x, i)
  {
    hide Bit;
    WordPower();
    BitOfComplement(x, 32, i);
  }

  /** The circular shift is multiplication by a power of two, with what is carried out
      of the word added below. */
  lemma RotateIsArithmetic(x: Word, n: nat)
    requires 0 < n < 32
    ensures RotateLeft(x, n) == x * Pow2(n) % TWO32 + x / Pow2(32 - n)
  {
    hide Pow2, Or, ShiftLeft, ShiftRight;
    var m := 32 - n;
    var p, q := Pow2(n), Pow2(m);
    Pow2Add(n, m);
    WordPower();
    ShiftLeftIs(x, n);
    ShiftRightIs(x, m);
    var hi, lo := x / q, x % q;
    HighBelow(x, p, q);
    ShiftedOut(hi, lo, p, q);
    OrCommutes(lo * p, hi);
    OrDisjoint(hi, n, lo);
  }

  lemma HighBelow(x: nat, p: nat, q: nat)
    requires p > 0 && q > 0 && p * q == TWO32 && x < TWO32
    ensures x == x % q + (x / q) * q && x / q < p && x % q < q
  {
    var h := x / q;
    if p <= h {
      Monotone(p, h, q);
    }
  }

  lemma ShiftedOut(hi: nat, lo: nat, p: nat, q: nat)
    requires p * q == TWO32 && lo < q && hi < p
    ensures (lo + hi * q) * p % TWO32 == lo * p
  {
    assert (lo + hi * q) * p == lo * p + hi * (p * q);
    assert lo * p <= (q - 1) * p;
    assert (q - 1) * p == p * q - p;
    QuotientIs((lo + hi * q) * p, TWO32, hi, lo * p);
  }

  /** Section 3.3: the initial state, as bytes, low-order byte first. */
  lemma InitialBytes()
    ensures StateBytes(Initial()) == [0x01, 0x23, 0x45, 0x67, 0x89, 0xab, 0xcd, 0xef,
                                      0xfe, 0xdc, 0xba, 0x98, 0x76, 0x54, 0x32, 0x10]
  {
  }
}
