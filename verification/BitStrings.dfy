/** Bit strings, least significant bit first (section 3.1.1 of RFC 1951). */
module BitStrings {
  import opened Bitwise

  /** The low n bits of v, the lowest first. */
  ghost function Bits(v: nat, n: nat): (r: seq<bool>)
    ensures |r| == n
  {
    if n == 0 then [] else [v % 2 == 1] + Bits(v / 2, n - 1)
  }

  /** Putting b above the k bits of a joins the bit strings. */
  lemma {:induction false} BitsJoin(a: nat, k: nat, b: nat, n: nat)
    requires a < Pow2(k)
    ensures Bits(a + b * Pow2(k), k + n) == Bits(a, k) + Bits(b, n)
  {
    if k > 0 {
      var p := Pow2(k - 1);
      var v := a + b * Pow2(k);
      assert b * (2 * p) == 2 * (b * p);
      assert v % 2 == a % 2 && v / 2 == a / 2 + b * p;
      BitsJoin(a / 2, k - 1, b, n);
      assert k + n - 1 == (k - 1) + n;
      assert [a % 2 == 1] + (Bits(a / 2, k - 1) + Bits(b, n)) == ([a % 2 == 1] + Bits(a / 2, k - 1)) + Bits(b, n);
    } else {
      assert Bits(a, 0) + Bits(b, n) == Bits(b, n);
    }
  }

  /** Nothing but the low n bits matters. */
  lemma BitsLow(v: nat, w: nat, n: nat)
    ensures Bits(v + w * Pow2(n), n) == Bits(v, n)
    decreases n
  {
    if n > 0 {
      BitsLow(v / 2, w, n - 1);
      Halves(v, w, Pow2(n - 1));
    }
  }

  lemma Halves(v: nat, w: nat, p: nat)
    ensures (v + w * (2 * p)) / 2 == v / 2 + w * p && (v + w * (2 * p)) % 2 == v % 2
  {
    var wp := w * p;
    assert w * (2 * p) == 2 * wp;
  }

  ghost function Zeros(n: nat): (r: seq<bool>)
    ensures |r| == n
  {
    if n == 0 then [] else [false] + Zeros(n - 1)
  }

  lemma {:induction false} BitsOfZero(n: nat)
    ensures Bits(0, n) == Zeros(n)
  {
    if n > 0 {
      BitsOfZero(n - 1);
    }
  }

  /** Different values of n bits have different bit strings. */
  lemma {:induction false} BitsInjective(v: nat, w: nat, n: nat)
    requires v < Pow2(n) && w < Pow2(n) && Bits(v, n) == Bits(w, n)
    ensures v == w
  {
    if n > 0 {
      assert Bits(v, n)[0] == Bits(w, n)[0];
      assert Bits(v, n)[1..] == Bits(v / 2, n - 1) && Bits(w, n)[1..] == Bits(w / 2, n - 1);
      BitsInjective(v / 2, w / 2, n - 1);
    }
  }

  /** One bit more. */
  lemma {:induction false} BitsSnoc(v: nat, n: nat)
    ensures Bits(v, n + 1) == Bits(v, n) + [ShiftRight(v, n) % 2 == 1]
    ensures ShiftRight(v, n + 1) == ShiftRight(v, n) / 2
    decreases n
  {
    if n > 0 {
      BitsSnoc(v / 2, n - 1);
      assert Bits(v, n + 1) == [v % 2 == 1] + Bits(v / 2, n);
    } else {
      assert Bits(v, 1) == [v % 2 == 1] + Bits(v / 2, 0);
    }
  }
}
