/** The tables of section 3.4 of RFC 1321: words used, distances of rotation, sines. */
module Md5Tables {
  import opened Md5Spec

  /** The words come in steps of 1, 5, 3 and 7, from 0, 1, 5 and 0 on. */
  lemma WordSteps(t: nat)
    requires t < 64
    ensures if t % 16 == 0 then K(t) == [0, 1, 5, 0][t / 16] else K(t) == (K(t - 1) + [1, 5, 3, 7][t / 16]) % 16
  {
    if t % 16 == 0 {
      assert t == 0 || t == 16 || t == 32 || t == 48;
    } else {
      assert (t - 1) / 16 == t / 16;
      Step(t - 1, 1);
      Step(5 * (t - 1) + 1, 5);
      Step(3 * (t - 1) + 5, 3);
      Step(7 * (t - 1), 7);
    }
  }

  lemma Step(a: nat, s: nat)
    ensures (a + s) % 16 == (a % 16 + s) % 16
  {
  }

  /** Each round has four distances, in turn. */
  lemma ShiftRows(t: nat)
    requires t < 64
    ensures Shift(t) == [[7, 12, 17, 22], [5, 9, 14, 20], [4, 11, 16, 23], [6, 10, 15, 21]][t / 16][t % 4]
  {
  }

  /** The sine of n, times 2^32: the table holds the integer part of its size; it is
      negative when n lies in an odd multiple of pi, about 355 / 113. */
  function Sine(n: nat): int
    requires n <= 64
  {
    if n == 0 then 0 else if 113 * n / 355 % 2 == 0 then T(n - 1) else -(T(n - 1) as int)
  }

  function Abs(x: int): int { if x < 0 then -x else x }

  /** The cosine of 1, times 10^16 */
  const COSINE := 5403023058681398
  const SCALE := 1_0000_0000_0000_0000

  /** sin(n + 1) + sin(n - 1) = 2 cos(1) sin(n), but for what was cut off */
  predicate Recurs(n: nat)
    requires 1 <= n < 64
  {
    Abs(SCALE * (Sine(n + 1) + Sine(n - 1)) - 2 * COSINE * Sine(n)) <= 2 * SCALE
  }

  /** sin(1) and cos(1) are the sides of a right triangle. */
  lemma FirstSine()
    ensures Abs(SCALE * SCALE * Sine(1) * Sine(1) - TWO32 * TWO32 * (SCALE * SCALE - COSINE * COSINE)) <= 2 * TWO32 * SCALE * SCALE
  {
  }

  lemma Sines1()
    ensures Recurs(1) && Recurs(2) && Recurs(3)
  {
  }

  lemma Sines4()
    ensures Recurs(4) && Recurs(5) && Recurs(6) && Recurs(7)
  {
  }

  lemma Sines8()
    ensures Recurs(8) && Recurs(9) && Recurs(10) && Recurs(11)
  {
  }

  lemma Sines12()
    ensures Recurs(12) && Recurs(13) && Recurs(14) && Recurs(15)
  {
  }

  lemma Sines16()
    ensures Recurs(16) && Recurs(17) && Recurs(18) && Recurs(19)
  {
  }

  lemma Sines20()
    ensures Recurs(20) && Recurs(21) && Recurs(22) && Recurs(23)
  {
  }

  lemma Sines24()
    ensures Recurs(24) && Recurs(25) && Recurs(26) && Recurs(27)
  {
  }

  lemma Sines28()
    ensures Recurs(28) && Recurs(29) && Recurs(30) && Recurs(31)
  {
  }

  lemma Sines32()
    ensures Recurs(32) && Recurs(33) && Recurs(34) && Recurs(35)
  {
  }

  lemma Sines36()
    ensures Recurs(36) && Recurs(37) && Recurs(38) && Recurs(39)
  {
  }

  lemma Sines40()
    ensures Recurs(40) && Recurs(41) && Recurs(42) && Recurs(43)
  {
  }

  lemma Sines44()
    ensures Recurs(44) && Recurs(45) && Recurs(46) && Recurs(47)
  {
  }

  lemma Sines48()
    ensures Recurs(48) && Recurs(49) && Recurs(50) && Recurs(51)
  {
  }

  lemma Sines52()
    ensures Recurs(52) && Recurs(53) && Recurs(54) && Recurs(55)
  {
  }

  lemma Sines56()
    ensures Recurs(56) && Recurs(57) && Recurs(58) && Recurs(59)
  {
  }

  lemma Sines60()
    ensures Recurs(60) && Recurs(61) && Recurs(62) && Recurs(63)
  {
  }

  predicate RecursUpTo(n: nat)
    requires n < 64
  {
    n == 0 || (Recurs(n) && RecursUpTo(n - 1))
  }

  lemma FirstHalf()
    ensures RecursUpTo(31)
  {
    hide Recurs;
    Sines1();
    assert RecursUpTo(3);
    Sines4();
    assert RecursUpTo(7);
    Sines8();
    assert RecursUpTo(11);
    Sines12();
    assert RecursUpTo(15);
    Sines16();
    assert RecursUpTo(19);
    Sines20();
    assert RecursUpTo(23);
    Sines24();
    assert RecursUpTo(27);
    Sines28();
    assert RecursUpTo(31);
  }

  lemma SecondHalf()
    ensures RecursUpTo(63)
  {
    hide Recurs;
    FirstHalf();
    Sines32();
    assert RecursUpTo(35);
    Sines36();
    assert RecursUpTo(39);
    Sines40();
    assert RecursUpTo(43);
    Sines44();
    assert RecursUpTo(47);
    Sines48();
    assert RecursUpTo(51);
    Sines52();
    assert RecursUpTo(55);
    Sines56();
    assert RecursUpTo(59);
    Sines60();
    assert RecursUpTo(63);
  }

  /** The whole table is one of sines. */
  lemma TableOfSines(n: nat)
    requires 1 <= n < 64
    ensures Recurs(n)
  {
    SecondHalf();
    RecursAt(63, n);
  }

  lemma {:induction false} RecursAt(m: nat, n: nat)
    requires 1 <= n <= m < 64 && RecursUpTo(m)
    ensures Recurs(n)
  {
    hide Recurs;
    if n < m {
      RecursAt(m - 1, n);
    }
  }
}
