/** The MD5 digest as RFC 1321 defines it, section 3. */
module Md5Spec {
  import opened Bitwise

  const TWO32 := 0x1_0000_0000

  /** UINT4: a word of 32 bits, with arithmetic modulo 2^32. */
  type Word = w: nat | w < TWO32

  type Byte = b: nat | b < 0x100

  function Add(x: Word, y: Word): Word { (x + y) % TWO32 }

  function Not(x: Word): Word { TWO32 - 1 - x }

  /** The bitwise operations keep within a word. */
  lemma WordRange(x: Word, y: Word)
    ensures And(x, y) < TWO32 && Or(x, y) < TWO32 && Xor(x, y) < TWO32
  {
    WordPower();
    BitwiseBelow(x, y, 32);
  }

  lemma WordPower()
    ensures Pow2(32) == TWO32
  {
    SmallPowers();
    Pow2Add(16, 16);
  }

  function And32(x: Word, y: Word): Word {
    WordRange(x, y);
    And(x, y)
  }

  function Or32(x: Word, y: Word): Word {
    WordRange(x, y);
    Or(x, y)
  }

  function Xor32(x: Word, y: Word): Word {
    WordRange(x, y);
    Xor(x, y)
  }

  datatype State = State(a: Word, b: Word, c: Word, d: Word)

  function Initial(): State {
    State(0x67452301, 0xefcdab89, 0x98badcfe, 0x10325476)
  }

  // Section 3.4: the auxiliary functions

  function F(x: Word, y: Word, z: Word): Word { Or32(And32(x, y), And32(Not(x), z)) }

  function G(x: Word, y: Word, z: Word): Word { Or32(And32(x, z), And32(y, Not(z))) }

  function H(x: Word, y: Word, z: Word): Word { Xor32(Xor32(x, y), z) }

  function I(x: Word, y: Word, z: Word): Word { Xor32(y, Or32(x, Not(z))) }

  function Aux(round: nat, x: Word, y: Word, z: Word): Word {
    if round == 0 then F(x, y, z) else if round == 1 then G(x, y, z) else if round == 2 then H(x, y, z) else I(x, y, z)
  }

  /** The word of the block that operation t uses. */
  function K(t: nat): (k: nat)
    ensures k < 16
  {
    match t / 16
    case 0 => t % 16
    case 1 => (5 * t + 1) % 16
    case 2 => (3 * t + 5) % 16
    case _ => 7 * t % 16
  }

  /** The distance operation t rotates by. */
  function Shift(t: nat): (s: nat)
    ensures 4 <= s <= 23
  {
    match t / 16
    case 0 => (match t % 4 case 0 => 7 case 1 => 12 case 2 => 17 case _ => 22)
    case 1 => (match t % 4 case 0 => 5 case 1 => 9 case 2 => 14 case _ => 20)
    case 2 => (match t % 4 case 0 => 4 case 1 => 11 case 2 => 16 case _ => 23)
    case _ => (match t % 4 case 0 => 6 case 1 => 10 case 2 => 15 case _ => 21)
  }

  // The table of section 3.4, round by round

  function T1(t: nat): Word {
    match t
    case 0 => 0xd76aa478
    case 1 => 0xe8c7b756
    case 2 => 0x242070db
    case 3 => 0xc1bdceee
    case 4 => 0xf57c0faf
    case 5 => 0x4787c62a
    case 6 => 0xa8304613
    case 7 => 0xfd469501
    case 8 => 0x698098d8
    case 9 => 0x8b44f7af
    case 10 => 0xffff5bb1
    case 11 => 0x895cd7be
    case 12 => 0x6b901122
    case 13 => 0xfd987193
    case 14 => 0xa679438e
    case _ => 0x49b40821
  }

  function T2(t: nat): Word {
    match t
    case 0 => 0xf61e2562
    case 1 => 0xc040b340
    case 2 => 0x265e5a51
    case 3 => 0xe9b6c7aa
    case 4 => 0xd62f105d
    case 5 => 0x2441453
    case 6 => 0xd8a1e681
    case 7 => 0xe7d3fbc8
    case 8 => 0x21e1cde6
    case 9 => 0xc33707d6
    case 10 => 0xf4d50d87
    case 11 => 0x455a14ed
    case 12 => 0xa9e3e905
    case 13 => 0xfcefa3f8
    case 14 => 0x676f02d9
    case _ => 0x8d2a4c8a
  }

  function T3(t: nat): Word {
    match t
    case 0 => 0xfffa3942
    case 1 => 0x8771f681
    case 2 => 0x6d9d6122
    case 3 => 0xfde5380c
    case 4 => 0xa4beea44
    case 5 => 0x4bdecfa9
    case 6 => 0xf6bb4b60
    case 7 => 0xbebfbc70
    case 8 => 0x289b7ec6
    case 9 => 0xeaa127fa
    case 10 => 0xd4ef3085
    case 11 => 0x4881d05
    case 12 => 0xd9d4d039
    case 13 => 0xe6db99e5
    case 14 => 0x1fa27cf8
    case _ => 0xc4ac5665
  }

  function T4(t: nat): Word {
    match t
    case 0 => 0xf4292244
    case 1 => 0x432aff97
    case 2 => 0xab9423a7
    case 3 => 0xfc93a039
    case 4 => 0x655b59c3
    case 5 => 0x8f0ccc92
    case 6 => 0xffeff47d
    case 7 => 0x85845dd1
    case 8 => 0x6fa87e4f
    case 9 => 0xfe2ce6e0
    case 10 => 0xa3014314
    case 11 => 0x4e0811a1
    case 12 => 0xf7537e82
    case 13 => 0xbd3af235
    case 14 => 0x2ad7d2bb
    case _ => 0xeb86d391
  }

  /** Element t + 1 of the table of section 3.4, from the sine of t + 1. */
  function T(t: nat): Word {
    match t / 16
    case 0 => T1(t % 16)
    case 1 => T2(t % 16)
    case 2 => T3(t % 16)
    case _ => T4(t % 16)
  }

  /** Circular shift to the left (section 2). */
  function RotateLeft(x: Word, n: nat): Word
    requires 0 < n < 32
  {
    WordRange(ShiftLeft(x, n) % TWO32, ShiftRight32(x, 32 - n));
    Or(ShiftLeft(x, n) % TWO32, ShiftRight32(x, 32 - n))
  }

  function ShiftRight32(x: Word, n: nat): Word {
    ShiftRightIs(x, n);
    ShiftRight(x, n)
  }

  /** a = b + ((a + f + x + t) <<< s) */
  function Mixed(a: Word, f: Word, x: Word, t: Word, s: nat, b: Word): Word
    requires 0 < s < 32
  {
    Add(RotateLeft(Add(a, Add(Add(f, x), t)), s), b)
  }

  /** [abcd k s i]: the result is the new value of a. */
  function Op(t: nat, s: State, x: Word): Word {
    Mixed(s.a, Aux(t / 16, s.b, s.c, s.d), x, T(t), Shift(t), s.b)
  }

  /** The state after the first n operations on the words x: [ABCD], [DABC], [CDAB]
      and [BCDA] take turns. */
  function Operations(x: seq<Word>, s: State, n: nat): State
    requires |x| == 16
  {
    if n == 0 then s
    else
      var p := Operations(x, s, n - 1);
      var w := x[K(n - 1)];
      match (n - 1) % 4
      case 0 => p.(a := Op(n - 1, p, w))
      case 1 => p.(d := Op(n - 1, State(p.d, p.a, p.b, p.c), w))
      case 2 => p.(c := Op(n - 1, State(p.c, p.d, p.a, p.b), w))
      case _ => p.(b := Op(n - 1, State(p.b, p.c, p.d, p.a), w))
  }

  /** Four operations in a row, after which [ABCD] has its turn again. */
  lemma Quartet(x: seq<Word>, s: State, n: nat, a: Word, b: Word, c: Word, d: Word)
    requires |x| == 16 && n % 4 == 0
    requires var p := Operations(x, s, n);
             && a == Op(n, p, x[K(n)])
             && d == Op(n + 1, State(p.d, a, p.b, p.c), x[K(n + 1)])
             && c == Op(n + 2, State(p.c, d, a, p.b), x[K(n + 2)])
             && b == Op(n + 3, State(p.b, c, d, a), x[K(n + 3)])
    ensures Operations(x, s, n + 4) == State(a, b, c, d)
  {
    hide Op, K;
    assert Operations(x, s, n + 1) == Operations(x, s, n).(a := a);
    assert Operations(x, s, n + 2) == Operations(x, s, n + 1).(d := d);
    assert Operations(x, s, n + 3) == Operations(x, s, n + 2).(c := c);
  }

  /** Bytes to a word, low-order byte first (section 2). */
  function WordOf(b: seq<Byte>): Word
    requires |b| == 4
  {
    b[0] as nat + 0x100 * (b[1] as nat) + 0x1_0000 * (b[2] as nat) + 0x100_0000 * (b[3] as nat)
  }

  function BytesOf(w: Word): (b: seq<Byte>)
    ensures |b| == 4
  {
    [w % 0x100, w / 0x100 % 0x100, w / 0x1_0000 % 0x100, w / 0x100_0000 % 0x100]
  }

  function WordsOf(block: seq<Byte>): (x: seq<Word>)
    requires |block| == 64
    ensures |x| == 16
  {
    seq(16, i requires 0 <= i < 16 => WordOf(block[4 * i..4 * i + 4]))
  }

  /** What one block makes of the state. */
  function Digested(s: State, block: seq<Byte>): State
    requires |block| == 64
  {
    var r := Operations(WordsOf(block), s, 64);
    State(Add(s.a, r.a), Add(s.b, r.b), Add(s.c, r.c), Add(s.d, r.d))
  }

  /** The state after all blocks of the data. */
  function Process(data: seq<Byte>): State
    requires |data| % 64 == 0
  {
    if data == [] then Initial() else Digested(Process(data[..|data| - 64]), data[|data| - 64..])
  }

  /** Section 3.1: a one bit, then as few zero bits as bring the length to 448 modulo
      512. Section 3.2: the length in bits as two words, low-order word first. */
  function Padding(length: nat): seq<Byte> {
    [0x80] + Zeros((55 - length) % 64)
  }

  function Zeros(n: nat): (z: seq<Byte>)
    ensures |z| == n
  {
    seq(n, _ => 0)
  }

  /** The length in bits modulo 2^64, as two words. */
  function LengthWords(length: nat): (Word, Word)
  {
    (8 * length % TWO32, 8 * length / TWO32 % TWO32)
  }

  function LengthBytes(length: nat): (b: seq<Byte>)
    ensures |b| == 8
  {
    BytesOf(LengthWords(length).0) + BytesOf(LengthWords(length).1)
  }

  function Padded(m: seq<Byte>): seq<Byte> {
    m + Padding(|m|) + LengthBytes(|m|)
  }

  function StateBytes(s: State): (b: seq<Byte>)
    ensures |b| == 16
  {
    BytesOf(s.a) + BytesOf(s.b) + BytesOf(s.c) + BytesOf(s.d)
  }

  lemma PaddingLength(n: nat)
    ensures 1 <= |Padding(n)| <= 64 && (n + |Padding(n)|) % 64 == 56
  {
    var q := (55 - n) / 64;
    assert n + |Padding(n)| == 56 + 64 * -q;
  }

  lemma PaddedInBlocks(m: seq<Byte>)
    ensures |Padded(m)| % 64 == 0 && |m| + 9 <= |Padded(m)| <= |m| + 72
  {
    hide Padding, LengthBytes;
    PaddingLength(|m|);
  }

  /** Sections 3.1 and 3.2 byte by byte: the message, a one bit, zeros, and the length in
      bits modulo 2^64, low-order byte first. */
  lemma PaddedLayout(m: seq<Byte>, i: nat)
    requires i < |Padded(m)|
    ensures var p, n := Padded(m), |Padded(m)|;
            && n >= |m| + 9 && p[..|m|] == m && p[|m|] == 0x80 && (|m| < i < n - 8 ==> p[i] == 0)
            && WordOf(p[n - 8..n - 4]) as nat + TWO32 * WordOf(p[n - 4..]) as nat == 8 * |m| % (TWO32 * TWO32)
  {
    hide WordOf, BytesOf;
    PaddingLength(|m|);
    var p, n, w := Padded(m), |Padded(m)|, LengthWords(|m|);
    assert p[n - 8..n - 4] == BytesOf(w.0) && p[n - 4..] == BytesOf(w.1);
    WordRoundTrip(w.0);
    WordRoundTrip(w.1);
    LengthSplits(8 * |m|);
  }

  lemma LengthSplits(n: nat)
    ensures n % TWO32 + TWO32 * (n / TWO32 % TWO32) == n % (TWO32 * TWO32)
  {
    var q := n / TWO32;
    assert n == n % TWO32 + TWO32 * (q % TWO32) + (TWO32 * TWO32) * (q / TWO32);
  }

  function Digest(m: seq<Byte>): (d: seq<Byte>)
    ensures |d| == 16
  {
    PaddedInBlocks(m);
    StateBytes(Process(Padded(m)))
  }

  /** The two conversions undo each other. */
  lemma WordRoundTrip(w: Word)
    ensures WordOf(BytesOf(w)) == w
  {
    assert w / 0x1_0000 == w / 0x100 / 0x100 && w / 0x100_0000 == w / 0x1_0000 / 0x100;
  }

  lemma BytesRoundTrip(b: seq<Byte>)
    requires |b| == 4
    ensures BytesOf(WordOf(b)) == b
  {
    var w := WordOf(b);
    var q3: nat := b[3];
    var q2: nat := b[2] as nat + 0x100 * q3;
    var q1: nat := b[1] as nat + 0x100 * q2;
    assert w == b[0] as nat + 0x100 * q1;
    assert w / 0x100 == q1 && w / 0x1_0000 == q2 && w / 0x100_0000 == q3;
  }

  /** Padding loses nothing: two messages shorter than 2^61 bytes that are padded
      alike are the same. */
  lemma PaddingIsInjective(m: seq<Byte>, n: seq<Byte>)
    requires |m| < 0x2000_0000_0000_0000 && |n| < 0x2000_0000_0000_0000
    requires Padded(m) == Padded(n)
    ensures m == n
  {
    hide Padding, LengthBytes;
    var p := Padded(m);
    assert p[|p| - 8..] == LengthBytes(|m|) && p[|p| - 8..] == LengthBytes(|n|);
    LengthIsInjective(|m|, |n|);
    assert p[..|m|] == m && p[..|n|] == n;
  }

  lemma LengthIsInjective(m: nat, n: nat)
    requires m < 0x2000_0000_0000_0000 && n < 0x2000_0000_0000_0000
    requires LengthBytes(m) == LengthBytes(n)
    ensures m == n
  {
    hide WordOf, BytesOf, LengthWords;
    assert LengthBytes(m)[..4] == BytesOf(LengthWords(m).0) && LengthBytes(m)[4..] == BytesOf(LengthWords(m).1);
    assert LengthBytes(n)[..4] == BytesOf(LengthWords(n).0) && LengthBytes(n)[4..] == BytesOf(LengthWords(n).1);
    WordRoundTrip(LengthWords(m).0);
    WordRoundTrip(LengthWords(m).1);
    WordRoundTrip(LengthWords(n).0);
    WordRoundTrip(LengthWords(n).1);
    LengthOfWords(m);
    LengthOfWords(n);
  }

  lemma LengthOfWords(n: nat)
    requires n < 0x2000_0000_0000_0000
    ensures LengthWords(n).0 as nat + TWO32 * (LengthWords(n).1 as nat) == 8 * n
  {
  }
}
