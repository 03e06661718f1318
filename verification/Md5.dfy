/** `md5c.c`: the digest computed from a message that arrives in pieces. */
module Md5 {
  import opened Md5Spec

  // The macros of the four rounds

  function FF(a: Word, b: Word, c: Word, d: Word, x: Word, s: nat, ac: Word): Word
    requires 0 < s < 32
  {
    Add(RotateLeft(Add(a, Add(Add(F(b, c, d), x), ac)), s), b)
  }

  function GG(a: Word, b: Word, c: Word, d: Word, x: Word, s: nat, ac: Word): Word
    requires 0 < s < 32
  {
    Add(RotateLeft(Add(a, Add(Add(G(b, c, d), x), ac)), s), b)
  }

  function HH(a: Word, b: Word, c: Word, d: Word, x: Word, s: nat, ac: Word): Word
    requires 0 < s < 32
  {
    Add(RotateLeft(Add(a, Add(Add(H(b, c, d), x), ac)), s), b)
  }

  function II(a: Word, b: Word, c: Word, d: Word, x: Word, s: nat, ac: Word): Word
    requires 0 < s < 32
  {
    Add(RotateLeft(Add(a, Add(Add(I(b, c, d), x), ac)), s), b)
  }

  lemma FFQuartet(x: seq<Word>, s: State, n: nat, a: Word, b: Word, c: Word, d: Word)
    requires |x| == 16 && 0 <= n < 16 && n % 4 == 0
    requires var p := Operations(x, s, n);
             && a == FF(p.a, p.b, p.c, p.d, x[K(n)], 7, T(n))
             && d == FF(p.d, a, p.b, p.c, x[K(n + 1)], 12, T(n + 1))
             && c == FF(p.c, d, a, p.b, x[K(n + 2)], 17, T(n + 2))
             && b == FF(p.b, c, d, a, x[K(n + 3)], 22, T(n + 3))
    ensures Operations(x, s, n + 4) == State(a, b, c, d)
  {
    hide Operations, T, K, RotateLeft, Add, F, G, H, I;
    Quartet(x, s, n, a, b, c, d);
  }

  lemma GGQuartet(x: seq<Word>, s: State, n: nat, a: Word, b: Word, c: Word, d: Word)
    requires |x| == 16 && 16 <= n < 32 && n % 4 == 0
    requires var p := Operations(x, s, n);
             && a == GG(p.a, p.b, p.c, p.d, x[K(n)], 5, T(n))
             && d == GG(p.d, a, p.b, p.c, x[K(n + 1)], 9, T(n + 1))
             && c == GG(p.c, d, a, p.b, x[K(n + 2)], 14, T(n + 2))
             && b == GG(p.b, c, d, a, x[K(n + 3)], 20, T(n + 3))
    ensures Operations(x, s, n + 4) == State(a, b, c, d)
  {
    hide Operations, T, K, RotateLeft, Add, F, G, H, I;
    Quartet(x, s, n, a, b, c, d);
  }

  lemma HHQuartet(x: seq<Word>, s: State, n: nat, a: Word, b: Word, c: Word, d: Word)
    requires |x| == 16 && 32 <= n < 48 && n % 4 == 0
    requires var p := Operations(x, s, n);
             && a == HH(p.a, p.b, p.c, p.d, x[K(n)], 4, T(n))
             && d == HH(p.d, a, p.b, p.c, x[K(n + 1)], 11, T(n + 1))
             && c == HH(p.c, d, a, p.b, x[K(n + 2)], 16, T(n + 2))
             && b == HH(p.b, c, d, a, x[K(n + 3)], 23, T(n + 3))
    ensures Operations(x, s, n + 4) == State(a, b, c, d)
  {
    hide Operations, T, K, RotateLeft, Add, F, G, H, I;
    Quartet(x, s, n, a, b, c, d);
  }

  lemma IIQuartet(x: seq<Word>, s: State, n: nat, a: Word, b: Word, c: Word, d: Word)
    requires |x| == 16 && 48 <= n < 64 && n % 4 == 0
    requires var p := Operations(x, s, n);
             && a == II(p.a, p.b, p.c, p.d, x[K(n)], 6, T(n))
             && d == II(p.d, a, p.b, p.c, x[K(n + 1)], 10, T(n + 1))
             && c == II(p.c, d, a, p.b, x[K(n + 2)], 15, T(n + 2))
             && b == II(p.b, c, d, a, x[K(n + 3)], 21, T(n + 3))
    ensures Operations(x, s, n + 4) == State(a, b, c, d)
  {
    hide Operations, T, K, RotateLeft, Add, F, G, H, I;
    Quartet(x, s, n, a, b, c, d);
  }

  /** Round 1 of MD5Transform, written out as in the source */
  method Round1(s: State, x: seq<Word>, ghost start: State) returns (r: State)
    requires |x| == 16 && s == Operations(x, start, 0)
    ensures r == Operations(x, start, 16)
  {
    hide Operations, Mixed, Op, FF, RotateLeft, Add, F, G, H, I;
    var State(a, b, c, d) := s;
    a := FF(a, b, c, d, x[0], 7, 0xd76aa478);
    d := FF(d, a, b, c, x[1], 12, 0xe8c7b756);
    c := FF(c, d, a, b, x[2], 17, 0x242070db);
    b := FF(b, c, d, a, x[3], 22, 0xc1bdceee);
    FFQuartet(x, start, 0, a, b, c, d);
    a := FF(a, b, c, d, x[4], 7, 0xf57c0faf);
    d := FF(d, a, b, c, x[5], 12, 0x4787c62a);
    c := FF(c, d, a, b, x[6], 17, 0xa8304613);
    b := FF(b, c, d, a, x[7], 22, 0xfd469501);
    FFQuartet(x, start, 4, a, b, c, d);
    a := FF(a, b, c, d, x[8], 7, 0x698098d8);
    d := FF(d, a, b, c, x[9], 12, 0x8b44f7af);
    c := FF(c, d, a, b, x[10], 17, 0xffff5bb1);
    b := FF(b, c, d, a, x[11], 22, 0x895cd7be);
    FFQuartet(x, start, 8, a, b, c, d);
    a := FF(a, b, c, d, x[12], 7, 0x6b901122);
    d := FF(d, a, b, c, x[13], 12, 0xfd987193);
    c := FF(c, d, a, b, x[14], 17, 0xa679438e);
    b := FF(b, c, d, a, x[15], 22, 0x49b40821);
    FFQuartet(x, start, 12, a, b, c, d);
    r := State(a, b, c, d);
  }

  /** Round 2 */
  method Round2(s: State, x: seq<Word>, ghost start: State) returns (r: State)
    requires |x| == 16 && s == Operations(x, start, 16)
    ensures r == Operations(x, start, 32)
  {
    hide Operations, Mixed, Op, GG, RotateLeft, Add, F, G, H, I;
    var State(a, b, c, d) := s;
    a := GG(a, b, c, d, x[1], 5, 0xf61e2562);
    d := GG(d, a, b, c, x[6], 9, 0xc040b340);
    c := GG(c, d, a, b, x[11], 14, 0x265e5a51);
    b := GG(b, c, d, a, x[0], 20, 0xe9b6c7aa);
    GGQuartet(x, start, 16, a, b, c, d);
    a := GG(a, b, c, d, x[5], 5, 0xd62f105d);
    d := GG(d, a, b, c, x[10], 9, 0x2441453);
    c := GG(c, d, a, b, x[15], 14, 0xd8a1e681);
    b := GG(b, c, d, a, x[4], 20, 0xe7d3fbc8);
    GGQuartet(x, start, 20, a, b, c, d);
    a := GG(a, b, c, d, x[9], 5, 0x21e1cde6);
    d := GG(d, a, b, c, x[14], 9, 0xc33707d6);
    c := GG(c, d, a, b, x[3], 14, 0xf4d50d87);
    b := GG(b, c, d, a, x[8], 20, 0x455a14ed);
    GGQuartet(x, start, 24, a, b, c, d);
    a := GG(a, b, c, d, x[13], 5, 0xa9e3e905);
    d := GG(d, a, b, c, x[2], 9, 0xfcefa3f8);
    c := GG(c, d, a, b, x[7], 14, 0x676f02d9);
    b := GG(b, c, d, a, x[12], 20, 0x8d2a4c8a);
    GGQuartet(x, start, 28, a, b, c, d);
    r := State(a, b, c, d);
  }

  /** Round 3 */
  method Round3(s: State, x: seq<Word>, ghost start: State) returns (r: State)
    requires |x| == 16 && s == Operations(x, start, 32)
    ensures r == Operations(x, start, 48)
  {
    hide Operations, Mixed, Op, HH, RotateLeft, Add, F, G, H, I;
    var State(a, b, c, d) := s;
    a := HH(a, b, c, d, x[5], 4, 0xfffa3942);
    d := HH(d, a, b, c, x[8], 11, 0x8771f681);
    c := HH(c, d, a, b, x[11], 16, 0x6d9d6122);
    b := HH(b, c, d, a, x[14], 23, 0xfde5380c);
    HHQuartet(x, start, 32, a, b, c, d);
    a := HH(a, b, c, d, x[1], 4, 0xa4beea44);
    d := HH(d, a, b, c, x[4], 11, 0x4bdecfa9);
    c := HH(c, d, a, b, x[7], 16, 0xf6bb4b60);
    b := HH(b, c, d, a, x[10], 23, 0xbebfbc70);
    HHQuartet(x, start, 36, a, b, c, d);
    a := HH(a, b, c, d, x[13], 4, 0x289b7ec6);
    d := HH(d, a, b, c, x[0], 11, 0xeaa127fa);
    c := HH(c, d, a, b, x[3], 16, 0xd4ef3085);
    b := HH(b, c, d, a, x[6], 23, 0x4881d05);
    HHQuartet(x, start, 40, a, b, c, d);
    a := HH(a, b, c, d, x[9], 4, 0xd9d4d039);
    d := HH(d, a, b, c, x[12], 11, 0xe6db99e5);
    c := HH(c, d, a, b, x[15], 16, 0x1fa27cf8);
    b := HH(b, c, d, a, x[2], 23, 0xc4ac5665);
    HHQuartet(x, start, 44, a, b, c, d);
    r := State(a, b, c, d);
  }

  /** Round 4 */
  method Round4(s: State, x: seq<Word>, ghost start: State) returns (r: State)
    requires |x| == 16 && s == Operations(x, start, 48)
    ensures r == Operations(x, start, 64)
  {
    hide Operations, Mixed, Op, II, RotateLeft, Add, F, G, H, I;
    var State(a, b, c, d) := s;
    a := II(a, b, c, d, x[0], 6, 0xf4292244);
    d := II(d, a, b, c, x[7], 10, 0x432aff97);
    c := II(c, d, a, b, x[14], 15, 0xab9423a7);
    b := II(b, c, d, a, x[5], 21, 0xfc93a039);
    IIQuartet(x, start, 48, a, b, c, d);
    a := II(a, b, c, d, x[12], 6, 0x655b59c3);
    d := II(d, a, b, c, x[3], 10, 0x8f0ccc92);
    c := II(c, d, a, b, x[10], 15, 0xffeff47d);
    b := II(b, c, d, a, x[1], 21, 0x85845dd1);
    IIQuartet(x, start, 52, a, b, c, d);
    a := II(a, b, c, d, x[8], 6, 0x6fa87e4f);
    d := II(d, a, b, c, x[15], 10, 0xfe2ce6e0);
    c := II(c, d, a, b, x[6], 15, 0xa3014314);
    b := II(b, c, d, a, x[13], 21, 0x4e0811a1);
    IIQuartet(x, start, 56, a, b, c, d);
    a := II(a, b, c, d, x[4], 6, 0xf7537e82);
    d := II(d, a, b, c, x[11], 10, 0xbd3af235);
    c := II(c, d, a, b, x[2], 15, 0x2ad7d2bb);
    b := II(b, c, d, a, x[9], 21, 0xeb86d391);
    IIQuartet(x, start, 60, a, b, c, d);
    r := State(a, b, c, d);
  }

  /** The whole blocks of the first n bytes. */
  function Whole(n: nat): (w: nat)
    ensures w <= n && w % 64 == 0 && n - w == n % 64
  {
    n - n % 64
  }

  /** The carry between the two words of the bit count. */
  function Counted(c: (Word, Word), len: Word): (Word, Word) {
    var bits := 8 * len % TWO32;
    var lo := Add(c.0, bits);
    var hi := if lo < bits then Add(c.1, 1) else c.1;
    (lo, Add(hi, len / 0x2000_0000))
  }

  function Low(a: nat): Word { a % TWO32 }

  function High(a: nat): nat { a / TWO32 }

  /** The count is the length in bits modulo 2^64. */
  lemma CountIsLength(n: nat, len: Word)
    ensures Counted(LengthWords(n), len) == LengthWords(n + len)
  {
    hide Low, High, Add, LengthWords;
    var a, b := 8 * n, 8 * len;
    BitWords(n, len);
    SumWords(a, b);
    AddLow(High(a), 1);
    AddLow(High(a), High(b));
    AddLow(High(a) + 1, High(b));
  }

  /** The words of the count and of the increment */
  lemma BitWords(n: nat, len: Word)
    ensures LengthWords(n) == (Low(8 * n), Low(High(8 * n)))
    ensures LengthWords(n + len) == (Low(8 * n + 8 * len), Low(High(8 * n + 8 * len)))
    ensures 8 * len % TWO32 == Low(8 * len) && len / 0x2000_0000 == High(8 * len)
  {
    assert 8 * (n + len) == 8 * n + 8 * len;
  }

  lemma SumWords(a: nat, b: nat)
    ensures Low(a + b) == Add(Low(a), Low(b))
    ensures High(a + b) == High(a) + High(b) + if Low(a + b) < Low(b) then 1 else 0
  {
    assert a == Low(a) as nat + TWO32 * High(a) && b == Low(b) as nat + TWO32 * High(b);
  }

  lemma AddLow(a: nat, b: nat)
    requires b < TWO32
    ensures Add(Low(a), b) == Low(a + b)
  {
    assert a == Low(a) as nat + TWO32 * High(a);
  }

  /** The bytes left over are the low bits of the count. */
  lemma IndexIsRest(n: nat)
    ensures LengthWords(n).0 / 8 % 64 == n % 64
  {
    var q := 8 * n / TWO32;
    assert 8 * n == LengthWords(n).0 as nat + TWO32 * q;
    assert LengthWords(n).0 / 8 == n - 0x2000_0000 * q;
  }

  /** The positions at which the loop test is made */
  predicate Visited(index: nat, len: nat, i: int) {
    64 - index <= i <= len && (index + i) % 64 == 0
  }

  /** MD5Update tests i + 63 < inputLen in 32 bits. At the positions it visits this is
      what it means exactly when the leftover bytes and the input together are
      shorter than 2^32 bytes. */
  lemma LoopGuardIff(index: nat, len: nat)
    requires index < 64 && len < TWO32
    ensures (forall i :: Visited(index, len, i) ==> ((i + 63) % TWO32 < len <==> i + 63 < len)) <==> index + len < TWO32
  {
    if index + len >= TWO32 {
      assert Visited(index, len, TWO32 - index);
    }
  }

  lemma GuardDoesNotWrap(n: nat, index: nat, len: nat, i: nat)
    requires index == n % 64 && index + len < TWO32 && i <= len && (n + i) % 64 == 0
    ensures i + 63 < TWO32
  {
    assert (index + i) % 64 == 0;
  }

  /** Such a position: one byte left over, an input of 2^32 - 1 bytes, and all of it
      used up, the test still holds. */
  lemma LoopGuardWraps()
    ensures var index, len, i := 1, TWO32 - 1, TWO32 - 1;
            Visited(index, len, i) && (i + 63) % TWO32 < len && i + 63 >= len
  {
  }

  /** Words to bytes, one after the other. */
  function AllBytes(words: seq<Word>): (b: seq<Byte>)
    ensures |b| == 4 * |words|
  {
    if words == [] then [] else AllBytes(words[..|words| - 1]) + BytesOf(words[|words| - 1])
  }

  method Encode(output: array<Byte>, input: seq<Word>)
    requires output.Length == 4 * |input|
    modifies output
    ensures output[..] == AllBytes(input)
  {
    var i, j := 0, 0;
    while j < output.Length
      invariant j == 4 * i && i <= |input|
      invariant output[..j] == AllBytes(input[..i])
    {
      ghost var done := output[..j];
      var w := input[i];
      output[j] := w % 0x100;
      output[j + 1] := w / 0x100 % 0x100;
      output[j + 2] := w / 0x1_0000 % 0x100;
      output[j + 3] := w / 0x100_0000 % 0x100;
      assert input[..i + 1][..i] == input[..i];
      assert output[..j + 4] == done + BytesOf(w);
      i, j := i + 1, j + 4;
    }
    assert input[..i] == input;
  }

  method Decode(output: array<Word>, input: seq<Byte>)
    requires |input| == 64 && output.Length == 16
    modifies output
    ensures output[..] == WordsOf(input)
  {
    hide WordOf;
    var i, j := 0, 0;
    while j < 64
      invariant j == 4 * i && i <= 16
      invariant forall k :: 0 <= k < i ==> output[k] == WordsOf(input)[k]
    {
      output[i] := WordOf([input[j], input[j + 1], input[j + 2], input[j + 3]]);
      assert input[j..j + 4] == [input[j], input[j + 1], input[j + 2], input[j + 3]];
      i, j := i + 1, j + 4;
    }
  }

  lemma NoOperations(x: seq<Word>, s: State)
    requires |x| == 16
    ensures Operations(x, s, 0) == s
  {
  }

  /** MD5Transform */
  method Transform(state: State, block: seq<Byte>) returns (r: State)
    requires |block| == 64
    ensures r == Digested(state, block)
  {
    hide Operations, WordsOf;
    var x := new Word[16];
    Decode(x, block);
    NoOperations(x[..], state);
    r := Round1(state, x[..], state);
    r := Round2(r, x[..], state);
    r := Round3(r, x[..], state);
    r := Round4(r, x[..], state);
    r := State(Add(state.a, r.a), Add(state.b, r.b), Add(state.c, r.c), Add(state.d, r.d));
  }

  class Context {
    var state: State
    var count: (Word, Word)
    const buffer: array<Byte>

    /** What holds between calls when the message so far is m. */
    ghost predicate Holds(m: seq<Byte>)
      reads this, buffer
    {
      && buffer.Length == 64
      && count == LengthWords(|m|)
      && state == Process(m[..Whole(|m|)])
      && buffer[..|m| % 64] == m[Whole(|m|)..]
    }

    /** MD5Init */
    constructor ()
      ensures Holds([]) && fresh(buffer)
    {
      buffer := new Byte[64];
      count, state := (0, 0), Initial();
    }

    /** MD5_memcpy into the buffer */
    method Copy(index: nat, input: seq<Byte>)
      requires index + |input| <= buffer.Length
      modifies buffer
      ensures buffer[..] == old(buffer[..index]) + input + old(buffer[index + |input|..])
    {
      for i := 0 to |input|
        invariant forall k :: index <= k < index + i ==> buffer[k] == input[k - index]
        invariant forall k :: 0 <= k < buffer.Length && !(index <= k < index + i) ==> buffer[k] == old(buffer[k])
      {
        buffer[index + i] := input[i];
      }
    }

    /** The blocks of MD5Update: the buffer filled up from the input, and as many
        blocks of the input as there are. The first i bytes of the input are used. */
    method Blocks(ghost m: seq<Byte>, input: seq<Byte>, index: nat) returns (i: nat)
      requires buffer.Length == 64 && index == |m| % 64 && index + |input| < TWO32
      requires state == Process(m[..Whole(|m|)]) && buffer[..index] == m[Whole(|m|)..]
      modifies this`state, buffer
      ensures i <= |input| && Whole(|m + input|) == if i == 0 then Whole(|m|) else |m| + i
      ensures state == Process((m + input)[..Whole(|m + input|)])
      ensures i == 0 ==> buffer[..index] == old(buffer[..index])
    {
      hide Process, Digested, Whole;
      var inputLen: Word := |input|;
      var partLen := 64 - index;
      if inputLen >= partLen {
        Copy(index, input[..partLen]);
        FirstBlock(m, input, partLen);
        assert buffer[..] == m[Whole(|m|)..] + input[..partLen];
        state := Transform(state, buffer[..]);
        i := partLen;
        i := WholeBlocks(m, input, index, i);
        WholeIs(|m + input|, |m| + i);
      } else {
        i := 0;
        WholeOfAll(m, input);
      }
    }

    /** The loop over the blocks of the input, from where the buffer is full */
    method WholeBlocks(ghost m: seq<Byte>, input: seq<Byte>, ghost index: nat, start: nat) returns (i: nat)
      requires index == |m| % 64 && index + |input| < TWO32 && start == 64 - index <= |input|
      requires (|m| + start) % 64 == 0 && state == Process((m + input)[..|m| + start])
      modifies this`state
      ensures start <= i <= |input| < i + 64
      ensures (|m| + i) % 64 == 0 && state == Process((m + input)[..|m| + i])
    {
      hide Process, Digested;
      i := start;
      GuardDoesNotWrap(|m|, index, |input|, i);
      while (i + 63) % TWO32 < |input|
        invariant start <= i <= |input| && (|m| + i) % 64 == 0 && i + 63 < TWO32
        invariant state == Process((m + input)[..|m| + i])
      {
        NextBlock(m, input, i);
        state := Transform(state, input[i..i + 64]);
        i := i + 64;
        GuardDoesNotWrap(|m|, index, |input|, i);
      }
    }

    /** MD5Update: the context goes on from message m to m + input. */
    method Update(ghost m: seq<Byte>, input: seq<Byte>)
      requires Holds(m) && |m| % 64 + |input| < TWO32
      modifies this, buffer
      ensures Holds(m + input)
    {
      hide Process, LengthWords, Counted, Whole;
      IndexIsRest(|m|);
      CountIsLength(|m|, |input|);
      var index := count.0 / 8 % 64;
      count := Counted(count, |input|);
      var i := Blocks(m, input, index);
      if i > 0 {
        index := 0;
      }
      RestOfAll(m, input, i);
      ghost var kept := buffer[..index];
      Copy(index, input[i..]);
      assert buffer[..index + |input[i..]|] == kept + input[i..];
    }

    /** MD5Final: padding, length, digest; the context is cleared. */
    method Final(ghost m: seq<Byte>, digest: array<Byte>)
      requires Holds(m) && digest.Length == 16 && digest != buffer
      modifies this, buffer, digest
      ensures digest[..] == Digest(m)
      ensures state == State(0, 0, 0, 0) && count == (0, 0)
      ensures forall i :: 0 <= i < buffer.Length ==> buffer[i] == 0
    {
      hide Process, Digested, LengthWords, Whole, Padding, BytesOf, AllBytes, Counted;
      IndexIsRest(|m|);
      PaddingIsPrefix(|m|);
      PaddedInBlocks(m);
      var bits := new Byte[8];
      Encode(bits, [count.0, count.1]);
      TwoWords(count.0, count.1);
      var index := count.0 / 8 % 64;
      var padLen := if index < 56 then 56 - index else 120 - index;
      Update(m, PADDING[..padLen]);
      assert bits[..] == LengthBytes(|m|);
      Update(m + Padding(|m|), bits[..]);
      WholeIs(|Padded(m)|, |Padded(m)|);
      assert Padded(m)[..|Padded(m)|] == Padded(m);
      Encode(digest, [state.a, state.b, state.c, state.d]);
      FourWords(state);
      Clear();
    }

    /** MD5_memset over the whole context */
    method Clear()
      modifies this, buffer
      ensures state == State(0, 0, 0, 0) && count == (0, 0)
      ensures forall i :: 0 <= i < buffer.Length ==> buffer[i] == 0
    {
      for i := 0 to buffer.Length
        invariant forall k :: 0 <= k < i ==> buffer[k] == 0
      {
        buffer[i] := 0;
      }
      state, count := State(0, 0, 0, 0), (0, 0);
    }
  }

  const PADDING: seq<Byte> := [0x80] + Zeros(63)

  /** The padding computed from the count is the least that leaves room for the length. */
  lemma PaddingIsPrefix(n: nat)
    ensures Padding(n) == PADDING[..if n % 64 < 56 then 56 - n % 64 else 120 - n % 64]
  {
    var q := n / 64;
    assert (55 - n) % 64 == (55 - n % 64) % 64 by {
      assert 55 - n == (55 - n % 64) + 64 * -q;
    }
  }

  lemma TwoWords(v: Word, w: Word)
    ensures AllBytes([v, w]) == BytesOf(v) + BytesOf(w)
  {
    hide BytesOf;
    assert [v, w][..1] == [v] && [v][..0] == [];
  }

  lemma FourWords(s: State)
    ensures AllBytes([s.a, s.b, s.c, s.d]) == StateBytes(s)
  {
    hide BytesOf;
    var w := [s.a, s.b, s.c, s.d];
    assert w[..3] == [s.a, s.b, s.c] && w[..3][..2] == [s.a, s.b];
    TwoWords(s.a, s.b);
    assert AllBytes(w[..3]) == AllBytes([s.a, s.b]) + BytesOf(s.c);
  }

  lemma RestOfAll(m: seq<Byte>, input: seq<Byte>, i: nat)
    requires i <= |input| && Whole(|m + input|) == if i == 0 then Whole(|m|) else |m| + i
    ensures var kept := if i == 0 then m[Whole(|m|)..] else [];
            (m + input)[Whole(|m + input|)..] == kept + input[i..] && |m + input| % 64 == |kept| + |input| - i
  {
  }

  lemma WholeIs(n: nat, w: nat)
    requires w <= n < w + 64 && w % 64 == 0
    ensures Whole(n) == w && n % 64 == n - w
  {
  }

  /** Input that does not fill the block leaves the whole blocks as they are. */
  lemma WholeOfAll(m: seq<Byte>, input: seq<Byte>)
    requires |m| % 64 + |input| < 64
    ensures Whole(|m + input|) == Whole(|m|)
    ensures (m + input)[..Whole(|m|)] == m[..Whole(|m|)]
  {
    WholeIs(|m + input|, Whole(|m|));
  }

  lemma FirstBlock(m: seq<Byte>, input: seq<Byte>, partLen: nat)
    requires partLen == 64 - |m| % 64 && partLen <= |input|
    ensures (|m| + partLen) % 64 == 0
    ensures Process((m + input)[..|m| + partLen]) == Digested(Process(m[..Whole(|m|)]), m[Whole(|m|)..] + input[..partLen])
  {
    hide Digested, Whole;
    var all, w := m + input, Whole(|m|);
    assert all[..w + 64][..w] == m[..w];
    assert all[..w + 64][w..] == m[w..] + input[..partLen];
  }

  lemma NextBlock(m: seq<Byte>, input: seq<Byte>, i: nat)
    requires (|m| + i) % 64 == 0 && i + 64 <= |input|
    ensures (|m| + i + 64) % 64 == 0
    ensures Process((m + input)[..|m| + i + 64]) == Digested(Process((m + input)[..|m| + i]), input[i..i + 64])
  {
    hide Digested;
    var all, n := m + input, |m| + i;
    assert all[..n + 64][..n] == all[..n];
    assert all[..n + 64][n..] == input[i..i + 64];
  }

  function Concat(chunks: seq<seq<Byte>>): seq<Byte> {
    if chunks == [] then [] else Concat(chunks[..|chunks| - 1]) + chunks[|chunks| - 1]
  }

  /** The length of a piece and of the bytes left over before it fit in 32 bits. */
  ghost predicate Fits(chunks: seq<seq<Byte>>, k: nat)
    requires k < |chunks|
  {
    |Concat(chunks[..k])| % 64 + |chunks[k]| < TWO32
  }

  /** However the message is cut into pieces, the digest is that of the message. */
  method DigestOfPieces(chunks: seq<seq<Byte>>) returns (digest: array<Byte>)
    requires forall k :: 0 <= k < |chunks| ==> Fits(chunks, k)
    ensures digest[..] == Digest(Concat(chunks))
  {
    hide Process, Digested, LengthWords, Whole, Digest, Context.Holds;
    var context := new Context();
    for k := 0 to |chunks|
      invariant context.Holds(Concat(chunks[..k])) && fresh(context) && fresh(context.buffer)
    {
      assert Fits(chunks, k);
      assert chunks[..k + 1][..k] == chunks[..k];
      context.Update(Concat(chunks[..k]), chunks[k]);
    }
    assert chunks[..|chunks|] == chunks;
    digest := new Byte[16];
    context.Final(Concat(chunks), digest);
  }
}
