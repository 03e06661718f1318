/** `bits.c` and the output macros of `gzip.h`: a bit stream through a 16 bit
    word and a byte buffer. */
module BitWriter {
  import opened Bitwise
  import opened BitStrings

  const OUTBUFSIZ := 16384
  const BUF_SIZE := 16

  type Byte = b: int | 0 <= b < 0x100

  /** The bits of a byte sequence, low bit of each byte first. */
  ghost function ByteBits(s: seq<Byte>): seq<bool> {
    if s == [] then [] else ByteBits(s[..|s| - 1]) + Bits(s[|s| - 1], 8)
  }

  lemma ByteBitsAppend(s: seq<Byte>, b: Byte)
    ensures ByteBits(s + [b]) == ByteBits(s) + Bits(b, 8)
  {
    assert (s + [b])[..|s|] == s;
  }

  lemma {:induction false} ByteBitsLength(s: seq<Byte>)
    ensures |ByteBits(s)| == 8 * |s|
  {
    if s != [] {
      ByteBitsLength(s[..|s| - 1]);
    }
  }

  /** A word as two bytes, low byte first. */
  lemma WordBits(w: nat)
    requires w < 0x1_0000
    ensures Bits(w, 16) == Bits(w % 0x100, 8) + Bits(w / 0x100, 8)
  {
    SmallPowers();
    BitsJoin(w % 0x100, 8, w / 0x100, 8);
  }

  lemma ByteBitsWord(s: seq<Byte>, lo: Byte, hi: Byte)
    ensures s + [lo] + [hi] == s + [lo, hi]
    ensures ByteBits(s + [lo, hi]) == ByteBits(s) + Bits(lo + hi * 0x100, 16)
  {
    hide ByteBits, Bits;
    assert s + [lo] + [hi] == s + [lo, hi];
    ByteBitsAppend(s, lo);
    ByteBitsAppend(s + [lo], hi);
    WordBits(lo + hi * 0x100);
  }

  /** How many zero bits bi_windup adds: fewer than eight, up to a byte boundary. */
  function Padding(valid: nat): (k: nat)
    ensures valid <= 16 ==> k < 8 && (valid + k) % 8 == 0
  {
    if valid > 16 then 0 else if valid > 8 then 16 - valid else if valid > 0 then 8 - valid else 0
  }

  lemma {:induction false} ByteBitsConcat(s: seq<Byte>, t: seq<Byte>)
    ensures ByteBits(s + t) == ByteBits(s) + ByteBits(t)
  {
    if t == [] {
      assert s + t == s;
    } else {
      var init, last := t[..|t| - 1], t[|t| - 1];
      assert s + t == (s + init) + [last] && t == init + [last];
      ByteBitsConcat(s, init);
      ByteBitsAppend(s + init, last);
      ByteBitsAppend(init, last);
    }
  }

  /** A value that fits into the word joins the bits there. */
  lemma WordFits(buf: nat, valid: nat, value: nat, length: nat)
    requires buf < Pow2(valid) && value < Pow2(length)
    ensures var word := Or(buf, ShiftLeft(value, valid));
            word < Pow2(valid + length) && Bits(word, valid + length) == Bits(buf, valid) + Bits(value, length)
  {
    hide Pow2, Or, Bits, ShiftLeft;
    ShiftLeftIs(value, valid);
    OrDisjoint(buf, valid, value);
    BitsJoin(buf, valid, value, length);
    Pow2Add(valid, length);
    var p, q := Pow2(valid), Pow2(length);
    assert value * p <= (q - 1) * p;
  }

  /** A value that does not fit is split between two words. */
  lemma WordOverflows(buf: nat, valid: nat, value: nat, length: nat)
    requires buf < Pow2(valid) && value < Pow2(length) && valid <= 16 <= valid + length
    ensures var word := Or(buf, ShiftLeft(value, valid)) % 0x1_0000;
            var rest := ShiftRight(value, 16 - valid);
            && rest < Pow2(valid + length - 16)
            && Bits(word, 16) + Bits(rest, valid + length - 16) == Bits(buf, valid) + Bits(value, length)
  {
    hide Pow2, Or, Bits, ShiftLeft, ShiftRight;
    var m := valid + length - 16;
    WordFits(buf, valid, value, length);
    ShiftLeftIs(value, valid);
    OrDisjoint(buf, valid, value);
    var rest := ShiftRight(value, 16 - valid);
    var low := ShiftRightSplits(value, 16 - valid);
    Pow2Add(valid, 16 - valid);
    Pow2Add(16 - valid, m);
    SmallPowers();
    var word := SplitNumbers(buf, value, low, rest, Pow2(valid), Pow2(16 - valid), Pow2(m));
    BitsJoin(word, 16, rest, m);
  }

  lemma SplitNumbers(buf: nat, value: nat, low: nat, rest: nat, p: nat, q: nat, r: nat) returns (word: nat)
    requires value == low + rest * q && value < q * r && buf < p && low < q && p * q == 0x1_0000
    ensures buf + value * p == word + rest * 0x1_0000 && word < 0x1_0000
    ensures (buf + value * p) % 0x1_0000 == word && rest < r
  {
    var lowp := low * p;
    word := buf + lowp;
    ProductSplits(low, rest, p, q);
    ProductBelow(low, p, q);
    QuotientBelow(low, rest, q, r);
  }

  lemma ProductSplits(low: nat, rest: nat, p: nat, q: nat)
    ensures (low + rest * q) * p == low * p + rest * (p * q)
  {
    assert (low + rest * q) * p == low * p + (rest * q) * p;
    assert (rest * q) * p == rest * (p * q);
  }

  lemma ProductBelow(low: nat, p: nat, q: nat)
    requires low < q
    ensures low * p + p <= p * q
  {
    assert (low + 1) * p <= q * p;
  }

  lemma QuotientBelow(low: nat, rest: nat, q: nat, r: nat)
    requires low + rest * q < q * r
    ensures rest < r
  {
    assert rest >= r ==> rest * q >= r * q;
  }

  /** The unused bits of the word are zeros. */
  lemma PadWord(buf: nat, valid: nat)
    requires valid <= 16 && buf < Pow2(valid)
    ensures buf < 0x1_0000 && Bits(buf, 16) == Bits(buf, valid) + Zeros(16 - valid)
    ensures valid <= 8 ==> buf < 0x100 && Bits(buf, 8) == Bits(buf, valid) + Zeros(8 - valid)
    ensures valid == 0 ==> Bits(buf, valid) == [] && Zeros(0) == []
  {
    hide Pow2, Bits;
    SmallPowers();
    PadTo(buf, valid, 16);
    if valid <= 8 {
      PadTo(buf, valid, 8);
    }
  }

  lemma PadTo(buf: nat, valid: nat, n: nat)
    requires valid <= n && buf < Pow2(valid)
    ensures buf < Pow2(n) && Bits(buf, n) == Bits(buf, valid) + Zeros(n - valid)
  {
    hide Bits, Pow2, Zeros;
    BitsJoin(buf, valid, 0, n - valid);
    BitsOfZero(n - valid);
    Pow2Grows(valid, n);
    assert 0 * Pow2(valid) == 0;
  }

  /** LEN and NLEN, low byte first. */
  function StoredHeader(length: nat): seq<Byte> {
    var len := length % 0x1_0000;
    var nlen := 0xffff - len;
    [len % 0x100, len / 0x100, nlen % 0x100, nlen / 0x100]
  }

  /** Read back as numbers, LEN is the length in 16 bits and NLEN its complement
      (section 3.2.4 of RFC 1951). */
  lemma HeaderReadBack(length: nat, i: nat)
    requires i < 16
    ensures |StoredHeader(length)| == 4
    ensures var h := StoredHeader(length);
            var len: nat, nlen: nat := h[0] as int + 0x100 * h[1] as int, h[2] as int + 0x100 * h[3] as int;
            len == length % 0x1_0000 && (Bit(nlen, i) <==> !Bit(len, i))
  {
    hide Bit, Pow2;
    SmallPowers();
    BitOfComplement(length % 0x1_0000, 16, i);
  }

  lemma NoBits()
    ensures Bits(0, 0) == [] && Pow2(0) == 1
  {
  }

  // ----- reading back

  datatype Field = Field(value: nat, length: nat)

  ghost predicate Fits(fs: seq<Field>) {
    forall i :: 0 <= i < |fs| ==> fs[i].value < Pow2(fs[i].length)
  }

  /** The stream after one send_bits for each field. */
  ghost function FieldBits(fs: seq<Field>): seq<bool> {
    if fs == [] then [] else Bits(fs[0].value, fs[0].length) + FieldBits(fs[1..])
  }

  lemma NoFields()
    ensures FieldBits([]) == []
  {
  }

  lemma {:induction false} FieldBitsSnoc(fs: seq<Field>, f: Field)
    ensures FieldBits(fs + [f]) == FieldBits(fs) + Bits(f.value, f.length)
  {
    hide Bits;
    if fs == [] {
      assert [f][1..] == [];
    } else {
      FieldBitsSnoc(fs[1..], f);
      assert (fs + [f])[1..] == fs[1..] + [f];
    }
  }

  /** A reader that knows the lengths recovers every value: two sequences of
      fields of the same lengths with the same stream, whatever follows, agree.
      SendFields puts out this stream. */
  lemma {:induction false} FieldsRecovered(fs: seq<Field>, gs: seq<Field>, rest: seq<bool>, rest': seq<bool>)
    requires |fs| == |gs| && Fits(fs) && Fits(gs)
    requires forall i :: 0 <= i < |fs| ==> fs[i].length == gs[i].length
    requires FieldBits(fs) + rest == FieldBits(gs) + rest'
    ensures fs == gs && rest == rest'
  {
    if fs == [] {
      assert FieldBits(fs) + rest == rest && FieldBits(gs) + rest' == rest';
    } else {
      hide Bits, Pow2;
      var n := fs[0].length;
      var s := FieldBits(fs) + rest;
      assert s == Bits(fs[0].value, n) + (FieldBits(fs[1..]) + rest);
      assert s == Bits(gs[0].value, n) + (FieldBits(gs[1..]) + rest');
      assert s[..n] == Bits(fs[0].value, n) == Bits(gs[0].value, n);
      assert s[n..] == FieldBits(fs[1..]) + rest == FieldBits(gs[1..]) + rest';
      BitsInjective(fs[0].value, gs[0].value, n);
      FieldsRecovered(fs[1..], gs[1..], rest, rest');
      assert fs == [fs[0]] + fs[1..] && gs == [gs[0]] + gs[1..];
    }
  }

  // ----- bi_reverse

  class Output {
    var biBuf: nat // an unsigned short
    var biValid: nat
    const outbuf: array<Byte>
    var outcnt: nat
    var file: seq<Byte> // what flush_outbuf has written

    constructor ()
      ensures Valid() && Stream() == [] && file == [] && fresh(outbuf)
    {
      biBuf, biValid, outcnt, file := 0, 0, 0, [];
      outbuf := new Byte[OUTBUFSIZ];
    }

    /** All bits of biBuf above the valid ones are zero; the buffer is never full. */
    ghost predicate Valid()
      reads this
    {
      && outbuf.Length == OUTBUFSIZ && outcnt < OUTBUFSIZ
      && biValid <= BUF_SIZE && biBuf < Pow2(biValid)
    }

    /** The bytes put out so far. */
    ghost function Written(): seq<Byte>
      requires outcnt <= outbuf.Length
      reads this, outbuf
    {
      file + outbuf[..outcnt]
    }

    /** The bits sent so far: those put out, and those still in biBuf. */
    ghost function Stream(): seq<bool>
      requires outcnt <= outbuf.Length
      reads this, outbuf
    {
      ByteBits(Written()) + Bits(biBuf, biValid)
    }

    method FlushOutbuf()
      requires outcnt <= outbuf.Length
      modifies this`file, this`outcnt
      ensures outcnt == 0 && Written() == old(Written())
    {
      if outcnt == 0 {
        return;
      }
      file := file + outbuf[..outcnt];
      outcnt := 0;
    }

    /** outbuf[outcnt++] = c */
    method Store(c: Byte)
      requires outcnt < outbuf.Length
      modifies this`outcnt, outbuf
      ensures outcnt == old(outcnt) + 1 && Written() == old(Written()) + [c]
    {
      outbuf[outcnt] := c;
      outcnt := outcnt + 1;
      assert outbuf[..outcnt] == old(outbuf[..outcnt]) + [c];
    }

    method PutByte(c: Byte)
      requires outbuf.Length == OUTBUFSIZ && outcnt < OUTBUFSIZ
      modifies this`file, this`outcnt, outbuf
      ensures outcnt < OUTBUFSIZ && Written() == old(Written()) + [c]
    {
      Store(c);
      if outcnt == OUTBUFSIZ {
        FlushOutbuf();
      }
    }

    /** put_short: low byte first, whether or not the buffer fills up between. */
    method PutShort(w: nat)
      requires outbuf.Length == OUTBUFSIZ && outcnt < OUTBUFSIZ && w < 0x1_0000
      modifies this`file, this`outcnt, outbuf
      ensures outcnt < OUTBUFSIZ && Written() == old(Written()) + [w % 0x100, w / 0x100]
      ensures ByteBits(Written()) == ByteBits(old(Written())) + Bits(w, 16)
    {
      hide ByteBits, Bits;
      var lo: Byte, hi: Byte := w % 0x100, w / 0x100;
      if outcnt < OUTBUFSIZ - 2 {
        Store(lo);
        Store(hi);
      } else {
        PutByte(lo);
        PutByte(hi);
      }
      ByteBitsWord(old(Written()), lo, hi);
    }

    /** send_bits: the stream grows by the bits of the value, low bit first. */
    method SendBits(value: nat, length: nat)
      requires Valid() && 1 <= length <= 16 && value < Pow2(length)
      modifies this, outbuf
      ensures Valid() && Stream() == old(Stream()) + Bits(value, length)
    {
      hide Pow2, Or, ShiftLeft, ShiftRight, Bits, ByteBits;
      ghost var bytes, bits := ByteBits(Written()), Bits(biBuf, biValid);
      if biValid > BUF_SIZE - length {
        WordOverflows(biBuf, biValid, value, length);
        biBuf := Or(biBuf, ShiftLeft(value, biValid)) % 0x1_0000;
        PutShort(biBuf);
        ghost var word := biBuf;
        biBuf := ShiftRight(value, BUF_SIZE - biValid);
        biValid := biValid + length - BUF_SIZE;
        assert bytes + Bits(word, 16) + Bits(biBuf, biValid) == bytes + (Bits(word, 16) + Bits(biBuf, biValid));
        assert bytes + bits + Bits(value, length) == bytes + (bits + Bits(value, length));
      } else {
        WordFits(biBuf, biValid, value, length);
        biBuf := Or(biBuf, ShiftLeft(value, biValid));
        biValid := biValid + length;
        assert bytes + bits + Bits(value, length) == bytes + (bits + Bits(value, length));
      }
    }

    /** bi_windup: zero bits up to the next byte boundary, fewer than eight. */
    method Windup()
      requires Valid()
      modifies this, outbuf
      ensures Valid() && biValid == 0
      ensures Stream() == ByteBits(Written()) == old(Stream()) + Zeros(Padding(old(biValid)))
    {
      hide Pow2, Bits, ByteBits, Zeros;
      ghost var bytes, bits, valid := Written(), Bits(biBuf, biValid), biValid;
      PadWord(biBuf, biValid);
      if biValid > 8 {
        PutShort(biBuf);
        assert ByteBits(bytes) + (bits + Zeros(16 - valid)) == ByteBits(bytes) + bits + Zeros(16 - valid);
      } else if biValid > 0 {
        PutByte(biBuf);
        ByteBitsAppend(bytes, biBuf);
        assert ByteBits(bytes) + (bits + Zeros(8 - valid)) == ByteBits(bytes) + bits + Zeros(8 - valid);
      }
      biBuf := 0;
      biValid := 0;
      NoBits();
      assert Stream() == ByteBits(Written());
    }

    /** while (len--) put_byte(*buf++) */
    method PutBytes(buf: seq<Byte>)
      requires outbuf.Length == OUTBUFSIZ && outcnt < OUTBUFSIZ
      modifies this`file, this`outcnt, outbuf
      ensures outcnt < OUTBUFSIZ && Written() == old(Written()) + buf
    {
      var i := 0;
      while i < |buf|
        invariant 0 <= i <= |buf| && outcnt < OUTBUFSIZ
        invariant Written() == old(Written()) + buf[..i]
      {
        PutByte(buf[i]);
        assert buf[..i + 1] == buf[..i] + [buf[i]];
        i := i + 1;
      }
      assert buf[..i] == buf;
    }

    /** copy_block: aligned to a byte, the length and its complement if asked
        for (section 3.2.4 of RFC 1951), then the bytes themselves. */
    method CopyBlock(buf: seq<Byte>, header: bool)
      requires Valid()
      modifies this, outbuf
      ensures Valid() && biValid == 0
      ensures Stream() == old(Stream()) + Zeros(Padding(old(biValid)))
                          + ByteBits((if header then StoredHeader(|buf|) else []) + buf)
    {
      hide Bits, ByteBits, Zeros, Padding, Pow2;
      Windup();
      NoBits();
      ghost var start, head := Written(), [];
      if header {
        PutShort(|buf| % 0x1_0000);
        PutShort(0xffff - |buf| % 0x1_0000);
        head := StoredHeader(|buf|);
      }
      assert Written() == start + head;
      PutBytes(buf);
      assert start + head + buf == start + (head + buf);
      ByteBitsConcat(start, head + buf);
    }

    /** One send_bits for each field. */
    method SendFields(fs: seq<Field>)
      requires Valid() && Fits(fs) && forall i :: 0 <= i < |fs| ==> 1 <= fs[i].length <= 16
      modifies this, outbuf
      ensures Valid() && Stream() == old(Stream()) + FieldBits(fs)
    {
      hide Bits, ByteBits, Pow2, FieldBits;
      NoFields();
      for k := 0 to |fs|
        invariant Valid() && Stream() == old(Stream()) + FieldBits(fs[..k])
      {
        SendBits(fs[k].value, fs[k].length);
        FieldBitsSnoc(fs[..k], fs[k]);
        assert fs[..k + 1] == fs[..k] + [fs[k]];
      }
      assert fs[..|fs|] == fs;
    }
  }

  ghost function Backwards(s: seq<bool>): (r: seq<bool>)
    ensures |r| == |s|
  {
    if s == [] then [] else Backwards(s[1..]) + [s[0]]
  }

  /** After k turns: the first k bits, reversed, one place up; and the others. */
  ghost predicate ReversedSoFar(code: nat, k: nat, res: nat, c: nat) {
    && res % 2 == 0 && res / 2 < Pow2(k)
    && Bits(res / 2, k) == Backwards(Bits(code, k)) && c == ShiftRight(code, k)
  }

  lemma ReverseStart(code: nat)
    ensures ReversedSoFar(code, 0, 0, code)
  {
  }

  lemma ReverseStep(code: nat, k: nat, res: nat, c: nat)
    requires ReversedSoFar(code, k, res, c)
    ensures ReversedSoFar(code, k + 1, 2 * Or(res, c % 2), c / 2)
  {
    hide Or, ShiftRight, Bits, Backwards, Pow2;
    OrLowest(res / 2, c % 2);
    BitsSnoc(code, k);
    BackwardsSnoc(Bits(code, k), c % 2 == 1);
    BitsCons(res / 2, c % 2, k);
  }

  lemma BitsCons(v: nat, b: nat, k: nat)
    requires b < 2
    ensures Bits(2 * v + b, k + 1) == [b == 1] + Bits(v, k)
    ensures v < Pow2(k) ==> 2 * v + b < Pow2(k + 1)
  {
    assert (2 * v + b) / 2 == v && (2 * v + b) % 2 == b;
  }

  lemma {:induction false} BackwardsSnoc(s: seq<bool>, x: bool)
    ensures Backwards(s + [x]) == [x] + Backwards(s)
  {
    if s != [] {
      assert (s + [x])[1..] == s[1..] + [x];
      BackwardsSnoc(s[1..], x);
    }
  }

  lemma {:induction false} BackwardsTwice(s: seq<bool>)
    ensures Backwards(Backwards(s)) == s
  {
    if s != [] {
      BackwardsTwice(s[1..]);
      BackwardsSnoc(Backwards(s[1..]), s[0]);
    }
  }

  /** bi_reverse: the first len bits of the code, in the opposite order, so that
      sending the result puts out the code most significant bit first. */
  method Reverse(code: nat, len: nat) returns (r: nat)
    requires 1 <= len <= 15
    ensures r < Pow2(len) && Bits(r, len) == Backwards(Bits(code, len))
  {
    hide Or, Bits, Backwards, ShiftRight, Pow2;
    var res, c, n := 0, code, len;
    ReverseStart(code);
    while true
      invariant 1 <= n <= len && ReversedSoFar(code, len - n, res, c)
      decreases n
    {
      ReverseStep(code, len - n, res, c);
      res := Or(res, c % 2);
      c := c / 2;
      res := 2 * res;
      n := n - 1;
      if n == 0 {
        break;
      }
    }
    return res / 2;
  }

  /** Reversing is an involution: reversing the reverse of a code of the given
      length gives the code back. */
  lemma ReverseInvolution(code: nat, r: nat, t: nat, len: nat)
    requires code < Pow2(len) && t < Pow2(len)
    requires Bits(r, len) == Backwards(Bits(code, len)) && Bits(t, len) == Backwards(Bits(r, len))
    ensures t == code
  {
    BackwardsTwice(Bits(code, len));
    BitsInjective(t, code, len);
  }
}
