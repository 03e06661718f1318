/** The token stream that `deflate.c` hands to `ct_tally`, and its meaning.

    A literal stands for itself; a pair (length, distance) stands for a copy of
    earlier output, made byte by byte so that a copy may overlap itself
    (section 3.2.3 of RFC 1951).  Decoding fails on a distance that reaches
    before the start of the data. */
module Lz77 {
  import opened Wrappers

  type Uch = bv8

  const MIN_MATCH := 3
  const MAX_MATCH := 258
  const MIN_LOOKAHEAD := MAX_MATCH + MIN_MATCH + 1
  const WSIZE := 0x8000
  const WINDOW_SIZE := 2 * WSIZE
  const MAX_DIST := WSIZE - MIN_LOOKAHEAD

  datatype Token = Literal(c: Uch) | Match(length: int, distance: int)

  predicate ValidToken(t: Token) {
    t.Match? ==> MIN_MATCH <= t.length <= MAX_MATCH && 1 <= t.distance <= MAX_DIST
  }

  /** Append `length` bytes, each the byte `distance` positions back. */
  function Copy(out: seq<Uch>, length: nat, distance: nat): (r: seq<Uch>)
    requires 1 <= distance <= |out|
    ensures |r| == |out| + length
    ensures r[..|out|] == out
  {
    if length == 0 then out else
      var r := Copy(out, length - 1, distance);
      r + [r[|r| - distance]]
  }

  function DecodeToken(out: seq<Uch>, t: Token): Option<seq<Uch>> {
    match t
    case Literal(c) => Some(out + [c])
    case Match(length, distance) =>
      if 0 <= length && 1 <= distance <= |out| then Some(Copy(out, length, distance)) else None
  }

  /** The bytes a whole stream stands for, or None if some copy is out of range. */
  function Decode(ts: seq<Token>): Option<seq<Uch>> {
    if ts == [] then Some([])
    else
      match Decode(ts[..|ts| - 1])
      case None => None
      case Some(out) => DecodeToken(out, ts[|ts| - 1])
  }

  ghost predicate AllValid(ts: seq<Token>) {
    forall k :: 0 <= k < |ts| ==> ValidToken(ts[k])
  }

  lemma DecodeAppend(ts: seq<Token>, t: Token)
    ensures Decode(ts + [t]) == match Decode(ts)
                                case None => None
                                case Some(out) => DecodeToken(out, t)
  {
    assert (ts + [t])[..|ts|] == ts;
  }

  /** Position `j` holds the same byte as the position `distance` before it. */
  predicate Repeats(data: seq<Uch>, j: int, distance: int) {
    0 <= j - distance < |data| && 0 <= j < |data| && data[j] == data[j - distance]
  }

  ghost predicate RunRepeats(data: seq<Uch>, from: int, to: int, distance: int) {
    forall j :: from <= j < to ==> Repeats(data, j, distance)
  }

  /** A copy reproduces the next `length` bytes of `data` when those bytes
      repeat `distance` positions back in `data` itself, overlap included. */
  lemma {:induction false} CopyReproduces(data: seq<Uch>, at: nat, length: nat, distance: nat)
    requires 1 <= distance <= at && at + length <= |data|
    requires RunRepeats(data, at, at + length, distance)
    ensures Copy(data[..at], length, distance) == data[..at + length]
  {
    if length > 0 {
      CopyReproduces(data, at, length - 1, distance);
      var j := at + length - 1;
      assert Repeats(data, j, distance);
      assert data[..j + 1] == data[..j] + [data[j]];
    }
  }

  /** Decoding is monotone: a stream decodes to an extension of what any prefix
      of it decodes to, and a prefix of a decodable stream is decodable. */
  lemma {:induction false} DecodePrefix(ts: seq<Token>, us: seq<Token>)
    requires Decode(ts + us).Some?
    ensures Decode(ts).Some? && Decode(ts).value <= Decode(ts + us).value
  {
    if us == [] {
      assert ts + us == ts;
    } else {
      var init := us[..|us| - 1];
      assert ts + us == (ts + init) + [us[|us| - 1]];
      DecodeAppend(ts + init, us[|us| - 1]);
      DecodePrefix(ts, init);
    }
  }
}
