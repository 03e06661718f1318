/** The blocks handed to flush_block and what it means that they tile the input. */
module Blocks {
  import opened Wrappers
  import opened Lz77

  /** One call of flush_block: the tokens tallied for it, the buffer passed (None
      when the start of the block has left the window), its length, the eof flag. */
  datatype Block = Block(tokens: seq<Token>, stored: Option<seq<Uch>>, storedLen: int, eof: bool)

  function Flatten(blocks: seq<Block>): seq<Token> {
    if blocks == [] then [] else Flatten(blocks[..|blocks| - 1]) + blocks[|blocks| - 1].tokens
  }

  /** The blocks cut input[..end] into consecutive pieces: after each block the
      tokens so far decode to the input up to its end, its stored length is
      exactly the length of its piece, and a buffer passed holds that piece. */
  ghost predicate Tiled(input: seq<Uch>, blocks: seq<Block>, end: int)
    decreases |blocks|
  {
    if blocks == [] then end == 0
    else
      var b := blocks[|blocks| - 1];
      var start := end - b.storedLen;
      && 0 <= start <= end <= |input|
      && Tiled(input, blocks[..|blocks| - 1], start)
      && AllValid(b.tokens)
      && Decode(Flatten(blocks)) == Some(input[..end])
      && (b.stored.Some? ==> b.stored.value == input[start..end])
  }

  lemma FlattenAppend(blocks: seq<Block>, b: Block)
    ensures Flatten(blocks + [b]) == Flatten(blocks) + b.tokens
  {
    assert (blocks + [b])[..|blocks|] == blocks;
  }

  /** One more token for the block being made. */
  lemma TokenAppend(blocks: seq<Block>, tokens: seq<Token>, t: Token)
    requires AllValid(tokens) && ValidToken(t)
    ensures Flatten(blocks) + (tokens + [t]) == Flatten(blocks) + tokens + [t] && AllValid(tokens + [t])
    ensures Decode(Flatten(blocks) + (tokens + [t])) == match Decode(Flatten(blocks) + tokens)
                                                        case None => Option.None
                                                        case Some(out) => DecodeToken(out, t)
  {
    hide Flatten, Decode, DecodeToken;
    assert Flatten(blocks) + (tokens + [t]) == Flatten(blocks) + tokens + [t];
    DecodeAppend(Flatten(blocks) + tokens, t);
  }

  /** Closing a block extends the tiling. */
  lemma TiledAppend(input: seq<Uch>, blocks: seq<Block>, start: int, end: int, b: Block)
    requires Tiled(input, blocks, start) && 0 <= start <= end <= |input|
    requires AllValid(b.tokens) && b.storedLen == end - start
    requires Decode(Flatten(blocks) + b.tokens) == Some(input[..end])
    requires b.stored.Some? ==> b.stored.value == input[start..end]
    ensures Tiled(input, blocks + [b], end)
  {
    assert (blocks + [b])[..|blocks|] == blocks;
    FlattenAppend(blocks, b);
  }

  lemma {:induction false} TiledFacts(input: seq<Uch>, blocks: seq<Block>, end: int)
    requires Tiled(input, blocks, end)
    ensures 0 <= end <= |input| && Decode(Flatten(blocks)) == Some(input[..end])
    ensures AllValid(Flatten(blocks))
    decreases |blocks|
  {
    if blocks != [] {
      var b := blocks[|blocks| - 1];
      TiledFacts(input, blocks[..|blocks| - 1], end - b.storedLen);
    }
  }

  ghost function TotalLength(blocks: seq<Block>): int {
    if blocks == [] then 0 else TotalLength(blocks[..|blocks| - 1]) + blocks[|blocks| - 1].storedLen
  }

  /** No gap and no overlap: the pieces add up to the whole, and the first k
      blocks decode to the input up to where the next piece starts. */
  lemma {:induction false} TiledPrefix(input: seq<Uch>, blocks: seq<Block>, end: int, k: nat)
    requires Tiled(input, blocks, end) && k <= |blocks|
    ensures TotalLength(blocks) == end
    ensures Tiled(input, blocks[..k], TotalLength(blocks[..k]))
    decreases |blocks|
  {
    if k < |blocks| {
      var init := blocks[..|blocks| - 1];
      assert init[..k] == blocks[..k];
      TiledPrefix(input, init, end - blocks[|blocks| - 1].storedLen, k);
    } else {
      assert blocks[..k] == blocks;
      if blocks != [] {
        var init := blocks[..|blocks| - 1];
        TiledPrefix(input, init, end - blocks[|blocks| - 1].storedLen, 0);
      }
    }
  }
}
