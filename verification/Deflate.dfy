/** `deflate.c`: the sliding window compressor, as an object whose fields are
    the source's file-scope variables. */
module Deflate {
  import opened Wrappers
  import opened Lz77
  import opened HashKey
  import opened HashChains
  import opened MatchSearch
  import opened Blocks
  import opened Parse
  import opened ParseWindow
  import opened ParseSteps

  /** Matches of length 3 are discarded if their distance exceeds TOO_FAR. */
  const TOO_FAR := 4096

  const FAST: bv16 := 4
  const SLOW: bv16 := 2

  function ConfigurationTable(level: nat): Config
    requires 1 <= level <= 9
  {
    match level
    case 1 => Config(4, 4, 8, 4)
    case 2 => Config(4, 5, 16, 8)
    case 3 => Config(4, 6, 32, 32)
    case 4 => Config(4, 4, 16, 16)
    case 5 => Config(8, 16, 32, 32)
    case 6 => Config(8, 16, 128, 128)
    case 7 => Config(8, 32, 128, 256)
    case 8 => Config(32, 128, 258, 1024)
    case _ => Config(32, 258, 258, 4096)
  }

  /** The same table by columns */
  lemma Columns(level: nat)
    requires 1 <= level <= 9
    ensures ConfigurationTable(level) == Config([4, 4, 4, 4, 8, 8, 8, 32, 32][level - 1],
                                                [4, 5, 6, 4, 16, 16, 32, 128, 258][level - 1],
                                                [8, 16, 32, 16, 32, 128, 128, 258, 258][level - 1],
                                                [4, 8, 32, 16, 32, 128, 256, 1024, 4096][level - 1])
  {
  }

  /** The tokens of a whole run, by its level */
  ghost predicate Chosen(data: seq<Uch>, level: nat, c: Config, ts: seq<Token>, looks: map<nat, Look>) {
    if level <= 3 then GreedyParse(data, c, ts, looks) else LazyParse(data, c, ts, looks)
  }

  class Deflater {
    // The input file and how much of it read_buf has delivered.
    const input: seq<Uch>
    var consumed: nat
    var readError: bool

    // The window has MAX_MATCH + 1 guard bytes behind its 2 * WSIZE bytes.
    const window: array<Uch>
    const head: array<nat>
    const prev: array<nat>

    var strstart: nat
    var lookahead: nat
    var eofile: bool
    var insH: Key
    var prevLength: nat
    var matchStart: int
    var blockStart: int

    var comprLevel: nat
    var maxLazyMatch: nat
    var goodMatch: nat
    var niceMatch: nat
    var maxChainLength: nat

    // The tokens tallied since the last flush, and the blocks flushed so far.
    var tokens: seq<Token>
    var blocks: seq<Block>

    ghost var base: nat // absolute position of window[0]
    ghost var inserted: set<nat> // absolute positions given to INSERT_STRING
    ghost var top: nat // window position after the last of them

    constructor (data: seq<Uch>)
      ensures input == data && consumed == 0 && !readError
      ensures Shape() && fresh(window) && fresh(head) && fresh(prev)
      ensures tokens == [] && blocks == []
    {
      input, consumed, readError := data, 0, false;
      window := new Uch[WINDOW_SIZE + MAX_MATCH + 1];
      head := new nat[HASH_SIZE];
      prev := new nat[WSIZE];
      strstart, lookahead, eofile, insH, prevLength, matchStart, blockStart := 0, 0, false, 0, 0, 0, 0;
      comprLevel, maxLazyMatch, goodMatch, niceMatch, maxChainLength := 0, 0, 0, 0, 0;
      tokens, blocks := [], [];
      base, inserted, top := 0, {}, 0;
    }

    ghost predicate Shape() {
      window.Length == WINDOW_SIZE + MAX_MATCH + 1 && head.Length == HASH_SIZE && prev.Length == WSIZE && head != prev
    }

    /** The window holds the latest input: everything up to the end of the
        lookahead is input read so far, in its place. */
    ghost predicate WindowOk()
      requires Shape()
      reads this`base, this`strstart, this`lookahead, this`consumed, this`eofile, window
    {
      WindowUpTo(strstart + lookahead)
    }

    ghost predicate WindowUpTo(end: nat)
      requires Shape()
      reads this`base, this`consumed, this`eofile, window
    {
      && end <= WINDOW_SIZE
      && base + end == consumed <= |input|
      && (forall i :: 0 <= i < end ==> window[i] == input[base + i])
      && (eofile ==> end <= WINDOW_SIZE - 2)
    }

    ghost predicate TablesOk()
      requires Shape()
      reads this`base, this`inserted, this`top, window, head, prev
    {
      ChainsOk(window[..], base, inserted, top, head[..], prev[..])
    }

    /** `insH` is ready for the insertion of the string at position s. */
    ghost predicate SeedAt(s: nat)
      requires Shape()
      reads this`insH, window
    {
      s + 1 < window.Length && Seeded(insH, window[s], window[s + 1])
    }

    ghost predicate ParametersOk()
      reads this`maxLazyMatch, this`niceMatch, this`maxChainLength
    {
      3 <= maxLazyMatch <= MAX_MATCH && 3 <= niceMatch <= MAX_MATCH && maxChainLength >= 4
    }

    /** The blocks flushed so far tile the input up to blockStart, and what has
        been tallied since stands for the input up to position `end`. */
    ghost predicate OutputOk(end: int)
      reads this`base, this`blockStart, this`tokens, this`blocks
    {
      && 0 <= base + blockStart <= base + end <= |input|
      && Tiled(input, blocks, base + blockStart)
      && (forall k :: 0 <= k < |blocks| ==> !blocks[k].eof)
      && AllValid(tokens)
      && Decode(Flatten(blocks) + tokens) == Some(input[..base + end])
    }

    /** read_buf: a non-empty chunk of whatever size, 0 at the end of the file,
        -1 on an error. */
    method ReadBuf(at: nat, size: nat) returns (n: int)
      requires Shape() && size >= 2 && at + size <= WINDOW_SIZE && consumed <= |input|
      modifies this`consumed, this`readError, window
      ensures -1 <= n <= size
      ensures consumed == old(consumed) + (if n < 0 then 0 else n) <= |input|
      ensures n == 0 ==> consumed == |input|
      ensures readError == (old(readError) || n == -1)
      ensures forall i :: at <= i < at + n ==> window[i] == input[old(consumed) + (i - at)]
      ensures forall i :: 0 <= i < window.Length && !(at <= i < at + n) ==> window[i] == old(window[i])
    {
      var fails: bool := *;
      if fails {
        readError := true;
        return -1;
      }
      if consumed == |input| {
        return 0;
      }
      var k: nat :| 1 <= k && k <= size && k <= |input| - consumed;
      forall i | 0 <= i < k {
        window[at + i] := input[consumed + i];
      }
      consumed := consumed + k;
      n := k;
    }

    /** The sliding half of fill_window: the upper half of the window moves down,
        and so does every window position kept anywhere. */
    method Slide()
      requires Shape() && WindowOk() && TablesOk()
      requires WSIZE <= top <= strstart <= WINDOW_SIZE - 2 && strstart + lookahead >= WSIZE && !eofile
      modifies window, head, prev, this`base, this`top, this`strstart, this`matchStart, this`blockStart
      ensures WindowOk() && TablesOk()
      ensures base == old(base) + WSIZE
      ensures strstart == old(strstart) - WSIZE && top == old(top) - WSIZE
      ensures matchStart == old(matchStart) - WSIZE && blockStart == old(blockStart) - WSIZE
      ensures forall i :: 0 <= i < WSIZE ==> window[i] == old(window[..])[i + WSIZE]
    {
      hide ChainsOk;
      ghost var w0, head0, prev0 := window[..], head[..], prev[..];
      forall i | 0 <= i < WSIZE {
        window[i] := window[i + WSIZE];
      }
      matchStart := matchStart - WSIZE;
      strstart := strstart - WSIZE;
      blockStart := blockStart - WSIZE;
      SlideTable(head);
      SlideTable(prev);
      ghost var base0, top0 := base, top;
      base, top := base + WSIZE, top - WSIZE;
      SlideKeepsChains(w0, window[..], base0, inserted, top0, head0, prev0, head[..], prev[..]);
    }

    /** Either loop of fill_window over a table of positions. */
    static method SlideTable(table: array<nat>)
      modifies table
      ensures forall i :: 0 <= i < table.Length ==> table[i] == Slid(old(table[i]))
    {
      var n := 0;
      while n < table.Length
        invariant 0 <= n <= table.Length
        invariant forall i :: 0 <= i < n ==> table[i] == Slid(old(table[i]))
        invariant forall i :: n <= i < table.Length ==> table[i] == old(table[i])
      {
        var m := table[n];
        table[n] := if m >= WSIZE then m - WSIZE else NIL;
        n := n + 1;
      }
    }

    /** The window begins at a multiple of WSIZE, and has moved only when that was far back. */
    ghost predicate Anchored()
      reads this`base, this`strstart
    {
      Origin(base, base + strstart)
    }

    /** fill_window.  The first branch of the source, for 16 bit machines, never
        applies.  A slide moves no absolute position; a read asks for at least
        two bytes and for no more than fit. */
    method FillWindow()
      requires Shape() && WindowOk() && TablesOk()
      requires lookahead < MIN_LOOKAHEAD && !eofile && top <= strstart
      requires lookahead >= 2 || inserted == {}
      requires strstart >= WSIZE + MAX_DIST ==> top >= WSIZE && lookahead >= 2
      modifies window, head, prev, this`base, this`top, this`strstart, this`matchStart, this`blockStart
      modifies this`lookahead, this`eofile, this`consumed, this`readError
      ensures WindowOk() && TablesOk() && top <= strstart
      ensures base >= old(base) && base + strstart == old(base + strstart) && base + top == old(base + top)
      ensures old(Anchored()) ==> Anchored()
      ensures base + matchStart == old(base + matchStart) && base + blockStart == old(base + blockStart)
      ensures strstart == old(strstart) || strstart >= MAX_DIST
      ensures consumed >= old(consumed) && lookahead >= old(lookahead)
      ensures !eofile ==> consumed > old(consumed)
      ensures eofile && !readError ==> consumed == |input|
      ensures readError ==> eofile || old(readError)
      ensures old(lookahead) >= 2 ==>
                window[strstart] == old(window[strstart]) && window[strstart + 1] == old(window[strstart + 1])
    {
      hide ChainsOk;
      var more := WINDOW_SIZE - lookahead - strstart;
      if strstart >= WSIZE + MAX_DIST {
        Slide();
        more := more + WSIZE;
      }
      ReadMore(more);
    }

    /** The reading half of fill_window. */
    method ReadMore(more: nat)
      requires Shape() && WindowOk() && TablesOk() && !eofile && top <= strstart
      requires 2 <= more == WINDOW_SIZE - lookahead - strstart
      requires lookahead >= 2 || inserted == {}
      modifies window, this`lookahead, this`eofile, this`consumed, this`readError
      ensures WindowOk() && TablesOk()
      ensures lookahead - old(lookahead) == consumed - old(consumed) >= 0
      ensures eofile <==> consumed == old(consumed)
      ensures eofile && !readError ==> consumed == |input|
      ensures readError ==> eofile || old(readError)
      ensures forall i :: 0 <= i < strstart + old(lookahead) ==> window[i] == old(window[i])
    {
      hide ChainsOk;
      ghost var w0 := window[..];
      var n := ReadBuf(strstart + lookahead, more);
      if n <= 0 {
        eofile := true;
      } else {
        lookahead := lookahead + n;
      }
      assert forall i {:trigger window[..][i]} :: 0 <= i < top + 2 && inserted != {} ==> window[..][i] == w0[i];
      ReadKeepsChains(w0, window[..], base, inserted, top, head[..], prev[..]);
    }

    /** INSERT_STRING(s, match_head): the result is the previous head of the
        chain, the latest earlier position of the same bucket or NIL.  The byte
        read two positions ahead is inside the window proper. */
    method InsertString(s: nat) returns (matchHead: nat)
      requires Shape() && TablesOk() && SeedAt(s)
      requires top <= s && s + 2 < WINDOW_SIZE
      modifies head, prev, this`insH, this`inserted, this`top
      ensures TablesOk() && SeedAt(s + 1)
      ensures top == s + 1 && inserted == old(inserted) + {base + s}
      ensures HeadOf(s, matchHead) && matchHead == old(head[SlotAt(window[..], s)])
      ensures head[..] == old(head[..])[SlotAt(window[..], s) := s] && prev[..] == old(prev[..])[Mask(s) := matchHead]
    {
      hide ChainsOk, SlotAt, Slot, UpdateHash;
      insH := RollKey(s);
      matchHead := head[Slot(insH)];
      ghost var head0, prev0, inserted0, top0 := head[..], prev[..], inserted, top;
      prev[Mask(s)] := matchHead;
      head[Slot(insH)] := s;
      inserted, top := inserted + {base + s}, s + 1;
      InsertKeepsChains(window[..], base, s, inserted0, inserted, top0, head0, head[..], prev0, prev[..]);
      HeadIsLatest(window[..], base, inserted0, top0, head0, prev0, s);
    }

    /** UPDATE_HASH(ins_h, window[s + MIN_MATCH - 1]) */
    method RollKey(s: nat) returns (h: Key)
      requires Shape() && SeedAt(s) && s + 2 < WINDOW_SIZE
      ensures Slot(h) == SlotAt(window[..], s)
      ensures Seeded(h, window[s + 1], window[s + 2])
    {
      hide UpdateHash, Slot, Seeded, Hash3;
      h := UpdateHash(insH, window[s + 2]);
      RollingHash(insH, window[s], window[s + 1], window[s + 2]);
      KeyGivesSlot(window[..], s);
    }

    /** `m` is NIL or an inserted position before s in the same bucket. */
    ghost predicate HeadOf(s: nat, m: nat)
      requires Shape()
      reads this`base, this`inserted, window
    {
      m != NIL ==> m < s && s + 2 < WINDOW_SIZE && InBucket(window[..], base, inserted, SlotAt(window[..], s), m)
    }

    /** Searches stop at positions this far back; index 0 is never matched. */
    ghost function Limit(): nat
      reads this`strstart
    {
      if strstart > MAX_DIST then strstart - MAX_DIST else NIL
    }

    /** Less effort after a match that is good already. */
    ghost function ChainLength(previous: nat): (r: nat)
      requires ParametersOk()
      reads this`maxLazyMatch, this`niceMatch, this`maxChainLength, this`goodMatch
      ensures r >= 1
    {
      if previous >= goodMatch then maxChainLength / 4 else maxChainLength
    }

    /** The naive search along the chain from curMatch, with links `links`. */
    ghost function ChainSearch(links: seq<nat>, curMatch: nat, previous: nat): Found
      requires ParametersOk() && |links| == WSIZE
      reads this`strstart, this`matchStart, this`maxLazyMatch, this`niceMatch, this`maxChainLength, this`goodMatch, window
    {
      Search(window[..], strstart, Visited(links, curMatch, Limit(), ChainLength(previous)), niceMatch,
             Found(previous, matchStart))
    }

    /** The head of the chain of the current string is near enough to search. */
    ghost predicate Searches()
      requires Shape() && strstart + 2 < window.Length
      reads this`strstart, window, head
    {
      var first := head[SlotAt(window[..], strstart)];
      first != NIL && strstart - first <= MAX_DIST
    }

    /** What that search finds once the current string is inserted, cut to the
        bytes that are really there. */
    ghost function Reached(previous: nat): Found
      requires Shape() && ParametersOk() && strstart + 2 < window.Length
      reads this`strstart, this`lookahead, this`matchStart, window, head, prev
      reads this`maxLazyMatch, this`niceMatch, this`maxChainLength, this`goodMatch
    {
      var first := head[SlotAt(window[..], strstart)];
      var found := ChainSearch(prev[..][Mask(strstart) := first], first, previous);
      Found(Min(found.length, lookahead), found.start)
    }

    /** The match deflate() finds at the current position: none is looked for
        after a match that is long enough, and one of length 3 must be near. */
    ghost function LazyFound(previous: nat): Found
      requires Shape() && ParametersOk() && strstart + 2 < window.Length
      reads this`strstart, this`lookahead, this`matchStart, window, head, prev
      reads this`maxLazyMatch, this`niceMatch, this`maxChainLength, this`goodMatch
    {
      if Searches() && previous < maxLazyMatch then
        var found := Reached(previous);
        if found.length == MIN_MATCH && strstart - found.start > TOO_FAR then Found(MIN_MATCH - 1, found.start) else found
      else Found(MIN_MATCH - 1, matchStart)
    }

    /** The match deflate_fast() finds at the current position. */
    ghost function FastFound(length: nat): Found
      requires Shape() && ParametersOk() && strstart + 2 < window.Length
      reads this`strstart, this`lookahead, this`matchStart, window, head, prev
      reads this`maxLazyMatch, this`niceMatch, this`maxChainLength, this`goodMatch
    {
      if Searches() then Reached(MIN_MATCH - 1) else Found(length, matchStart)
    }

    /** All tokens put out so far. */
    ghost function Emitted(): seq<Token>
      reads this`tokens, this`blocks
    {
      Flatten(blocks) + tokens
    }

    /** The match at window position m of the given length is a proper one. */
    ghost predicate MatchAt(m: int, length: nat)
      requires Shape()
      reads this`strstart, window
    {
      && 0 < m < strstart <= m + MAX_DIST && length <= MAX_MATCH && strstart + MAX_MATCH <= window.Length
      && length == MatchLength(window[..], strstart, m)
    }

    /** The comparison loop of longest_match on a candidate of the right bucket
        whose first two bytes are known to agree: the third byte is never
        compared, and the bound is checked only after every eighth byte. */
    method Compare(curMatch: nat) returns (len: nat)
      requires Shape() && curMatch < strstart && strstart + 2 < WINDOW_SIZE
      requires SlotAt(window[..], curMatch) == SlotAt(window[..], strstart)
      requires window[curMatch] == window[strstart] && window[curMatch + 1] == window[strstart + 1]
      ensures len == MatchLength(window[..], strstart, curMatch)
    {
      hide SlotAt, MatchLength;
      ghost var w := window[..];
      ThirdByteSame(w, strstart, curMatch);
      var strend := strstart + MAX_MATCH;
      var scan, match_ := strstart + 2, curMatch + 2;
      var equal := true;
      while equal && scan < strend
        invariant strstart + 2 <= scan <= strend && match_ - curMatch == scan - strstart
        invariant equal ==> (strend - scan) % 8 == 0
        invariant forall i :: 0 <= i < scan - strstart ==> SameByte(w, strstart, curMatch, i)
        invariant equal ==> SameByte(w, strstart, curMatch, scan - strstart)
        invariant !equal ==> !SameByte(w, strstart, curMatch, scan - strstart)
        decreases equal, strend - scan
      {
        ghost var first := scan;
        var n := 0;
        while equal && n < 8
          invariant 0 <= n <= 8 && scan == first + n <= strend && match_ - curMatch == scan - strstart
          invariant forall i :: 0 <= i < scan - strstart ==> SameByte(w, strstart, curMatch, i)
          invariant equal ==> SameByte(w, strstart, curMatch, scan - strstart)
          invariant !equal ==> n > 0 && !SameByte(w, strstart, curMatch, scan - strstart)
          decreases equal, 8 - n
        {
          scan, match_, n := scan + 1, match_ + 1, n + 1;
          equal := window[scan] == window[match_];
        }
      }
      len := MAX_MATCH - (strend - scan);
      MatchLengthIs(w, strstart, curMatch, len);
    }

    /** The quick rejects of longest_match, and the full comparison otherwise. */
    method Examine(cur: nat, bestLen: nat, scanEnd1: Uch, scanEnd: Uch) returns (len: nat)
      requires Shape() && cur < strstart && strstart + 2 < WINDOW_SIZE && 2 <= bestLen < MAX_MATCH
      requires SlotAt(window[..], cur) == SlotAt(window[..], strstart)
      requires scanEnd1 == window[strstart + bestLen - 1] && scanEnd == window[strstart + bestLen]
      ensures if MatchLength(window[..], strstart, cur) > bestLen
              then len == MatchLength(window[..], strstart, cur) else len <= bestLen
    {
      hide SlotAt, MatchLength;
      if window[cur + bestLen] != scanEnd || window[cur + bestLen - 1] != scanEnd1
         || window[cur] != window[strstart] || window[cur + 1] != window[strstart + 1] {
        RejectIsSafe(window[..], strstart, cur, bestLen);
        return 0;
      }
      len := Compare(cur);
    }

    /** longest_match.  The result is that of the naive search over the chain:
        quick rejects, the byte never compared and the bound checked every
        eighth byte change nothing. */
    method LongestMatch(curMatch: nat) returns (bestLen: nat)
      requires Shape() && TablesOk() && ParametersOk()
      requires top == strstart + 1 && strstart + 2 < WINDOW_SIZE && 2 <= prevLength < MAX_MATCH
      requires curMatch != NIL && HeadOf(strstart, curMatch) && strstart - curMatch <= MAX_DIST
      modifies this`matchStart
      ensures prevLength <= bestLen <= MAX_MATCH
      ensures bestLen > prevLength ==> MatchAt(matchStart, bestLen)
      ensures bestLen == prevLength ==> matchStart == old(matchStart)
      ensures Found(bestLen, matchStart) == old(ChainSearch(prev[..], curMatch, prevLength))
    {
      hide ChainsOk, SlotAt, MatchLength, Search, Visited, Mask;
      ghost var w, links, slot := window[..], prev[..], SlotAt(window[..], strstart);
      var chainLength := maxChainLength;
      bestLen := prevLength;
      var limit := if strstart > MAX_DIST then strstart - MAX_DIST else NIL;
      var scanEnd1, scanEnd := window[strstart + bestLen - 1], window[strstart + bestLen];
      if prevLength >= goodMatch {
        chainLength := chainLength / 4;
      }
      var cur := curMatch;
      ghost var all := Search(w, strstart, Visited(links, cur, limit, chainLength), niceMatch, Found(prevLength, matchStart));
      while true
        invariant chainLength >= 1 && NIL < cur < strstart <= cur + MAX_DIST
        invariant InBucket(w, base, inserted, slot, cur)
        invariant prevLength <= bestLen < MAX_MATCH
        invariant scanEnd1 == window[strstart + bestLen - 1] && scanEnd == window[strstart + bestLen]
        invariant bestLen > prevLength ==> MatchAt(matchStart, bestLen)
        invariant bestLen == prevLength ==> matchStart == old(matchStart)
        invariant all == Search(w, strstart, Visited(links, cur, limit, chainLength), niceMatch, Found(bestLen, matchStart))
        decreases chainLength
      {
        SearchStep(w, strstart, links, cur, limit, chainLength, niceMatch, Found(bestLen, matchStart));
        var len := Examine(cur, bestLen, scanEnd1, scanEnd);
        if len > bestLen {
          matchStart := cur;
          bestLen := len;
          if len >= niceMatch {
            break;
          }
          scanEnd1, scanEnd := window[strstart + bestLen - 1], window[strstart + bestLen];
        }
        NextInBucket(w, base, inserted, top, head[..], links, cur);
        cur := prev[Mask(cur)];
        if cur <= limit {
          break;
        }
        chainLength := chainLength - 1;
        if chainLength == 0 {
          break;
        }
      }
    }

    /** ct_tally: the token joins the current block; whether the block should
        now be flushed is up to the statistics of `trees.c`. */
    method Tally(t: Token, ghost end: int, ghost end': int) returns (flush: bool)
      requires OutputOk(end) && ValidToken(t)
      requires 0 <= base + end <= base + end' <= |input|
      requires DecodeToken(input[..base + end], t) == Some(input[..base + end'])
      modifies this`tokens
      ensures tokens == old(tokens) + [t] && OutputOk(end')
      ensures Emitted() == old(Emitted()) + [t]
    {
      hide Tiled, DecodeToken, Decode, Flatten, AllValid, ValidToken;
      TokenAppend(blocks, tokens, t);
      tokens := tokens + [t];
      flush := *;
    }

    /** A literal stands for the next byte of the window. */
    method TallyLiteral(at: nat) returns (flush: bool)
      requires Shape() && WindowOk() && OutputOk(at) && at < strstart + lookahead
      modifies this`tokens
      ensures tokens == old(tokens) + [Literal(window[at])] && OutputOk(at + 1)
      ensures Emitted() == old(Emitted()) + [Literal(window[at])]
    {
      var a := base + at;
      assert input[..a] + [window[at]] == input[..a + 1];
      flush := Tally(Literal(window[at]), at, at + 1);
    }

    /** The bytes of the window before the current string are the input. */
    lemma WindowIsInput(from: nat, to: nat)
      requires Shape() && WindowOk() && from <= to <= strstart
      ensures to <= window.Length && base + to <= |input| && window[from..to] == input[base + from..base + to]
    {
      forall i | 0 <= i < to - from
        ensures window[from..to][i] == input[base + from..base + to][i]
      {
        assert window[from + i] == input[base + (from + i)];
      }
    }

    lemma BlockStarts()
      requires OutputOk(strstart)
      ensures 0 <= base + blockStart <= base + strstart <= |input| && Tiled(input, blocks, base + blockStart)
      ensures AllValid(tokens) && Decode(Flatten(blocks) + tokens) == Some(input[..base + strstart])
    {
    }

    /** FLUSH_BLOCK: the buffer is the part of the window the block was made
        from, or NULL when that part has left the window. */
    method FlushBlock(eof: bool)
      requires Shape() && WindowOk() && OutputOk(strstart) && blockStart <= strstart
      modifies this`tokens, this`blocks
      ensures tokens == []
      ensures Tiled(input, blocks, base + strstart)
      ensures blocks == old(blocks) + [Block(old(tokens),
                                             if blockStart >= 0 then Some(window[blockStart..strstart]) else None,
                                             strstart - blockStart, eof)]
    {
      hide Decode, WindowUpTo, OutputOk, Tiled, AllValid, Flatten;
      BlockStarts();
      if blockStart >= 0 {
        WindowIsInput(blockStart, strstart);
      }
      var b := Block(tokens, if blockStart >= 0 then Some(window[blockStart..strstart]) else None, strstart - blockStart, eof);
      TiledAppend(input, blocks, base + blockStart, base + strstart, b);
      blocks := blocks + [b];
      tokens := [];
    }

    /** The string at window position p repeats the one at m for `length` bytes
        of input, at a distance a token can express.  Position m itself may have
        just left the window, in which case it is negative. */
    ghost predicate MatchInInput(p: int, m: int, length: nat)
      reads this`base, this`consumed
    {
      && MIN_MATCH <= length <= MAX_MATCH && 1 <= p - m <= MAX_DIST
      && 0 <= base + m && base + p + length <= consumed <= |input|
      && RunRepeats(input, base + p, base + p + length, p - m)
    }

    /** What holds between two turns of either main loop. */
    ghost predicate Ready()
      requires Shape()
      reads this, window, head, prev
    {
      && WindowOk() && TablesOk() && ParametersOk()
      && top <= strstart <= top + MAX_MATCH
      && (lookahead > 0 ==> SeedAt(strstart))
      && (eofile || lookahead >= MIN_LOOKAHEAD)
      && (eofile && !readError ==> consumed == |input|)
    }

    /** The result of a complete run. */
    ghost predicate Finished()
      reads this`tokens, this`blocks, this`consumed, this`readError
    {
      && tokens == [] && consumed <= |input| && (readError || consumed == |input|)
      && Tiled(input, blocks, consumed)
      && blocks != [] && forall k :: 0 <= k < |blocks| ==> (blocks[k].eof <==> k == |blocks| - 1)
    }

    /** Make sure that there is enough lookahead, except at the end of the file. */
    method Refill()
      requires Shape() && WindowOk() && TablesOk()
      requires top <= strstart <= top + MAX_MATCH
      requires lookahead >= 2 || (inserted == {} && strstart == 0) || eofile
      requires eofile && !readError ==> consumed == |input|
      modifies window, head, prev, this`base, this`top, this`strstart, this`matchStart, this`blockStart
      modifies this`lookahead, this`eofile, this`consumed, this`readError
      ensures WindowOk() && TablesOk()
      ensures top <= strstart <= top + MAX_MATCH && (eofile || lookahead >= MIN_LOOKAHEAD)
      ensures base >= old(base) && base + strstart == old(base + strstart) && base + top == old(base + top)
      ensures base + matchStart == old(base + matchStart) && base + blockStart == old(base + blockStart)
      ensures strstart == old(strstart) || strstart >= MAX_DIST
      ensures consumed - lookahead == old(consumed - lookahead) && lookahead >= old(lookahead)
      ensures old(Anchored()) ==> Anchored()
      ensures eofile && !readError ==> consumed == |input|
      ensures old(lookahead) >= 2 && old(SeedAt(strstart)) ==> SeedAt(strstart)
      ensures old(eofile) ==> eofile && lookahead == old(lookahead) && SeedAt(strstart) == old(SeedAt(strstart))
    {
      hide ChainsOk, Seeded, Origin;
      while lookahead < MIN_LOOKAHEAD && !eofile
        invariant WindowOk() && TablesOk()
        invariant top <= strstart <= top + MAX_MATCH
        invariant lookahead >= 2 || (inserted == {} && strstart == 0) || eofile
        invariant base >= old(base) && base + strstart == old(base + strstart) && base + top == old(base + top)
        invariant base + matchStart == old(base + matchStart) && base + blockStart == old(base + blockStart)
        invariant strstart == old(strstart) || strstart >= MAX_DIST
        invariant old(Anchored()) ==> Anchored()
        invariant consumed >= old(consumed) && lookahead >= old(lookahead)
        invariant eofile && !readError ==> consumed == |input|
        invariant strstart + 1 < window.Length
        invariant old(lookahead) >= 2 ==>
                    window[strstart] == old(window[strstart]) && window[strstart + 1] == old(window[strstart + 1])
        invariant old(eofile) ==> eofile && lookahead == old(lookahead) && strstart == old(strstart) && window[..] == old(window[..])
        decreases |input| - consumed, !eofile
      {
        FillWindow();
      }
    }

    /** The four parameters of the level */
    ghost function Parameters(): Config
      reads this`maxLazyMatch, this`niceMatch, this`maxChainLength, this`goodMatch
    {
      Config(goodMatch, maxLazyMatch, niceMatch, maxChainLength)
    }

    /** Nothing has been inserted or put out. */
    ghost predicate AtStart()
      reads this`base, this`strstart, this`top, this`inserted, this`tokens, this`blocks
    {
      base == 0 && strstart == 0 && top == 0 && inserted == {} && Emitted() == []
    }

    /** The table and parameter half of lm_init. */
    method ResetTables(packLevel: int)
      requires Shape() && 1 <= packLevel <= 9
      modifies head, this`comprLevel, this`maxLazyMatch, this`goodMatch, this`niceMatch, this`maxChainLength
      modifies this`base, this`inserted, this`top
      ensures base == 0 && inserted == {} && top == 0
      ensures TablesOk() && ParametersOk() && comprLevel == packLevel
      ensures Parameters() == ConfigurationTable(packLevel)
    {
      comprLevel := packLevel;
      forall j | 0 <= j < HASH_SIZE {
        head[j] := NIL;
      }
      var config := ConfigurationTable(packLevel);
      maxLazyMatch := config.maxLazy;
      goodMatch := config.goodLength;
      niceMatch := config.niceLength;
      maxChainLength := config.maxChain;
      base, inserted, top := 0, {}, 0;
      EmptyChains(window[..], head[..], prev[..]);
    }

    /** lm_init, up to the exit with "bad pack level". */
    method LmInit(packLevel: int, flags: bv16) returns (ok: bool, newFlags: bv16)
      requires Shape() && consumed == 0 && !readError && tokens == [] && blocks == []
      modifies window, head, prev, this
      ensures ok <==> 1 <= packLevel <= 9
      ensures ok ==> Ready() && OutputOk(strstart) && blockStart == 0 && comprLevel == packLevel
      ensures ok ==> AtStart() && Parameters() == ConfigurationTable(packLevel)
      ensures tokens == [] && blocks == []
      ensures newFlags == if packLevel == 1 then flags | FAST else if packLevel == 9 then flags | SLOW else flags
    {
      hide TablesOk, SeedAt, OutputOk, ParametersOk, ConfigurationTable, Emitted, WindowUpTo;
      newFlags := flags;
      if packLevel < 1 || packLevel > 9 {
        return false, flags;
      }
      ok := true;
      ResetTables(packLevel);
      if packLevel == 1 {
        newFlags := newFlags | FAST;
      } else if packLevel == 9 {
        newFlags := newFlags | SLOW;
      }
      StartInput();
    }

    /** The input half of lm_init. */
    method StartInput()
      requires Shape() && TablesOk() && ParametersOk() && consumed == 0 && !readError && tokens == [] && blocks == []
      requires base == 0 && top == 0 && inserted == {}
      modifies window, head, prev, this`base, this`top, this`strstart, this`matchStart, this`blockStart
      modifies this`lookahead, this`eofile, this`consumed, this`readError, this`insH
      ensures Ready() && OutputOk(strstart) && blockStart == 0 && AtStart()
    {
      hide TablesOk, SeedAt, OutputOk, ParametersOk, Emitted, WindowUpTo;
      strstart, blockStart, lookahead, eofile := 0, 0, 0, false;
      FirstRead();
      NothingOutput();
    }

    /** The window filled for the first time, and the running key with it. */
    method FirstRead()
      requires Shape() && TablesOk() && ParametersOk() && consumed == 0 && !readError && !eofile
      requires base == 0 && strstart == 0 && lookahead == 0 && top == 0 && inserted == {} && blockStart == 0
      modifies window, head, prev, this`base, this`top, this`strstart, this`matchStart, this`blockStart
      modifies this`lookahead, this`eofile, this`consumed, this`readError, this`insH
      ensures Ready() && base + strstart == 0 && base + blockStart == 0 && blockStart == 0 && top == 0
    {
      hide TablesOk, SeedAt, ParametersOk;
      ReadMore(WINDOW_SIZE);
      if !eofile {
        Refill();
        SeedKey();
      }
    }

    /** The first two updates of the running key. */
    method SeedKey()
      requires Shape()
      modifies this`insH
      ensures SeedAt(0)
    {
      hide Seeded, UpdateHash;
      SeedFromTwo(window[0], window[1]);
      insH := UpdateHash(UpdateHash(0, window[0]), window[1]);
    }

    lemma NothingOutput()
      requires tokens == [] && blocks == [] && base + blockStart == 0 && base + strstart == 0
      ensures OutputOk(strstart) && Emitted() == []
    {
    }

    /** longest_match, cut to the bytes that are really there. */
    method ClippedMatch(hashHead: nat) returns (matchLength: nat)
      requires Shape() && WindowOk() && TablesOk() && ParametersOk()
      requires top == strstart + 1 && strstart + 2 < WINDOW_SIZE && 2 <= prevLength < MAX_MATCH
      requires hashHead != NIL && HeadOf(strstart, hashHead) && strstart - hashHead <= MAX_DIST
      modifies this`matchStart
      ensures matchLength <= lookahead && matchLength <= MAX_MATCH && (matchLength >= 2 || matchLength == lookahead)
      ensures matchLength > prevLength ==> MatchInInput(strstart, matchStart, matchLength)
      ensures var found := old(ChainSearch(prev[..], hashHead, prevLength));
              matchLength == Min(found.length, lookahead) && matchStart == found.start
    {
      hide TablesOk, HeadOf, WindowUpTo, MatchAt, ChainSearch, RunRepeats;
      matchLength := LongestMatch(hashHead);
      ghost var found := matchLength;
      if matchLength > lookahead {
        matchLength := lookahead;
      }
      if matchLength > prevLength {
        MatchIsInInput(found, matchLength);
      }
    }

    /** The part of a turn of deflate() that inserts the current string and looks
        for a match longer than the one found at the previous position. */
    method LazySearch(previous: nat) returns (matchLength: nat)
      requires Shape() && Ready() && lookahead > 0 && 2 <= previous <= MAX_MATCH
      modifies head, prev, this`insH, this`inserted, this`top, this`prevLength, this`matchStart
      ensures TablesOk() && SeedAt(strstart + 1) && top == strstart + 1
      ensures prevLength == previous && inserted == old(inserted) + {base + strstart}
      ensures (matchLength >= 2 || lookahead == 1) && matchLength <= MAX_MATCH
      ensures matchLength > previous ==> MatchInInput(strstart, matchStart, matchLength)
      ensures Found(matchLength, matchStart) == old(LazyFound(previous))
    {
      hide TablesOk, SeedAt, HeadOf, MatchInInput, ChainSearch, SlotAt, Mask;
      var hashHead := InsertString(strstart);
      prevLength := previous;
      matchLength := MIN_MATCH - 1;
      if hashHead != NIL && prevLength < maxLazyMatch && strstart - hashHead <= MAX_DIST {
        matchLength := ClippedMatch(hashHead);
        if matchLength == MIN_MATCH && strstart - matchStart > TOO_FAR {
          matchLength := matchLength - 1;
        }
      }
    }

    /** A match in the window, cut to the lookahead, is a match in the input. */
    lemma MatchIsInInput(found: nat, length: nat)
      requires Shape() && WindowOk() && MatchAt(matchStart, found)
      requires MIN_MATCH <= length <= found && length <= lookahead
      ensures MatchInInput(strstart, matchStart, length)
    {
      hide MatchLength;
      var distance := strstart - matchStart;
      MatchLengthAgrees(window[..], strstart, matchStart, length);
      forall j | base + strstart <= j < base + strstart + length
        ensures Repeats(input, j, distance)
      {
        assert SameByte(window[..], strstart, matchStart, j - base - strstart);
      }
    }

    /** Besides what was inserted before, the window positions from..to are. */
    ghost predicate AddedTo(before: set<nat>, from: nat, to: nat)
      reads this`base, this`inserted
    {
      forall a :: a in inserted <==> a in before || base + from <= a < base + to
    }

    lemma AddedOne(before: set<nat>, from: nat)
      requires inserted == before + {base + from}
      ensures AddedTo(before, from, from + 1)
    {
    }

    lemma AddedMore(before: set<nat>, from: nat, to: nat)
      requires AddedTo(before + {base + from}, from + 1, to) && from < to
      ensures AddedTo(before, from, to)
    {
    }

    /** do { strstart++; INSERT_STRING(strstart) } while (--n != 0) */
    method InsertFollowing(count: nat)
      requires Shape() && TablesOk() && SeedAt(strstart + 1) && top == strstart + 1
      requires count >= 1 && strstart + count + 2 < WINDOW_SIZE
      modifies head, prev, this`insH, this`inserted, this`top, this`strstart
      ensures TablesOk() && SeedAt(strstart + 1) && top == strstart + 1
      ensures strstart == old(strstart) + count && AddedTo(old(inserted), old(strstart) + 1, strstart + 1)
    {
      hide TablesOk, SeedAt;
      var n := count;
      while true
        invariant n >= 1 && strstart + n == old(strstart) + count
        invariant AddedTo(old(inserted), old(strstart) + 1, strstart + 1)
        invariant TablesOk() && SeedAt(strstart + 1) && top == strstart + 1
        decreases n
      {
        strstart := strstart + 1;
        var _ := InsertString(strstart);
        n := n - 1;
        if n == 0 {
          break;
        }
      }
    }

    /** A pair token reproduces the match it was made from. */
    lemma MatchDecodes(p: int, m: int, length: nat)
      requires MatchInInput(p, m, length)
      ensures DecodeToken(input[..base + p], Match(length, p - m)) == Some(input[..base + p + length])
    {
      CopyReproduces(input, base + p, length, p - m);
    }

    /** FLUSH_BLOCK(0), block_start = strstart */
    method CloseBlock()
      requires Shape() && WindowOk() && OutputOk(strstart) && blockStart <= strstart
      modifies this`tokens, this`blocks, this`blockStart
      ensures OutputOk(strstart) && blockStart == strstart && tokens == []
      ensures |blocks| == old(|blocks|) + 1 && Emitted() == old(Emitted())
    {
      hide Decode, WindowUpTo;
      ghost var blocks0 := blocks;
      FlushBlock(false);
      blockStart := strstart;
      TiledFacts(input, blocks, base + strstart);
      FlattenAppend(blocks0, blocks[|blocks| - 1]);
      assert Flatten(blocks) + [] == Flatten(blocks);
    }

    /** Within the lookahead there is room for all insertions of a match. */
    lemma RoomForMatch(p: int, m: int, length: nat)
      requires Shape() && WindowOk() && (eofile || lookahead >= MIN_LOOKAHEAD)
      requires MatchInInput(p, m, length) && 0 <= p <= strstart
      ensures MIN_MATCH <= length <= MAX_MATCH && p + length <= strstart + lookahead
      ensures p + length + 1 < WINDOW_SIZE && 1 <= p - m <= MAX_DIST && 0 <= base + m
      ensures base + p + length <= |input|
    {
    }

    /** A match in the input stands for the bytes it repeats. */
    method TallyMatch(p: int, m: int, length: nat) returns (flush: bool)
      requires OutputOk(p) && MatchInInput(p, m, length)
      modifies this`tokens
      ensures tokens == old(tokens) + [Match(length, p - m)] && OutputOk(p + length)
      ensures Emitted() == old(Emitted()) + [Match(length, p - m)]
    {
      hide Tiled, Decode, Emitted, RunRepeats, DecodeToken;
      MatchDecodes(p, m, length);
      flush := Tally(Match(length, p - m), p, p + length);
    }

    /** Output the match of the previous position: the tally, the insertions and
        perhaps the end of the block. */
    method EmitPrevious(prevMatch: int)
      requires Shape() && WindowOk() && TablesOk() && SeedAt(strstart + 1) && top == strstart + 1
      requires eofile || lookahead >= MIN_LOOKAHEAD
      requires 1 <= strstart && blockStart <= strstart
      requires OutputOk(strstart - 1) && MatchInInput(strstart - 1, prevMatch, prevLength)
      modifies head, prev, this`insH, this`inserted, this`top, this`strstart, this`lookahead, this`prevLength
      modifies this`tokens, this`blocks, this`blockStart
      ensures WindowOk() && TablesOk() && SeedAt(strstart) && top == strstart
      ensures OutputOk(strstart) && blockStart <= strstart
      ensures lookahead < old(lookahead) && (!eofile ==> lookahead >= MIN_MATCH + 2)
      ensures Emitted() == old(Emitted()) + [Match(old(prevLength), old(strstart) - 1 - prevMatch)]
      ensures strstart == old(strstart - 1 + prevLength) && lookahead == old(lookahead - (prevLength - 1))
      ensures AddedTo(old(inserted), old(strstart) + 1, strstart)
    {
      hide TablesOk, SeedAt, OutputOk, WindowUpTo, DecodeToken, MatchInInput, Emitted, AddedTo;
      RoomForMatch(strstart - 1, prevMatch, prevLength);
      var flush := TallyMatch(strstart - 1, prevMatch, prevLength);
      lookahead := lookahead - (prevLength - 1);
      prevLength := prevLength - 2;
      InsertFollowing(prevLength);
      prevLength := 0;
      strstart := strstart + 1;
      if flush {
        CloseBlock();
      }
    }

    /** Output the byte of the previous position as a literal. */
    method EmitLiteral()
      requires Shape() && WindowOk() && 1 <= strstart && blockStart <= strstart && OutputOk(strstart - 1)
      modifies this`tokens, this`blocks, this`blockStart
      ensures OutputOk(strstart) && blockStart <= strstart
      ensures Emitted() == old(Emitted()) + [Literal(window[strstart - 1])]
    {
      hide OutputOk, WindowUpTo, Emitted;
      var flush := TallyLiteral(strstart - 1);
      if flush {
        CloseBlock();
      }
    }

    /** Between two turns of deflate(): what is pending for the previous position. */
    ghost predicate Lazy(matchAvailable: bool, matchLength: nat)
      reads this`base, this`strstart, this`lookahead, this`consumed, this`matchStart
      reads this`blockStart, this`tokens, this`blocks
    {
      && blockStart <= strstart && (matchAvailable ==> strstart >= 1 && blockStart < strstart)
      && OutputOk(if matchAvailable then strstart - 1 else strstart)
      && (matchLength >= 2 || lookahead == 0) && matchLength <= MAX_MATCH
      && (matchLength >= MIN_MATCH ==> matchAvailable && MatchInInput(strstart - 1, matchStart, matchLength))
    }

    /** One turn of deflate(), up to the refilling of the window. */
    method LazyTurn(available: bool, length: nat) returns (matchAvailable: bool, matchLength: nat)
      requires Shape() && Ready() && Lazy(available, length) && lookahead > 0
      modifies head, prev, this`insH, this`inserted, this`top, this`prevLength, this`matchStart
      modifies this`strstart, this`lookahead, this`tokens, this`blocks, this`blockStart
      ensures WindowOk() && TablesOk() && SeedAt(strstart) && top == strstart
      ensures lookahead < old(lookahead) && (!eofile ==> lookahead >= MIN_MATCH + 2)
      ensures Lazy(matchAvailable, matchLength) && AddedTo(old(inserted), old(strstart), strstart)
      ensures var found := old(LazyFound(length));
              if length >= MIN_MATCH && found.length <= length then
                && Emitted() == old(Emitted()) + [Match(length, old(strstart - 1 - matchStart))]
                && strstart == old(strstart) + length - 1 && !matchAvailable && matchLength == MIN_MATCH - 1
              else
                && Emitted() == old(Emitted()) + (if available then [Literal(window[old(strstart) - 1])] else [])
                && strstart == old(strstart) + 1 && matchAvailable && Found(matchLength, matchStart) == found
    {
      hide TablesOk, SeedAt, OutputOk, WindowUpTo, MatchInInput, LazyFound, Emitted, AddedTo;
      matchAvailable := available;
      var prevMatch := matchStart;
      matchLength := LazySearch(length);
      ghost var before, from := old(inserted), strstart;
      AddedOne(before, from);
      if prevLength >= MIN_MATCH && matchLength <= prevLength {
        EmitPrevious(prevMatch);
        AddedMore(before, from, strstart);
        matchAvailable := false;
        matchLength := MIN_MATCH - 1;
      } else if matchAvailable {
        EmitLiteral();
        strstart := strstart + 1;
        lookahead := lookahead - 1;
      } else {
        matchAvailable := true;
        strstart := strstart + 1;
        lookahead := lookahead - 1;
      }
    }

    lemma ReadSoFar()
      requires Shape() && WindowOk()
      ensures base + strstart + lookahead == consumed <= |input|
    {
    }

    /** The search of the two loops, over the positions they look at */
    ghost function Result(previous: nat): Found
      requires Shape() && ParametersOk() && strstart + 2 < window.Length
      reads this`strstart, this`matchStart, window, head, prev
      reads this`maxLazyMatch, this`niceMatch, this`maxChainLength, this`goodMatch
    {
      Search(window[..], strstart, Looked(window[..], strstart, head[..], prev[..], Limit(), ChainLength(previous)),
             niceMatch, Found(previous, matchStart))
    }

    lemma ResultIsReached(previous: nat)
      requires Shape() && ParametersOk() && strstart + 2 < window.Length
      ensures if Searches() then Reached(previous) == Found(Min(Result(previous).length, lookahead), Result(previous).start)
              else Result(previous) == Found(previous, matchStart)
    {
      hide SlotAt, Mask, Visited;
    }

    /** A search finds what is sought in the data. */
    lemma ResultIsSought(previous: nat)
      requires Shape() && Ready() && lookahead >= MIN_MATCH
      ensures Sought(input[..consumed], Parameters(), inserted, base, base + strstart, previous,
                     Found(Min(Result(previous).length, lookahead), base + Result(previous).start))
    {
      hide ChainsOk, SlotAt, Mask, Visited, Search, Sought, Looked;
      var w, data := window[..], input[..consumed];
      assert Holds(w, data, base, strstart, lookahead);
      SearchIsSought(w, data, base, strstart, lookahead, inserted, top, head[..], prev[..], Parameters(), previous, matchStart);
    }

    /** What is found at the current position is what the data call for. */
    lemma LazyFoundIsLook(previous: nat)
      requires Shape() && Ready() && Anchored() && lookahead > 0 && previous >= 2
      requires top == strstart && inserted == Range(0, base + strstart)
      ensures var found := LazyFound(previous);
              LazyLook(input[..consumed], Parameters(), base + strstart, previous, Look(base, Found(found.length, base + found.start)))
    {
      hide TablesOk, ParametersOk, Searches, Reached, Result, Sought, SeedAt, Origin;
      ResultIsReached(previous);
      if lookahead >= MIN_MATCH {
        ResultIsSought(previous);
      } else {
        ReachedWithin(previous);
      }
    }

    lemma ReachedWithin(previous: nat)
      requires Shape() && ParametersOk() && strstart + 2 < window.Length
      ensures Reached(previous).length <= lookahead
    {
      hide ChainSearch;
    }

    /** The same for deflate_fast(). */
    lemma FastFoundIsLook(length: nat)
      requires Shape() && Ready() && Anchored() && lookahead > 0 && length < MIN_MATCH
      ensures var found := FastFound(length);
              FastLook(input[..consumed], Parameters(), inserted, base + strstart, Look(base, Found(found.length, base + found.start)))
    {
      hide TablesOk, ParametersOk, Searches, Reached, Result, Sought, SeedAt, Origin;
      ResultIsReached(MIN_MATCH - 1);
      if lookahead >= MIN_MATCH {
        ResultIsSought(MIN_MATCH - 1);
      } else {
        ReachedWithin(MIN_MATCH - 1);
      }
    }

    lemma AllInserted(from: nat, to: nat)
      requires AddedTo(Range(0, base + from), from, to) && from <= to
      ensures inserted == Range(0, base + to)
    {
    }

    /** The tokens put out so far are chosen lazily, and all strings have been inserted. */
    ghost predicate LazilyChosen(c: Config, looks: map<nat, Look>, matchAvailable: bool, matchLength: nat)
      reads this
    {
      && Parameters() == c && Anchored() && top == strstart && inserted == Range(0, base + strstart)
      && consumed <= |input| && (eofile || Settled(looks, consumed))
      && LazySoFar(input[..consumed], c, Emitted(), looks, base + strstart, matchAvailable, matchLength, base + matchStart)
    }

    lemma LazyMeans(available: bool, length: nat)
      requires Shape() && WindowOk() && Lazy(available, length) && lookahead > 0
      ensures base + strstart + lookahead == consumed <= |input| && (length >= MIN_MATCH ==> available) && length >= 2
      ensures strstart + 2 < window.Length
      ensures available ==> strstart >= 1 && window[strstart - 1] == input[..consumed][base + strstart - 1]
    {
      hide OutputOk, MatchInInput;
    }

    /** A turn of deflate() chooses lazily. */
    method LazyStep(available: bool, length: nat, ghost c: Config, ghost looks: map<nat, Look>)
      returns (matchAvailable: bool, matchLength: nat, ghost looks': map<nat, Look>)
      requires Shape() && Ready() && Lazy(available, length) && lookahead > 0
      requires LazilyChosen(c, looks, available, length)
      modifies head, prev, this`insH, this`inserted, this`top, this`prevLength, this`matchStart
      modifies this`strstart, this`lookahead, this`tokens, this`blocks, this`blockStart
      ensures WindowOk() && TablesOk() && SeedAt(strstart) && top == strstart
      ensures lookahead < old(lookahead) && (!eofile ==> lookahead >= MIN_MATCH + 2)
      ensures Lazy(matchAvailable, matchLength) && LazilyChosen(c, looks', matchAvailable, matchLength)
    {
      hide TablesOk, SeedAt, OutputOk, MatchInInput, LazyFound, Emitted, LazySoFar, LazyLook, AddedTo, Range, Settled, Origin,
           WindowUpTo, ParametersOk, Lazy;
      LazyMeans(available, length);
      ghost var data, ts, p, start := input[..consumed], Emitted(), base + strstart, base + matchStart;
      ghost var found := LazyFound(length);
      ghost var look := Look(base, Found(found.length, base + found.start));
      LazyFoundIsLook(length);
      SettledNext(looks, p, look, consumed);
      matchAvailable, matchLength := LazyTurn(available, length);
      AllInserted(p - base, strstart);
      OriginStays(base, p, base + strstart);
      looks' := looks[p := look];
      ReadSoFar();
      LazyTurnChooses(data, c, ts, looks, p, available, length, start, look,
                      Emitted(), base + strstart, matchAvailable, matchLength, base + matchStart);
    }

    /** A slide moves no absolute position, so what is pending stays pending. */
    method RefillLazy(matchAvailable: bool, matchLength: nat, ghost c: Config, ghost looks: map<nat, Look>)
      requires Shape() && WindowOk() && TablesOk() && ParametersOk() && SeedAt(strstart) && top == strstart
      requires Lazy(matchAvailable, matchLength) && LazilyChosen(c, looks, matchAvailable, matchLength)
      requires eofile || lookahead >= 2
      requires eofile && !readError ==> consumed == |input|
      modifies window, head, prev, this`base, this`top, this`strstart, this`matchStart, this`blockStart
      modifies this`lookahead, this`eofile, this`consumed, this`readError
      ensures Ready() && Lazy(matchAvailable, matchLength) && LazilyChosen(c, looks, matchAvailable, matchLength)
      ensures consumed - lookahead == old(consumed - lookahead) && consumed <= |input|
    {
      hide TablesOk, SeedAt, Tiled, Decode, RunRepeats, AllValid, LazySoFar, Origin;
      ghost var n := consumed;
      Refill();
      LazyMoreData(input, n, consumed, c, Emitted(), looks, base + strstart, matchAvailable, matchLength, base + matchStart);
    }

    /** deflate() for levels 4 to 9: its tokens are chosen lazily. */
    method DeflateLazy() returns (ghost looks: map<nat, Look>)
      requires Shape() && Ready() && OutputOk(strstart) && blockStart <= strstart && AtStart()
      modifies window, head, prev, this
      ensures Finished() && LazyParse(input[..consumed], old(Parameters()), Flatten(blocks), looks)
    {
      hide TablesOk, SeedAt, OutputOk, WindowUpTo, MatchInInput, ParametersOk, LazyFound, Emitted, LazySoFar;
      var matchAvailable, matchLength: nat := false, MIN_MATCH - 1;
      ghost var c := Parameters();
      looks := map[];
      ReadSoFar();
      LazyStart(input[..consumed], c, base + matchStart);
      while lookahead != 0
        invariant Ready() && Lazy(matchAvailable, matchLength) && LazilyChosen(c, looks, matchAvailable, matchLength)
        decreases |input| - consumed + lookahead
      {
        matchAvailable, matchLength, looks := LazyStep(matchAvailable, matchLength, c, looks);
        RefillLazy(matchAvailable, matchLength, c, looks);
      }
      LazyLast(matchAvailable, matchLength, c, looks);
      LastBlock();
    }

    /** The byte that is pending at the end */
    method LazyLast(matchAvailable: bool, matchLength: nat, ghost c: Config, ghost looks: map<nat, Look>)
      requires Shape() && Ready() && lookahead == 0
      requires Lazy(matchAvailable, matchLength) && LazilyChosen(c, looks, matchAvailable, matchLength)
      modifies this`tokens
      ensures OutputOk(strstart) && LazyParse(input[..consumed], c, Emitted(), looks)
    {
      hide TablesOk, SeedAt, OutputOk, MatchInInput, ParametersOk, Emitted, LazyLook, LazyParse;
      if matchAvailable {
        LazyEnd(input[..consumed], c, Emitted(), looks, matchLength, base + matchStart);
        var _ := TallyLiteral(strstart - 1);
      }
    }

    /** return FLUSH_BLOCK(1) */
    method LastBlock()
      requires Shape() && Ready() && lookahead == 0 && OutputOk(strstart) && blockStart <= strstart
      modifies this`tokens, this`blocks
      ensures Finished() && Flatten(blocks) == old(Emitted())
    {
      hide TablesOk, Decode;
      ghost var blocks0 := blocks;
      FlushBlock(true);
      FlattenAppend(blocks0, blocks[|blocks| - 1]);
    }

    /** The part of a turn of deflate_fast() that inserts and searches. */
    method FastSearch(length: nat) returns (matchLength: nat)
      requires Shape() && Ready() && lookahead > 0 && prevLength == MIN_MATCH - 1 && length < MIN_MATCH
      modifies head, prev, this`insH, this`inserted, this`top, this`matchStart
      ensures TablesOk() && SeedAt(strstart + 1) && top == strstart + 1 && inserted == old(inserted) + {base + strstart}
      ensures matchLength >= MIN_MATCH ==> MatchInInput(strstart, matchStart, matchLength)
      ensures Found(matchLength, matchStart) == old(FastFound(length))
    {
      hide TablesOk, SeedAt, HeadOf, MatchInInput, ChainSearch, SlotAt, Mask;
      matchLength := length;
      var hashHead := InsertString(strstart);
      if hashHead != NIL && strstart - hashHead <= MAX_DIST {
        matchLength := ClippedMatch(hashHead);
      }
    }

    /** One turn of deflate_fast(), up to the refilling of the window. */
    method FastTurn(length: nat) returns (matchLength: nat)
      requires Shape() && Ready() && OutputOk(strstart) && blockStart <= strstart && lookahead > 0
      requires prevLength == MIN_MATCH - 1 && length < MIN_MATCH
      modifies head, prev, this`insH, this`inserted, this`top, this`matchStart
      modifies this`strstart, this`lookahead, this`tokens, this`blocks, this`blockStart
      ensures WindowOk() && TablesOk() && SeedAt(strstart) && top <= strstart <= top + MAX_MATCH
      ensures lookahead < old(lookahead) && (!eofile ==> lookahead >= MIN_MATCH + 1)
      ensures OutputOk(strstart) && blockStart <= strstart
      ensures matchLength < MIN_MATCH
      ensures var found := old(FastFound(length));
              if found.length >= MIN_MATCH then
                && Emitted() == old(Emitted()) + [Match(found.length, old(strstart) - found.start)]
                && strstart == old(strstart) + found.length && matchLength == 0
                && AddedTo(old(inserted), old(strstart), if found.length <= maxLazyMatch then strstart else old(strstart) + 1)
              else
                && Emitted() == old(Emitted()) + [Literal(window[old(strstart)])]
                && strstart == old(strstart) + 1 && matchLength == found.length
                && AddedTo(old(inserted), old(strstart), strstart)
    {
      hide TablesOk, SeedAt, OutputOk, WindowUpTo, MatchInInput, ParametersOk, FastFound, Emitted, AddedTo;
      matchLength := FastSearch(length);
      var flush;
      ghost var before, from := old(inserted), strstart;
      AddedOne(before, from);
      if matchLength >= MIN_MATCH {
        flush := EmitMatch(matchLength);
        if matchLength <= maxLazyMatch {
          AddedMore(before, from, strstart);
        }
        matchLength := 0;
      } else {
        flush := EmitByte();
      }
      if flush {
        CloseBlock();
      }
    }

    /** Output the current byte as a literal. */
    method EmitByte() returns (flush: bool)
      requires Shape() && WindowOk() && OutputOk(strstart) && lookahead > 0
      modifies this`tokens, this`strstart, this`lookahead
      ensures WindowOk() && OutputOk(strstart) && strstart == old(strstart) + 1 && lookahead == old(lookahead) - 1
      ensures Emitted() == old(Emitted()) + [Literal(window[old(strstart)])]
    {
      hide OutputOk, WindowUpTo, Emitted;
      CurrentByte();
      flush := TallyLiteral(strstart);
      lookahead := lookahead - 1;
      strstart := strstart + 1;
    }

    /** Output the match just found; its inner strings are inserted only if it is
        not too long, otherwise the running key is seeded again after it. */
    method EmitMatch(length: nat) returns (flush: bool)
      requires Shape() && WindowOk() && TablesOk() && SeedAt(strstart + 1) && top == strstart + 1
      requires eofile || lookahead >= MIN_LOOKAHEAD
      requires OutputOk(strstart) && MatchInInput(strstart, matchStart, length)
      modifies head, prev, this`insH, this`inserted, this`top, this`strstart, this`lookahead, this`tokens
      ensures WindowOk() && TablesOk() && SeedAt(strstart) && top <= strstart <= top + MAX_MATCH
      ensures OutputOk(strstart) && strstart == old(strstart) + length
      ensures lookahead == old(lookahead) - length && MIN_MATCH <= length <= MAX_MATCH
      ensures tokens == old(tokens) + [Match(length, old(strstart) - matchStart)]
      ensures Emitted() == old(Emitted()) + [Match(length, old(strstart) - matchStart)]
      ensures if length <= maxLazyMatch then AddedTo(old(inserted), old(strstart) + 1, strstart) else inserted == old(inserted)
    {
      hide TablesOk, SeedAt, OutputOk, WindowUpTo, DecodeToken, MatchInInput, Emitted, AddedTo;
      RoomForMatch(strstart, matchStart, length);
      flush := TallyMatch(strstart, matchStart, length);
      lookahead := lookahead - length;
      if length <= maxLazyMatch {
        InsertFollowing(length - 1);
        strstart := strstart + 1;
      } else {
        strstart := strstart + length;
        Reseed();
      }
    }

    /** The running key, computed again from the next two bytes. */
    method Reseed()
      requires Shape() && strstart + 1 < WINDOW_SIZE
      modifies this`insH
      ensures SeedAt(strstart)
    {
      hide UpdateHash, Seeded;
      insH := window[strstart] as Key;
      insH := UpdateHash(insH, window[strstart + 1]);
      SeedFromTwo(window[strstart], window[strstart + 1]);
    }

    /** The tokens put out so far are chosen greedily, and the strings inserted are those
        that goes with. */
    ghost predicate GreedilyChosen(c: Config, looks: map<nat, Look>)
      reads this
    {
      && Parameters() == c && Anchored() && inserted == InsertedBy(Emitted(), c.maxLazy)
      && consumed <= |input| && (eofile || Settled(looks, consumed))
      && GreedySoFar(input[..consumed], c, Emitted(), looks, base + strstart)
    }

    lemma CurrentByte()
      requires Shape() && WindowOk() && lookahead > 0
      ensures base + strstart + lookahead == consumed <= |input| && strstart + 2 < window.Length
      ensures window[strstart] == input[..consumed][base + strstart]
    {
    }

    /** A turn of deflate_fast() chooses greedily. */
    method FastStep(length: nat, ghost c: Config, ghost looks: map<nat, Look>) returns (matchLength: nat, ghost looks': map<nat, Look>)
      requires Shape() && Ready() && OutputOk(strstart) && blockStart <= strstart && lookahead > 0
      requires prevLength == MIN_MATCH - 1 && length < MIN_MATCH && GreedilyChosen(c, looks)
      modifies head, prev, this`insH, this`inserted, this`top, this`matchStart
      modifies this`strstart, this`lookahead, this`tokens, this`blocks, this`blockStart
      ensures WindowOk() && TablesOk() && SeedAt(strstart) && top <= strstart <= top + MAX_MATCH
      ensures lookahead < old(lookahead) && (!eofile ==> lookahead >= MIN_MATCH + 1)
      ensures OutputOk(strstart) && blockStart <= strstart
      ensures matchLength < MIN_MATCH && GreedilyChosen(c, looks')
    {
      hide TablesOk, SeedAt, OutputOk, FastFound, Emitted, GreedySoFar, FastLook, InsertedBy, Settled, Origin,
           WindowUpTo, ParametersOk;
      CurrentByte();
      ghost var data, ts, p := input[..consumed], Emitted(), base + strstart;
      ghost var found := FastFound(length);
      ghost var look := Look(base, Found(found.length, base + found.start));
      FastFoundIsLook(length);
      SettledNext(looks, p, look, consumed);
      matchLength := FastTurn(length);
      OriginStays(base, p, base + strstart);
      looks' := looks[p := look];
      ReadSoFar();
      ghost var t := if found.length >= MIN_MATCH then Match(found.length, p - look.found.start) else Literal(data[p]);
      GreedyStep(data, c, ts, looks, p, t, look);
    }

    method RefillFast(ghost c: Config, ghost looks: map<nat, Look>)
      requires Shape() && WindowOk() && TablesOk() && ParametersOk() && SeedAt(strstart)
      requires top <= strstart <= top + MAX_MATCH && GreedilyChosen(c, looks)
      requires OutputOk(strstart) && blockStart <= strstart
      requires eofile || lookahead >= 2
      requires eofile && !readError ==> consumed == |input|
      modifies window, head, prev, this`base, this`top, this`strstart, this`matchStart, this`blockStart
      modifies this`lookahead, this`eofile, this`consumed, this`readError
      ensures Ready() && OutputOk(strstart) && blockStart <= strstart && GreedilyChosen(c, looks)
      ensures consumed - lookahead == old(consumed - lookahead) && consumed <= |input|
    {
      hide TablesOk, SeedAt, Tiled, Decode, AllValid, GreedySoFar, Origin, InsertedBy;
      ghost var n := consumed;
      Refill();
      GreedyMoreData(input, n, consumed, c, Emitted(), looks, base + strstart);
    }

    /** deflate_fast(), levels 1 to 3: its tokens are chosen greedily. */
    method DeflateFast() returns (ghost looks: map<nat, Look>)
      requires Shape() && Ready() && OutputOk(strstart) && blockStart <= strstart && AtStart()
      modifies window, head, prev, this
      ensures Finished() && GreedyParse(input[..consumed], old(Parameters()), Flatten(blocks), looks)
    {
      hide TablesOk, SeedAt, OutputOk, WindowUpTo, ParametersOk, FastFound, Emitted, GreedyParse;
      var matchLength: nat := 0;
      ghost var c := Parameters();
      looks := map[];
      ReadSoFar();
      GreedyStart(input[..consumed], c);
      prevLength := MIN_MATCH - 1;
      while lookahead != 0
        invariant Ready() && OutputOk(strstart) && blockStart <= strstart
        invariant prevLength == MIN_MATCH - 1 && matchLength < MIN_MATCH && GreedilyChosen(c, looks)
        decreases |input| - consumed + lookahead
      {
        matchLength, looks := FastStep(matchLength, c, looks);
        RefillFast(c, looks);
      }
      LastBlock();
    }

    /** deflate(): greedy for levels 1 to 3, lazy for 4 to 9. */
    method Deflate() returns (ghost looks: map<nat, Look>)
      requires Shape() && Ready() && OutputOk(strstart) && blockStart <= strstart && AtStart()
      modifies window, head, prev, this
      ensures Finished() && Chosen(input[..consumed], old(comprLevel), old(Parameters()), Flatten(blocks), looks)
    {
      hide GreedyParse, LazyParse, Ready, OutputOk, AtStart, Finished;
      if comprLevel <= 3 {
        looks := DeflateFast();
      } else {
        looks := DeflateLazy();
      }
    }
  }

  /** A whole run: for every input, every way the reads cut it into chunks, every
      choice of block ends and every level, the blocks tile what was read, which
      without a read error is the whole input, and their tokens decode to it.  For
      levels 1 to 3 they are chosen greedily, for 4 to 9 lazily, and then no match of
      length 3 is far away. */
  method Compress(data: seq<Uch>, level: int)
    returns (ok: bool, flags: bv16, readError: bool, blocks: seq<Block>, read: nat, ghost looks: map<nat, Look>)
    ensures ok <==> 1 <= level <= 9
    ensures flags == if level == 1 then 4 else if level == 9 then 2 else 0
    ensures ok ==> read <= |data| && (readError || read == |data|)
    ensures ok ==> forall k, l, d :: 0 <= k < |Flatten(blocks)| && Flatten(blocks)[k] == Match(l, d) ==> 3 <= l <= 258 && 1 <= d <= 32506
    ensures ok ==> Tiled(data, blocks, read) && Decode(Flatten(blocks)) == Some(data[..read]) && AllValid(Flatten(blocks))
    ensures ok ==> blocks != [] && forall k :: 0 <= k < |blocks| ==> (blocks[k].eof <==> k == |blocks| - 1)
    ensures ok && level <= 3 ==> GreedyParse(data[..read], ConfigurationTable(level), Flatten(blocks), looks)
    ensures ok && level >= 4 ==> LazyParse(data[..read], ConfigurationTable(level), Flatten(blocks), looks)
    ensures ok && level >= 4 ==> forall k, d :: 0 <= k < |Flatten(blocks)| && Flatten(blocks)[k] == Match(3, d) ==> d <= 4096
  {
    hide LazyParse, GreedyParse, Tiled, Decode, Flatten, ConfigurationTable;
    var d := new Deflater(data);
    looks := map[];
    ok, flags := d.LmInit(level, 0);
    if ok {
      looks := d.Deflate();
      TiledFacts(data, d.blocks, d.consumed);
      if level >= 4 {
        AllShortMatchesAreNear(data[..d.consumed], ConfigurationTable(level), Flatten(d.blocks), looks);
      }
    }
    readError, blocks, read := d.readError, d.blocks, d.consumed;
  }
}