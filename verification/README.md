# Verified models of gzip's compressor, bmake's scheduler and their neighbours

Dafny models of the parts of this repository whose correctness rests on invariants
rather than on any single line, each proved against a specification that does not
mention how the code works.

- **gzip's LZ77 compressor** (`Lz77`, `HashKey`, `HashChains`, `MatchSearch`, `Blocks`,
  `Parse`, `ParseWindow`, `ParseSteps`, `Deflate`). The sliding window, the hash heads, the
  masked `prev` array, lazy evaluation and block boundaries, updated in place. The
  specification is a decoder of tokens, and predicates on the data and the tokens that say
  which tokens greedy and lazy evaluation choose, without window, tables or loops. Two
  things in them are not fixed by the data: where the window began at the time of a search
  (its first string is never matched, and it moves when the reads make it), and which of
  several matches up to the end of the data is taken (the bytes behind the end decide).
  Positions are signed, since a pending match may start at -1 after a slide; `base` is the
  absolute position of `window[0]`.
- **Bit output** (`BitStrings`, `BitWriter`). A 16 bit word and a byte buffer refine a
  list of bits (RFC 1951, section 3.1.1).
- **Option scanning** (`GetoptSpec`, `Getopt`). `argv` is permuted in place while it is
  scanned; the specification says what the arguments mean in their original order.
- **bmake's parallel scheduler** (`Graph`, `Expand`, `Schedule`, `Blocked`, `Make`). The
  marking pass, counters of unmade children, predecessor edges, nodes dropped at the
  predecessor check and queued again, and jobs that end in any order with any outcome.
- **Conditionals** (`CondNesting`, `CondExpr`, `CondValue`). Four flat variables against
  nested text, and a recursive descent evaluator with one push-back token against
  expression trees.
- **Implicit sources** (`SuffixLevels`, `SuffixSearch`). A breadth-first search without a
  visited set against paths of transformations.
- **MD5** (`Md5Spec`, `Md5Bits`, `Md5Tables`, `Md5`). A streaming digest with unrolled
  rounds against RFC 1321, sections 3.1 to 3.5, whose functions and tables are described
  bit by bit and by the sine recurrence.
- **The hash table of bmake** (`HashTableSpec`, `HashTableSteps`, `HashTable`). Chained
  entries that move when the table grows, against a finite map.

`Wrappers` and `Bitwise` hold what the modules share. `dafny verify dfyconfig.toml` checks
everything.

## Where code and documentation differ

The models follow the code.

- `make.c:99-101` says that nodes left over mean a cycle (or an error). A node whose
  commands start no shell is passed to `Make_Update` without being recorded as made
  (`job.c:1871-1881`), so a successor in a `.ORDER` may wait for it for ever.
  `Make.SilentPredecessorLosesNodes` is a run on such a graph. `Make.Maker.MakeRun` and
  `Blocked.DocumentedIff` say exactly when the documented reading holds, in terms of the
  graph, the commands and the jobs that would fail; without predecessors that start no
  shell it does.
- `Cond_EvalExpression` promises to set the value whenever it answers COND_PARSE. Its
  switch has a default branch that sets nothing, and a stray operator or closing
  parenthesis gets there: `CondValue.LeadingOperatorAccepted` and
  `CondValue.StrayOperandAccepted`. `CondValue.ValueSetIff` is the exact condition,
  `CondValue.ValueSetOnTidyText` what can be seen from the text.
- `SuffFindThem` is described as searching all paths until a file is found. On suffixes
  whose transformations form a cycle it does not end when nothing can be found:
  `SuffixSearch.CyclicSearchNeverEnds`. `SuffixSearch.SearchEndsIff` is the exact
  condition.
- `MD5Update` takes any `unsigned int` length. Its loop test wraps around for some
  lengths just below 2^32: `Md5.LoopGuardWraps`. `Md5.LoopGuardIff` is the exact
  condition. `UINT4` is modelled as the four byte word its comment says it is;
  `global.h:20` makes it an `unsigned long`.

## Conventions

Integer widths are written out where they matter: 15 bit hash keys and bytes of gzip are
bit vectors, 32 bit words are numbers below 2^32 with the remainder taken explicitly, and
`x & mask`, `x << k` and `x >> k` are bitwise functions or their arithmetic equivalents
for unsigned operands. Reads, flush decisions and truth values of tests are arbitrary
values. Which nodes are up to date, start no shell or have failing jobs is given by
arbitrary sets: each node is examined at most once, so that is every outcome.

## Model

| member | source | states |
|---|---|---|
| Deflate.Compress | src/contrib/gnu/gzip/deflate.c:661-763 | for every input, every way the reads cut it up, every level and every choice of ct_tally to flush, the tokens of all blocks decode to exactly what was read; for levels 1 to 3 they are chosen greedily and for 4 to 9 lazily, each match being the first longest of the most recent earlier strings of its bucket, and then no match of length 3 has a distance above 4096; each is a literal or a copy of 3..258 bytes from at most 32506 back, the blocks tile the input, and only the last is flagged as last; the flags say FAST for level 1 and SLOW for level 9; any other level than 1..9 is refused |
| Deflate.Deflater.Deflate | src/contrib/gnu/gzip/deflate.c:661-763 | a run ends with the blocks tiling the whole input; the tokens are a greedy parse of it for levels 1 to 3 and a lazy parse for the others, by the parameters of the level |
| Deflate.Deflater.DeflateLazy | src/contrib/gnu/gzip/deflate.c:675-762 | the lazy loop ends with the blocks tiling the input and a lazy parse: a match is put out if nothing longer is found one position on or it is long enough not to look, a literal if there is no match or a longer one there, and no search finds a distant match of length 3 |
| Deflate.Deflater.LazyStep | src/contrib/gnu/gzip/deflate.c:679-750 | a turn extends the lazy parse by what it puts out, and leaves pending what was found |
| Deflate.Deflater.LazyLast | src/contrib/gnu/gzip/deflate.c:759-760 | the byte pending at the end completes the lazy parse |
| Deflate.Deflater.LazyFoundIsLook | src/contrib/gnu/gzip/deflate.c:679-703 | what is found in the window is what the data call for at this position: the best of the most recent candidates, nothing after a match that is long enough, no distant match of length 3 |
| Deflate.Deflater.LazyTurn | src/contrib/gnu/gzip/deflate.c:679-750 | one turn, exactly: the pending match is put out if the one found here is not longer, otherwise a pending byte as a literal, otherwise nothing; what stays pending denotes a match in the input |
| Deflate.Deflater.EmitPrevious | src/contrib/gnu/gzip/deflate.c:707-730 | the pending match is output at its distance (also when match_start is -1 after a slide), exactly its inner strings are inserted, and the chains stay exact |
| Deflate.Deflater.EmitLiteral | src/contrib/gnu/gzip/deflate.c:732-740 | the byte one position back is output, and a block closed here ends at the current position |
| Deflate.Deflater.DeflateFast | src/contrib/gnu/gzip/deflate.c:580-654 | the greedy loop ends with the blocks tiling the input and a greedy parse: a match is put out where it is found, a literal where none is; strings inside long matches are no candidates later |
| Deflate.Deflater.FastStep | src/contrib/gnu/gzip/deflate.c:591-643 | a turn extends the greedy parse by what it puts out; what is inserted goes with the tokens |
| Deflate.Deflater.FastFoundIsLook | src/contrib/gnu/gzip/deflate.c:591-604 | what is found in the window is what the data call for at this position |
| Deflate.Deflater.EmitByte | src/contrib/gnu/gzip/deflate.c:636-642 | a literal for the current byte |
| Deflate.Deflater.FastTurn | src/contrib/gnu/gzip/deflate.c:591-643 | one greedy turn, exactly: the match found here is put out if it has length 3 at least, otherwise a literal; input and output stay in step |
| Deflate.Deflater.EmitMatch | src/contrib/gnu/gzip/deflate.c:605-635 | a match is output and skipped; exactly its inner strings are inserted if it is no longer than max_insert_length, none otherwise, and the chains stay exact either way |
| Deflate.Deflater.Reseed | src/contrib/gnu/gzip/deflate.c:630-631 | two bytes are enough to make the running key valid again |
| Deflate.Deflater.InsertFollowing | src/contrib/gnu/gzip/deflate.c:616-626 | exactly the following positions are inserted, one after the other, and the chains stay exact |
| Deflate.Deflater.LazySearch | src/contrib/gnu/gzip/deflate.c:679-703 | the match found is the one of the naive search over the chain, cut to the lookahead, unless the pending one is long enough or it is a distant one of length 3; a longer one denotes a proper match in the input |
| Deflate.Deflater.FastSearch | src/contrib/gnu/gzip/deflate.c:591-604 | the match found is the one of the naive search over the chain, cut to the lookahead; a length of at least 3 denotes a proper match in the input |
| ParseSteps.LazyTurnChooses | src/contrib/gnu/gzip/deflate.c:704-750 | the choice of one turn keeps the tokens a lazy parse |
| ParseSteps.GreedyStep | src/contrib/gnu/gzip/deflate.c:605-642 | the choice of one turn keeps the tokens a greedy parse |
| ParseSteps.LazyMoreData | src/contrib/gnu/gzip/deflate.c:758 | reading more changes nothing about the choices made |
| ParseSteps.LongerThanDropped | src/contrib/gnu/gzip/deflate.c:732-736 | a match put out is longer than the one dropped for it |
| ParseSteps.ShortMatchesAreNear | src/contrib/gnu/gzip/deflate.c:696-702 | in a lazy parse no match of length 3 has a distance above 4096 |
| Deflate.Deflater.ClippedMatch | src/contrib/gnu/gzip/deflate.c:601-603 | a match is cut to the bytes that are really there |
| Deflate.Deflater.MatchDecodes | src/contrib/gnu/gzip/deflate.c:711 | a pair token made from a match in the window decodes to the bytes it stands for |
| Deflate.Deflater.LongestMatch | src/contrib/gnu/gzip/deflate.c:357-480 | the result equals the naive search over every position on the chain, first longest wins, cut off at nice_match; a length above prev_length comes with a start whose that many bytes agree |
| ParseWindow.SearchIsSought | src/contrib/gnu/gzip/deflate.c:357-480 | a search along the hash chain, cut to the lookahead, finds what is sought in the data, whatever the window holds behind their end |
| ParseWindow.LookedAreCandidates | src/contrib/gnu/gzip/deflate.c:465-477 | the positions looked at are the most recent inserted positions of the bucket within the distance limit, at most as many as the level allows |
| ParseWindow.FoundIsBest | src/contrib/gnu/gzip/deflate.c:465-479 | cut to the lookahead the result is the first longest match in the data, or the first that is good enough |
| ParseWindow.WindowCommon | src/contrib/gnu/gzip/deflate.c:601-603 | cutting to the lookahead gives the agreement within the data |
| Parse.SoughtOnce | src/contrib/gnu/gzip/deflate.c:357-480 | what is sought has one answer, but for matches up to the end of the data |
| Parse.CandidatesOnce | src/contrib/gnu/gzip/deflate.c:465-477 | the list of the most recent candidates is determined |
| Deflate.Deflater.Compare | src/contrib/gnu/gzip/deflate.c:450-461 | the comparison loop finds the exact agreement, although the third byte is never looked at |
| Deflate.Deflater.Examine | src/contrib/gnu/gzip/deflate.c:437-440 | the quick reject on scan_end passes every candidate that is longer |
| MatchSearch.SearchIsMaximum | src/contrib/gnu/gzip/deflate.c:465-479 | the reference search returns the maximum agreement over all candidates unless stopped by nice_match, and changes only for a longer one |
| MatchSearch.MatchLengthAgrees | src/contrib/gnu/gzip/deflate.c:450-461 | the match length is the longest agreement, in both directions |
| MatchSearch.SearchStep | src/contrib/gnu/gzip/deflate.c:465-477 | one turn of the loop is one step of the reference search |
| MatchSearch.ThirdByteSame | src/contrib/gnu/gzip/deflate.c:442-448 | equal buckets and two equal bytes imply three equal bytes |
| MatchSearch.RejectIsSafe | src/contrib/gnu/gzip/deflate.c:437-440 | a rejected candidate cannot be longer than the best |
| HashKey.RollingHash | src/contrib/gnu/gzip/deflate.c:262-268 | one UPDATE_HASH on a key that knows the last two bytes gives the key of the last three |
| HashKey.KeyOfThree | src/contrib/gnu/gzip/deflate.c:262-268 | each of three bytes takes part shifted by five bits a step, in 15 bits |
| HashKey.SeedFromTwo | src/contrib/gnu/gzip/deflate.c:337-338 | both ways of seeding the key from two bytes |
| HashKey.ThirdByteFollows | src/contrib/gnu/gzip/deflate.c:442-447 | the third byte is determined by the bucket and the first two |
| HashChains.InsertKeepsChains | src/contrib/gnu/gzip/deflate.c:278-281 | INSERT_STRING keeps every head and every live link exact, also when positions have been skipped |
| HashChains.SlideKeepsChains | src/contrib/gnu/gzip/deflate.c:530-552 | moving the window down by WSIZE and rebasing head and prev keeps the chains exact |
| HashChains.ReadKeepsChains | src/contrib/gnu/gzip/deflate.c:555-563 | new bytes behind the inserted strings do not disturb the chains |
| HashChains.EmptyChains | src/contrib/gnu/gzip/deflate.c:299-301 | cleared heads are exact whatever prev holds |
| HashChains.HeadIsLatest | src/contrib/gnu/gzip/deflate.c:278-281 | the old head is NIL or an earlier inserted position of the same bucket |
| HashChains.VisitedSound | src/contrib/gnu/gzip/deflate.c:365-368 | a search sees only inserted positions of the same bucket, in strictly decreasing order, above the limit |
| HashChains.VisitedComplete | src/contrib/gnu/gzip/deflate.c:476-477 | a search sees every inserted position of the bucket above the limit, unless it has seen as many as it may, all of them later |
| HashChains.LinkSkipsNone | src/contrib/gnu/gzip/deflate.c:476-477 | a link leads to the latest earlier position of the bucket |
| Deflate.Deflater.FillWindow | src/contrib/gnu/gzip/deflate.c:516-564 | the window keeps holding the latest input, every read asks for at least two bytes that fit, and absolute positions (string start, pending match, block start) are the same before and after |
| Deflate.Deflater.Slide | src/contrib/gnu/gzip/deflate.c:530-552 | the slide, in place on the window and both tables |
| Deflate.Deflater.SlideTable | src/contrib/gnu/gzip/deflate.c:542-552 | either table loop rebases every entry or clears it |
| Deflate.Deflater.ReadMore | src/contrib/gnu/gzip/deflate.c:555-563 | what is read follows the lookahead; no bytes means the end of the file |
| Deflate.Deflater.ReadBuf | src/contrib/gnu/gzip/deflate.c:555-557 | a read gives a chunk of any size that fits, nothing at the end, or an error |
| Deflate.Deflater.RefillLazy | src/contrib/gnu/gzip/deflate.c:758 | a slide leaves the pending match the same absolute match at the same distance |
| Deflate.Deflater.Refill | src/contrib/gnu/gzip/deflate.c:650 | enough lookahead except at the end of the file |
| Deflate.Deflater.InsertString | src/contrib/gnu/gzip/deflate.c:278-281 | the string becomes the head of its bucket and its link the old head, which is returned; the chains stay exact |
| Deflate.Deflater.RollKey | src/contrib/gnu/gzip/deflate.c:268-279 | the running key names the bucket of the string |
| Deflate.Deflater.ResetTables | src/contrib/gnu/gzip/deflate.c:293-310 | the chains are empty and the four parameters are those of the level |
| Deflate.Columns | src/contrib/gnu/gzip/deflate.c:225-238 | the table of the levels, by columns |
| Deflate.Deflater.LmInit | src/contrib/gnu/gzip/deflate.c:286-342 | all state is as the main loops need it, and FAST or SLOW is added to the flags for levels 1 and 9; pack levels outside 1..9 are refused |
| Deflate.Deflater.StartInput | src/contrib/gnu/gzip/deflate.c:312-342 | the first input is read, nothing is inserted or put out |
| Deflate.Deflater.FirstRead | src/contrib/gnu/gzip/deflate.c:324-338 | after the first read the window, the lookahead and the running key are as the main loops need them, or the end of the file is known |
| Deflate.Deflater.Tally | src/contrib/gnu/gzip/deflate.c:608 | ct_tally appends a token; its flush flag is arbitrary |
| Deflate.Deflater.TallyLiteral | src/contrib/gnu/gzip/deflate.c:639 | a literal stands for the next byte of the input |
| Deflate.Deflater.TallyMatch | src/contrib/gnu/gzip/deflate.c:711 | a pair is output for a match in the input, at its distance |
| Deflate.Deflater.FlushBlock | src/contrib/gnu/gzip/deflate.c:570-572 | the buffer passed holds exactly the bytes of the block, or is absent if they have left the window |
| Deflate.Deflater.WindowIsInput | src/contrib/gnu/gzip/deflate.c:570-572 | what the window holds before the current string is the input at its place |
| Deflate.Deflater.CloseBlock | src/contrib/gnu/gzip/deflate.c:643 | a block ends where the next begins, and no token is lost |
| Deflate.Deflater.LastBlock | src/contrib/gnu/gzip/deflate.c:653 | the last block ends at the end of the input |
| Blocks.TiledPrefix | src/contrib/gnu/gzip/deflate.c:570-572 | tiling blocks have no gap and no overlap: every prefix of them tiles a prefix of the input, and the lengths add up |
| Blocks.TiledFacts | src/contrib/gnu/gzip/deflate.c:570-572 | tiling blocks decode to the input they cover, by valid tokens only |
| Blocks.TiledAppend | src/contrib/gnu/gzip/deflate.c:570-572 | closing a block extends the tiling |
| Lz77.CopyReproduces | src/contrib/gnu/gzip/deflate.c:711 | a copy reproduces the next bytes exactly when they repeat the ones at the distance, overlaps included |
| Lz77.DecodePrefix | src/contrib/gnu/gzip/deflate.c:570-572 | a prefix of the tokens decodes to a prefix of the bytes |
| BitWriter.Output.SendBits | src/contrib/gnu/gzip/bits.c:119-141 | the bit stream grows by the bits of the value, low bit first, also across a word boundary; unused bits stay zero and the buffer never full |
| BitWriter.Output.SendFields | src/contrib/gnu/gzip/bits.c:119-141 | sending fields one after the other puts exactly their bits on the stream, so that FieldsRecovered is about send_bits |
| BitWriter.Output.Windup | src/contrib/gnu/gzip/bits.c:163-175 | the stream is padded with fewer than eight zero bits to a byte boundary |
| BitWriter.Output.CopyBlock | src/contrib/gnu/gzip/bits.c:181-205 | alignment, then LEN and its complement if asked for, then the bytes |
| BitWriter.HeaderReadBack | src/contrib/gnu/gzip/bits.c:189-191 | read back from the four bytes LEN is the length in 16 bits and NLEN its complement |
| BitWriter.Output.PutShort | src/contrib/gnu/gzip/gzip.h:214-224 | two bytes, low byte first, whether or not the buffer is flushed between |
| BitWriter.Output.PutByte | src/contrib/gnu/gzip/gzip.h:210-211 | the byte is stored or the buffer flushed after it; nothing is lost |
| BitWriter.Output.PutBytes | src/contrib/gnu/gzip/bits.c:198-204 | the bytes in order |
| BitWriter.WordFits | src/contrib/gnu/gzip/bits.c:137-140 | a value that fits joins the bits in the word |
| BitWriter.WordOverflows | src/contrib/gnu/gzip/bits.c:128-134 | a value that does not fit is split between two words without loss |
| BitWriter.Padding | src/contrib/gnu/gzip/bits.c:163-170 | fewer than eight bits, up to a byte boundary |
| BitWriter.FieldsRecovered | src/contrib/gnu/gzip/bits.c:119-141 | a reader that knows the lengths recovers every value from what the fields leave in the stream: equal streams mean equal fields |
| BitWriter.Reverse | src/contrib/gnu/gzip/bits.c:148-158 | the bits of the code in the opposite order |
| BitWriter.ReverseInvolution | src/contrib/gnu/gzip/bits.c:148-158 | reversing twice gives the code back, for every length |
| BitStrings.BitsInjective | src/contrib/gnu/gzip/bits.c:119-141 | different values of a length have different bits |
| Getopt.ScanAll | src/contrib/gnu/gzip/getopt.c:327-658 | a complete run reports what the arguments mean in their original order, leaves options, their arguments and "--" first and the others behind, each group in order, and optind at the first of the others |
| GetoptSpec.KindIsColons | src/contrib/gnu/gzip/getopt.c:606-640 | a listed character takes no argument, one that must be there or one that may exactly as no, one or two colons follow where it is listed first |
| GetoptSpec.UnknownIffUnlisted | src/contrib/gnu/gzip/getopt.c:585-605 | an option is unknown if and only if it is a colon or not listed |
| GetoptSpec.RequiredArgument | src/contrib/gnu/gzip/getopt.c:620-655 | a required argument is the rest of the element, or the next element whatever it is, or reported missing, by a colon if the option string starts with one |
| GetoptSpec.OptionalArgument | src/contrib/gnu/gzip/getopt.c:608-620 | an optional argument is the rest of the element only |
| GetoptSpec.Cluster | src/contrib/gnu/gzip/getopt.c:575-605 | options without arguments in one element mean what they mean apart |
| GetoptSpec.NoOptions | src/contrib/gnu/gzip/getopt.c:385-420 | the first "--" ends the options, a single dash and other elements are passed over |
| GetoptSpec.SuffixOption | src/contrib/gnu/gzip/gzip.c:481-482 | gzip -S .z file: the argument of -S is .z and the one other argument is file |
| Getopt.Scanner.GetOpt | src/contrib/gnu/gzip/getopt.c:327-658 | one call keeps the account of options passed, others passed and arguments to come, or ends the scan; it makes progress |
| Getopt.Scanner.NextElement | src/contrib/gnu/gzip/getopt.c:368-445 | permuting, skipping and "--" keep the account or end the scan |
| Getopt.Scanner.Regroup | src/contrib/gnu/gzip/getopt.c:371-379 | options found behind skipped non-options change places with them |
| Getopt.Scanner.SkipNonOptions | src/contrib/gnu/gzip/getopt.c:384-392 | non-options are passed over |
| Getopt.Scanner.SkipDashes | src/contrib/gnu/gzip/getopt.c:399-412 | "--" is moved to the end of the options and everything behind it is one of the others |
| Getopt.Scanner.NextCharacter | src/contrib/gnu/gzip/getopt.c:580-657 | one option character with its argument: attached, the next element, or missing |
| Getopt.Scanner.Exchange | src/contrib/gnu/gzip/getopt.c:241-268 | the two neighbouring groups change places, each in its old order |
| Getopt.Scanner.ReverseRange | src/contrib/gnu/gzip/getopt.c:250-252 | one of the three in-place loops |
| Getopt.ThreeReversals | src/contrib/gnu/gzip/getopt.c:227-235 | three reversals are one rotation |
| Getopt.StepKeepsSplit | src/contrib/gnu/gzip/getopt.c:580-657 | taking one option character keeps the account |
| Getopt.ExchangeKeepsSplit | src/contrib/gnu/gzip/getopt.c:374-377 | exchanging keeps the account |
| Getopt.CloseAtDashes | src/contrib/gnu/gzip/getopt.c:399-412 | at "--" the account is closed |
| Getopt.SteppedIsOneOf | src/contrib/gnu/gzip/getopt.c:580-657 | characters taken one by one add up to what the whole element means |
| GetoptSpec.PartitionIsPermutation | src/contrib/gnu/gzip/getopt.c:370-422 | options and others together are the arguments, rearranged |
| Make.Maker.MakeRun | src/contrib/bsd/bmake/make.c:1010-1061 | a run of jobs that end in any order with any outcome keeps the invariant; without -k it is aborted exactly if a job has failed, and from then on no further node is examined and no job started; a run that is over and not aborted leaves nothing queued, and a marked node is unexamined if and only if it is stuck behind a failure, a cycle, or a predecessor whose commands start no shell, and which nodes those are is decided before the run by the graph, the commands and the outcomes; the documented reading holds if and only if every marked node behind a marked predecessor without a shell leads to a failure or a cycle anyway, in particular when there is none; a cycle is reported exactly if nodes are left without an error |
| Make.Maker.ExpandUse | src/contrib/bsd/bmake/make.c:915-986 | marks exactly what the targets lead to, counts it, and returns the marked nodes that wait for no child, each once, in the order of a visit that goes from the targets outwards |
| Make.Maker.AddChildren | src/contrib/bsd/bmake/make.c:308-319 | the children not marked yet |
| Make.Maker.MakeUpdate | src/contrib/bsd/bmake/make.c:566-649 | exactly the counters of marked parents go down by one, what becomes ready is put at the end of the queue, and the invariant holds again |
| Make.Maker.UpdateParents | src/contrib/bsd/bmake/make.c:588-610 | counters and fringe after the parents have been told |
| Make.Maker.UpdateSuccessors | src/contrib/bsd/bmake/make.c:620-628 | successors that only this node held back are queued again, none twice |
| Make.Maker.TakeNext | src/contrib/bsd/bmake/make.c:784-817 | the first node of the fringe is dropped because a marked predecessor is not made, or examined: once, and after everything it depends on |
| Make.Maker.PredecessorUnmade | src/contrib/bsd/bmake/make.c:792-809 | the predecessor check, in both directions |
| Make.Maker.StartJobs | src/contrib/bsd/bmake/make.c:779-845 | nodes are examined until the run is aborted, as many jobs run as may, or the fringe is empty; where that is so already, nothing at all changes |
| Make.Maker.UpToDate | src/contrib/bsd/bmake/make.c:830-841 | a node that needs no job is recorded as up to date and its parents told |
| Make.Maker.JobMake | src/contrib/bsd/bmake/job.c:1682-1974 | if the commands and flags leave no shell to start, Make_Update is called with nothing recorded; otherwise a job is started |
| Make.Maker.JobExec | src/contrib/bsd/bmake/job.c:1355-1359 | one slot more, and the table is full exactly at the limit |
| Make.Maker.CatchChildren | src/contrib/bsd/bmake/job.c:2246-2311 | at least one job ends, and slots are free again |
| Make.Maker.ReapOne | src/contrib/bsd/bmake/job.c:2288-2310 | one job, any of them, leaves the table, its slot is free, and it ends as JobFinish says |
| Make.Maker.JobFinish | src/contrib/bsd/bmake/job.c:996-1018 | only a job that succeeds in a run that is not aborted is recorded as made and its parents told; otherwise it is stopped, an error counted if it failed, and the run aborted after an error unless -k was given |
| Make.Maker.JobLost | src/contrib/bsd/bmake/job.c:1000-1018 | a job that failed, or ended in an aborted run, tells no parent |
| Make.Maker.CountError | src/contrib/bsd/bmake/job.c:999-1016 | an error begins the aborting of the run unless it is to keep going |
| Make.Maker.RecordMade | src/contrib/bsd/bmake/job.c:1000-1001 | recording a node as made |
| Make.Maker.AsForeseen | src/contrib/bsd/bmake/job.c:1871-1881 | the nodes passed on unrecorded are the updated ones out of date and without a shell, and a job is lost in a run that is not aborted only if it fails |
| Expand.VisitKeepsMarking | src/contrib/bsd/bmake/make.c:935-981 | only reachable nodes are marked or queued, and nothing reachable is forgotten |
| Expand.VisitLighter | src/contrib/bsd/bmake/make.c:935-981 | a visit to a marked node makes the queue lighter although its cohorts are queued again |
| Expand.VisitGoesOutwards | src/contrib/bsd/bmake/make.c:935-981 | every node visited is a target or the child or cohort of one visited before |
| Expand.MarkingDone | src/contrib/bsd/bmake/make.c:935-981 | with an empty queue exactly the reachable nodes are marked |
| Schedule.UpdateKeepsCounts | src/contrib/bsd/bmake/make.c:588-610 | the counter of a marked node is its number of children not yet updated |
| Schedule.UpdateLosesNone | src/contrib/bsd/bmake/make.c:620-628 | a marked node without outstanding children is examined, queued, or held back by a predecessor: none is lost |
| Schedule.ReadyToExamine | src/contrib/bsd/bmake/make.c:792-817 | a queued node that nothing holds back has all it depends on updated |
| Schedule.ExamineFirst | src/contrib/bsd/bmake/make.c:812-817 | examining the first node of the fringe when no predecessor holds it back keeps the invariant |
| Schedule.ExamineKeepsOrder | src/contrib/bsd/bmake/make.c:812-817 | nodes are examined at most once, each after all it depends on |
| Schedule.ParentIsWaiting | src/contrib/bsd/bmake/make.c:588-610 | a node not updated keeps its marked parents waiting |
| Schedule.FringeTail | src/contrib/bsd/bmake/make.c:785-800 | taking a node off the fringe loses no other |
| Schedule.RunningUnmade | src/contrib/bsd/bmake/job.c:2288-2294 | a running node is not recorded as made |
| Blocked.UnexaminedIffStuck | src/contrib/bsd/bmake/make.c:99-101 | when a run is over, a marked node is unexamined if and only if a walk over children and predecessors ends in a failure, a cycle or a silent predecessor |
| Blocked.UnexaminedIffDoomed | src/contrib/bsd/bmake/make.c:99-101 | which nodes are left over does not depend on the order in which jobs end or on how many run at a time: they are those stuck behind a node whose job would fail, a cycle, or a predecessor out of date and without a shell |
| Blocked.StuckNotExamined | src/contrib/bsd/bmake/make.c:792-817 | what is stuck is never examined |
| Blocked.FollowBlockers | src/contrib/bsd/bmake/make.c:792-817 | from an unexamined node the blockers lead to a dead end |
| Blocked.DocumentedIff | src/contrib/bsd/bmake/make.c:99-101 | the documented reading (exactly errors and cycles leave nodes over) holds if and only if, in the graph, every marked node that has a marked predecessor out of date and without a shell leads to a node whose job would fail or to a cycle |
| Blocked.FollowHarmless | src/contrib/bsd/bmake/make.c:99-101 | if every node behind a silent predecessor leads to a node whose job would fail or to a cycle, every unexamined node leads to a job that did fail or to a cycle |
| Make.SilentPredecessorLosesNodes | src/contrib/bsd/bmake/job.c:1871-1881 | it does not hold always: with two ordered children, the first without a shell to start, every run leaves the second and the target unexamined and reports a cycle, though no job fails and the graph has no cycle |
| Blocked.UnexaminedCount | src/contrib/bsd/bmake/make.c:99-101 | numNodes is zero exactly if every marked node was examined |
| CondNesting.WholeText | src/contrib/bsd/bmake/cond.c:1141-1278 | for every nested text whose kept part nests at most MAXIF deep, exactly the lines of the first true alternatives are kept, and condTop, skipIfLevel and skipLine return to their first values |
| CondNesting.MisplacedRefused | src/contrib/bsd/bmake/cond.c:1171-1232 | behind balanced text an alternative or an end is refused and changes nothing |
| CondNesting.MalformedRefused | src/contrib/bsd/bmake/cond.c:1220-1251 | a malformed expression is refused where it is evaluated, and not looked at where text is skipped |
| CondNesting.TooDeepRefused | src/contrib/bsd/bmake/cond.c:1252-1273 | a section nested deeper than MAXIF is refused |
| CondNesting.ReadBlock | src/contrib/bsd/bmake/cond.c:1171-1240 | text that is read is kept as the structure says |
| CondNesting.SkipBlock | src/contrib/bsd/bmake/cond.c:1171-1240 | skipped text changes nothing, however deep conditionals nest in it |
| CondNesting.TailTaken | src/contrib/bsd/bmake/cond.c:1204-1240 | after a taken alternative the others are skipped |
| CondNesting.TailOpen | src/contrib/bsd/bmake/cond.c:1252-1277 | until one holds the alternatives are tried in order |
| CondNesting.Conditionals.CondEval | src/contrib/bsd/bmake/cond.c:1141-1278 | the method on the array and the three variables computes the step |
| CondExpr.EvaluatePrinted | src/contrib/bsd/bmake/cond.c:1074-1116 | any expression printed with parentheses where precedence needs them evaluates to its truth value, all tokens are read, and exactly the tests of a short-circuit evaluation are made |
| CondExpr.TrailingRejected | src/contrib/bsd/bmake/cond.c:1091-1110 | an expression followed by a closing parenthesis and whatever else is malformed |
| CondExpr.OperandThenJunk | src/contrib/bsd/bmake/cond.c:1091-1110 | so is an operand followed by anything but an operator |
| CondExpr.ParsePrintT | src/contrib/bsd/bmake/cond.c:926-958 | CondT on a printed term |
| CondExpr.ParsePrintF | src/contrib/bsd/bmake/cond.c:975-1005 | CondF on a printed conjunction; a skipped operand is parsed and not evaluated |
| CondExpr.ParsePrintE | src/contrib/bsd/bmake/cond.c:1022-1053 | CondE on a printed disjunction; a skipped operand is parsed and not evaluated |
| CondExpr.ParseT | src/contrib/bsd/bmake/cond.c:926-958 | on any input: it makes progress, leaves the slot empty and, told not to evaluate, evaluates nothing |
| CondExpr.ParseF | src/contrib/bsd/bmake/cond.c:975-1005 | the same for CondF |
| CondExpr.ParseE | src/contrib/bsd/bmake/cond.c:1022-1053 | the same for CondE |
| CondExpr.NextToken | src/contrib/bsd/bmake/cond.c:489-906 | a token pushed back is taken first; without evaluation no test is made |
| CondExpr.Evaluator.EvalExpression | src/contrib/bsd/bmake/cond.c:1074-1116 | the methods on the scanner variables compute the parse functions |
| CondExpr.Evaluator.CondPushBack | src/contrib/bsd/bmake/cond.c:165-169 | the slot is empty at every push, on any input |
| CondExpr.Evaluator.CondT | src/contrib/bsd/bmake/cond.c:926-958 | CondT on the scanner variables |
| CondExpr.Evaluator.CondF | src/contrib/bsd/bmake/cond.c:975-1005 | CondF on the scanner variables |
| CondExpr.Evaluator.CondE | src/contrib/bsd/bmake/cond.c:1022-1053 | CondE on the scanner variables |
| CondExpr.Evaluator.CondToken | src/contrib/bsd/bmake/cond.c:489-906 | CondToken on the scanner variables |
| CondValue.ValueSetIff | src/contrib/bsd/bmake/cond.c:1091-1115 | for every text the value is set, or the text rejected, if and only if the operand that decides the answer in the short-circuit order is not an operator or a closing parenthesis; otherwise the text is accepted and the value left as it was |
| CondValue.ValueSetOnTidyText | src/contrib/bsd/bmake/cond.c:1091-1115 | what can be seen from the text: with no operator or closing parenthesis at its beginning or directly behind an operator or an opening parenthesis, the value is set or the text rejected |
| CondValue.DecidedT | src/contrib/bsd/bmake/cond.c:926-958 | the answer of CondT is true or false at an operand, an error where nothing decides, and otherwise a stray operator or closing parenthesis |
| CondValue.DecidedF | src/contrib/bsd/bmake/cond.c:975-1005 | the same for CondF |
| CondValue.DecidedE | src/contrib/bsd/bmake/cond.c:1022-1053 | the same for CondE |
| CondValue.InPlaceE | src/contrib/bsd/bmake/cond.c:1022-1053 | the deciding operand stands at the beginning or directly behind an operator or an opening parenthesis |
| CondValue.StrayOperandAccepted | src/contrib/bsd/bmake/cond.c:1091-1115 | "x || )" is accepted with the value left as it was when x does not hold |
| CondValue.LeadingOperatorAccepted | src/contrib/bsd/bmake/cond.c:1091-1115 | a text that starts with an operator or a closing parenthesis is answered COND_PARSE with the value left as it was, whatever follows |
| SuffixSearch.Search.FindSource | src/contrib/bsd/bmake/suff.c:1904-2079 | for a target of any name: the source found exists, no existing one has a shorter transformation path, every other existing one of that length comes later in the order of targets and suffixes, its path leads up to a target of the name with one prefix all the way; none found means none exists |
| SuffixSearch.Search.FindThem | src/contrib/bsd/bmake/suff.c:1279-1329 | the first existing file of the first level that has one, before every other existing file of that level in the order of targets and suffixes, everything before it tried and recorded; NULL only if no file on any transformation path exists; it ends on acyclic suffixes and whenever something can be found |
| SuffixSearch.Search.SetUp | src/contrib/bsd/bmake/suff.c:1959-2041 | one target per known suffix of the name, the null suffix otherwise, and the files each can be made from |
| SuffixSearch.Search.AddLevel | src/contrib/bsd/bmake/suff.c:1186-1196 | all sources of a target join the end of the list |
| SuffixSearch.Search.AddSrc | src/contrib/bsd/bmake/suff.c:1117-1171 | the file for a suffix, and the bare prefix for a named null suffix |
| SuffixSearch.SearchEndsIff | src/contrib/bsd/bmake/suff.c:1279-1329 | the loop ends if and only if an existing file can be reached or no cycle of suffixes can: there is no visited set |
| SuffixSearch.CyclicSearchNeverEnds | src/contrib/bsd/bmake/suff.c:1279-1329 | it does not end always: for x.o, itself a node, with .o from .c, .c from .l and .l from .c and no file around |
| SuffixSearch.FirstIsShortest | src/contrib/bsd/bmake/suff.c:2276-2284 | the first file found is one of least depth |
| SuffixSearch.FirstPrecedes | src/contrib/bsd/bmake/suff.c:1294-1323 | every other existing file of the same level comes later |
| SuffixSearch.PositionAfter | src/contrib/bsd/bmake/suff.c:1294-1323 | after any number of turns the list is a position of some level |
| SuffixSearch.ReachesPosition | src/contrib/bsd/bmake/suff.c:1294-1323 | every position of every level comes up |
| SuffixSearch.SearchedAll | src/contrib/bsd/bmake/suff.c:1294-1328 | an empty list means that every file was tried |
| SuffixSearch.RootOfSource | src/contrib/bsd/bmake/suff.c:2063-2065 | working up the path ends at a target, with one prefix all the way |
| SuffixSearch.SuffixedAreTargets | src/contrib/bsd/bmake/suff.c:1966-2010 | each target splits the name at its suffix |
| SuffixSearch.SuffixedIff | src/contrib/bsd/bmake/suff.c:1966-2010 | a name has exactly the targets whose suffix it ends in |
| SuffixSearch.SuffixedOrder | src/contrib/bsd/bmake/suff.c:1966-2010 | in the order of the list of suffixes |
| SuffixSearch.UnknownSuffix | src/contrib/bsd/bmake/suff.c:2012-2041 | a name of no known suffix has the null suffix, and is searched for only without commands of its own |
| SuffixLevels.LevelIff | src/contrib/bsd/bmake/suff.c:1186-1196 | the levels hold exactly the files whose parents lead down by transformations |
| SuffixLevels.LevelOrder | src/contrib/bsd/bmake/suff.c:1186-1196 | every level lists its files in the order of their targets, and those of one target in the order of its suffixes |
| SuffixLevels.NextLevelOrder | src/contrib/bsd/bmake/suff.c:1294-1323 | sources of an earlier file stand before those of a later one |
| SuffixLevels.SourcesOfOrder | src/contrib/bsd/bmake/suff.c:1196 | sources of one file stand in the order of the suffixes it can be made from |
| SuffixLevels.PrecedesOnce | src/contrib/bsd/bmake/suff.c:1186-1196 | of two files at most one comes before the other |
| SuffixLevels.NextLevelIff | src/contrib/bsd/bmake/suff.c:1117-1196 | the next level holds exactly the sources of this one |
| SuffixLevels.EmptyLevelIffAcyclic | src/contrib/bsd/bmake/suff.c:2276-2284 | the levels run dry if and only if no cycle of suffixes can be reached |
| Md5.DigestOfPieces | src/contrib/bsd/md5/md5c.c:99-181 | however a message is cut into pieces, Init, Update and Final give the digest of RFC 1321 on the whole |
| Md5.Context.Update | src/contrib/bsd/md5/md5c.c:115-152 | the context goes on from a message to the message with the input appended: count is 8 times the length modulo 2^64, the buffer holds the bytes left over |
| Md5.Context.Blocks | src/contrib/bsd/md5/md5c.c:131-146 | the state after all whole blocks, and how much of the input they used |
| Md5.Context.WholeBlocks | src/contrib/bsd/md5/md5c.c:140-141 | the loop over whole blocks of the input |
| Md5.Context.Final | src/contrib/bsd/md5/md5c.c:157-181 | the digest of the message; the context is cleared |
| Md5.Context.Copy | src/contrib/bsd/md5/md5c.c:311-320 | MD5_memcpy into the buffer |
| Md5.Transform | src/contrib/bsd/md5/md5c.c:185-273 | the unrolled rounds compute the operations of section 3.4 |
| Md5.Round1 | src/contrib/bsd/md5/md5c.c:193-209 | the 16 macro calls are operations 1 to 16 |
| Md5.Round2 | src/contrib/bsd/md5/md5c.c:211-227 | operations 17 to 32 |
| Md5.Round3 | src/contrib/bsd/md5/md5c.c:229-245 | operations 33 to 48 |
| Md5.Round4 | src/contrib/bsd/md5/md5c.c:247-263 | operations 49 to 64 |
| Md5Bits.FChooses | src/contrib/bsd/md5/md5c.c:64 | bit by bit, F is y where x has a one and z elsewhere |
| Md5Bits.GChooses | src/contrib/bsd/md5/md5c.c:65 | G is x where z has a one and y elsewhere |
| Md5Bits.HIsParity | src/contrib/bsd/md5/md5c.c:66 | H is the parity of the three |
| Md5Bits.IFlips | src/contrib/bsd/md5/md5c.c:67 | I is not y where x has a one or z has none, and y elsewhere |
| Md5Bits.RotateIsArithmetic | src/contrib/bsd/md5/md5c.c:71 | the circular shift is the product with 2^n modulo 2^32 plus what is carried out |
| Md5Bits.InitialBytes | src/contrib/bsd/md5/md5c.c:105-108 | the initial state is the bytes 01 23 45 67 89 ab cd ef fe dc ba 98 76 54 32 10 |
| Md5Tables.WordSteps | src/contrib/bsd/md5/rfc1321.txt:238-270 | the words come in steps of 1, 5, 3 and 7 from 0, 1, 5 and 0 on |
| Md5Tables.ShiftRows | src/contrib/bsd/md5/rfc1321.txt:238-270 | each round has its four distances in turn |
| Md5Tables.TableOfSines | src/contrib/bsd/md5/rfc1321.txt:205-208 | with their signs any three entries in a row satisfy sin(n+1) + sin(n-1) = 2 cos(1) sin(n), but for the digits cut off |
| Md5Tables.FirstSine | src/contrib/bsd/md5/rfc1321.txt:205-208 | the first entry is the sine of 1 |
| Md5.CountIsLength | src/contrib/bsd/md5/md5c.c:126-130 | the carry between the two words is right: the count is the length in bits modulo 2^64 |
| Md5.IndexIsRest | src/contrib/bsd/md5/md5c.c:123 | the index from the count is the number of bytes left over |
| Md5.LoopGuardIff | src/contrib/bsd/md5/md5c.c:140 | i + 63 < inputLen in 32 bits means what it says at all positions visited if and only if leftover and input together are shorter than 2^32 bytes |
| Md5.LoopGuardWraps | src/contrib/bsd/md5/md5c.c:140 | with one byte left over and 2^32 - 1 bytes of input the test asks for one more block when all has been used |
| Md5.PaddingIsPrefix | src/contrib/bsd/md5/md5c.c:169-172 | the padding length from the count is the least that leaves room for the length |
| Md5.Encode | src/contrib/bsd/md5/md5c.c:278-291 | words to bytes, low-order byte first |
| Md5.Decode | src/contrib/bsd/md5/md5c.c:296-306 | bytes to words, low-order byte first |
| Md5Spec.PaddedInBlocks | src/contrib/bsd/md5/rfc1321.txt:140-158 | the padded message ends on a block boundary |
| Md5Spec.PaddedLayout | src/contrib/bsd/md5/rfc1321.txt:140-168 | the padded message is the message, a one bit, zeros, and the length in bits modulo 2^64 with the low-order byte first |
| Md5Spec.PaddingIsInjective | src/contrib/bsd/md5/rfc1321.txt:140-158 | messages shorter than 2^61 bytes that are padded alike are the same |
| Md5Spec.WordRoundTrip | src/contrib/bsd/md5/md5c.c:278-306 | decoding undoes encoding |
| Md5Spec.BytesRoundTrip | src/contrib/bsd/md5/md5c.c:278-306 | encoding undoes decoding |
| Md5Spec.Quartet | src/contrib/bsd/md5/rfc1321.txt:234-241 | four operations in turn |
| HashTable.Table.CreateEntry | src/contrib/bsd/bmake/hash.c:220-267 | the map gains the key unless it is there; every other entry stays what it was, also across a rebuild; the table doubles exactly when a key is new and there are eight entries for each bucket, and never holds more |
| HashTable.Table.FindEntry | src/contrib/bsd/bmake/hash.c:183-198 | found exactly if the key is in the map, with its value |
| HashTable.Table.DeleteEntry | src/contrib/bsd/bmake/hash.c:287-306 | the key of the entry leaves the map; an entry that is not in the table is reported |
| HashTable.Table.UnlinkEntry | src/contrib/bsd/bmake/hash.c:295-305 | the walk along the chain |
| HashTable.Table.Unhook | src/contrib/bsd/bmake/hash.c:297-301 | the link around the entry, the entry freed, the count down by one |
| HashTable.Table.SetValue | src/contrib/bsd/bmake/hash.h:102 | the value of the key of the entry |
| HashTable.Table.Lookup | src/contrib/bsd/bmake/hash.c:191-197 | the chain of the bucket decides whether the key is there |
| HashTable.Table.Link | src/contrib/bsd/bmake/hash.c:253-262 | a new entry at the head of the chain of its bucket, the remainder of the hash, extends the map |
| HashTable.Table.RebuildTable | src/contrib/bsd/bmake/hash.c:404-429 | twice as many buckets, the same map, the same entries but for their links |
| HashTable.Table.MoveChain | src/contrib/bsd/bmake/hash.c:421-426 | every entry of an old chain is linked into its new bucket, the old chains still to come are untouched |
| HashTable.Table.HashKey | src/contrib/bsd/bmake/hash.c:191-192 | the loop computes the hash function, characters being signed bytes |
| HashTableSpec.HashIsDigits | src/contrib/bsd/bmake/hash.c:191-192 | the hash is the key read as a number to the base 31, modulo 2^32 |
| HashTable.Enumerate | src/contrib/bsd/bmake/hash.c:328-384 | an enumeration returns every entry of the table, each exactly once |
| HashTable.Search.EnumNext | src/contrib/bsd/bmake/hash.c:358-384 | the first of the entries not returned yet |
| HashTable.EntriesOnce | src/contrib/bsd/bmake/hash.c:358-384 | no entry is in two chains or twice in one |
| HashTableSpec.MaskIsRemainder | src/contrib/bsd/bmake/hash.c:117 | masking with a power of two less one is taking the remainder |
| HashTableSteps.MoveOne | src/contrib/bsd/bmake/hash.c:422-425 | one entry moved to the head of its new bucket |
| HashTableSteps.MovedAll | src/contrib/bsd/bmake/hash.c:414-428 | with all entries moved the new buckets represent the same map |
| HashTableSteps.InsertRepresents | src/contrib/bsd/bmake/hash.c:253-258 | a new entry at the head of its bucket extends the map |
| HashTableSteps.RemoveRepresents | src/contrib/bsd/bmake/hash.c:295-301 | an entry taken out of its chain shrinks the map |
| HashTableSteps.Unlink | src/contrib/bsd/bmake/hash.c:298-299 | taking one entry out of the links leaves the others linked in order |

## Left out

gzip:

- Huffman trees, CRC and inflating: `ct_tally` is the appending of a token with an
  arbitrary flush flag, `flush_block` the closing of a block, and the length it returns
  is not modelled.
- `zip.c` headers and trailers, file descriptors, and the branches of `deflate.c` for
  unaligned access, assembler and 16 bit machines.
- The window has MAX_MATCH + 1 guard bytes behind `window_size`: after the end of the
  file the comparison in `longest_match` may run into them, so the debugging assertion at
  `deflate.c:394` is not a theorem.
- Deflate.Deflater.ReadBuf: a read error ends the input as the end of the file does,
  after which the theorem is about what was read until then.
- Getopt.ScanAll: long options, messages and the orderings other than PERMUTE; an
  `optstring` that starts with `-` or `+` is not treated specially.
- Getopt.Scanner.GetOpt: the same, and `optopt`, which repeats the character of an answer
  `?` or `:`.

bmake:

- Make.Maker.MakeRun: query mode, the .END job and the exit of make after an aborted run.
- Make.Maker.ExpandUse: .USE, .MADE and archive nodes, and what `Suff_FindDeps` adds to
  the graph on the way; the graph is fixed during a run.
- Make.Maker.MakeUpdate: modification times and the CHILDMADE and FORCE flags, which feed
  `Make_OODate`; whether a node is out of date is a given set.
- Make.Maker.StartJobs: query mode, which stops at the first node out of date.
- Make.Maker.JobMake: every outcome of `JobStart` is a job that runs or a node whose
  commands start no shell; JOB_ERROR, commands run one at a time, jobs put on the stopped
  list, remote migration and interrupts are not part of the model, nor is the death of
  make on a missing rule.
- Make.Maker.CatchChildren: when output comes through pipes the wait does not block
  (`job.c:2256`) and may reap no job at all; here one is reaped at least. A turn in which
  none is reaped changes nothing, which is a clause of Make.Maker.StartJobs.
- Make.Maker.JobFinish: the exit at the end of an aborted run and the restarting of
  stopped jobs.
- CondNesting.Conditionals.CondEval: which conditional a line is and the value of its
  expression are given; CondExpr is about the latter.
- CondNesting.WholeText: malformed lines, unbalanced text and text nested deeper than
  MAXIF are steps of the model but not of this theorem; the entries of condStack below
  the top keep the values of the last conditionals; the reader is `ParseReadLine` as a
  function over lines.
- CondExpr.NextToken: the lexing of the text (`$` specs, comparisons, `make`, `defined`,
  `exists`, `target`) is given, as a list of lexemes with arbitrary truth values.
- CondExpr.Evaluator.CondToken: the same.
- SuffixSearch.Search.FindSource: the overriding rules of `SuffFindCmds` from existing
  children, the linking of the nodes found, and archive members.
- SuffixSearch.Search.AddSrc: the counters that decide when a `Src` may be freed.
- Search paths and the graph in `suff.c` are one fixed set of existing files.
- Pointers of `hash.c` are keys of a map that is the memory, so `next` is followed and
  overwritten as in the source; `int` overflow of the table size, `Hash_DeleteTable`,
  and changes to a table during an enumeration are not part of the model.
- HashTable.Table.HashKey: where char is unsigned, characters above 127 hash otherwise.

MD5:

- Wiping of `MD5Transform`'s local words.
