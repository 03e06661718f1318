/** Which tokens the two main loops of `deflate.c` choose, as predicates on the data and
    the tokens that do not know of the window, the hash tables or any loop. */
module Parse {
  import opened Lz77
  import opened HashChains
  import opened MatchSearch

  /** The limits that go with a level. */
  datatype Config = Config(goodLength: nat, maxLazy: nat, niceLength: nat, maxChain: nat)

  /** What was found at a position: the longest match, if it has length 3 at least. The
      string at `origin`, where the window began at the time, is never matched. */
  datatype Look = Look(origin: nat, found: Found)

  /** An earlier string that was inserted and shares the bucket of the string at p. */
  ghost predicate Candidate(data: seq<Uch>, inserted: set<nat>, origin: nat, p: nat, q: nat) {
    q in inserted && origin < q < p && p + 2 < |data| && SlotAt(data, q) == SlotAt(data, p)
  }

  /** `v` lists the most recent candidates, latest first, at most `chain` of them: all at
      a distance below MAX_DIST, but the very latest may be just there. */
  ghost predicate Candidates(data: seq<Uch>, inserted: set<nat>, origin: nat, p: nat, chain: nat, v: seq<nat>) {
    && |v| <= chain
    && (forall k :: 0 <= k < |v| ==> Candidate(data, inserted, origin, p, v[k]))
    && (forall k :: 0 <= k < |v| ==> p - v[k] < MAX_DIST || (k == 0 && p - v[k] == MAX_DIST))
    && (forall j, k :: 0 <= j < k < |v| ==> v[j] > v[k])
    && (forall q :: Candidate(data, inserted, origin, p, q) && (p - q < MAX_DIST || (v == [] && p - q == MAX_DIST)) ==>
          q in v || (|v| == chain && forall k :: 0 <= k < |v| ==> q < v[k]))
  }

  /** How many bytes the strings at p and q have in common, MAX_MATCH at most. */
  ghost function Common(data: seq<Uch>, p: nat, q: nat): nat {
    MatchLength(data, p, q)
  }

  /** `f` is the best of the strings at `v`: nothing longer than `previous`, or the first
      that is longest; what is at least `nice` long is good enough. Of several matches
      up to the end of the data any may be taken. */
  ghost predicate Best(data: seq<Uch>, p: nat, v: seq<nat>, nice: nat, previous: nat, f: Found) {
    if f.length <= previous then forall k :: 0 <= k < |v| ==> Common(data, p, v[k]) <= previous
    else exists k :: 0 <= k < |v| && BestAt(data, p, v, nice, previous, f, k)
  }

  ghost predicate BestAt(data: seq<Uch>, p: nat, v: seq<nat>, nice: nat, previous: nat, f: Found, k: nat)
    requires k < |v|
  {
    && f.start == v[k] && f.length == Common(data, p, v[k])
    && (forall j :: 0 <= j < k ==> Common(data, p, v[j]) < f.length || p + f.length == |data|)
    && (forall j :: 0 <= j < k ==> Common(data, p, v[j]) <= previous || Common(data, p, v[j]) < nice)
    && (f.length >= nice || forall j :: k < j < |v| ==> Common(data, p, v[j]) <= f.length)
  }

  /** The window begins at a multiple of WSIZE, and far enough back. */
  predicate Origin(origin: nat, p: nat) {
    origin % WSIZE == 0 && origin <= p && (origin == 0 || p - origin >= MAX_DIST)
  }

  /** A search at position p for something longer than `previous`: with less effort when
      that is good already. */
  ghost predicate Sought(data: seq<Uch>, c: Config, inserted: set<nat>, origin: nat, p: nat, previous: nat, f: Found) {
    exists v ::
      && Candidates(data, inserted, origin, p, if previous >= c.goodLength then c.maxChain / 4 else c.maxChain, v)
      && Best(data, p, v, c.niceLength, previous, f)
  }

  /** The list of candidates is determined: a list does not go on where another differs. */
  lemma {:induction false} CandidatesOnce(data: seq<Uch>, inserted: set<nat>, origin: nat, p: nat, chain: nat,
                                          v: seq<nat>, w: seq<nat>, i: nat)
    requires Candidates(data, inserted, origin, p, chain, v) && Candidates(data, inserted, origin, p, chain, w)
    requires i <= |v|
    ensures i <= |w| && v[..i] == w[..i]
  {
    hide Candidates;
    if i > 0 {
      var j := i - 1;
      CandidatesOnce(data, inserted, origin, p, chain, v, w, j);
      forall k | 0 <= k < j
        ensures v[k] == w[k]
      {
        assert v[..j][k] == w[..j][k];
      }
      NextCandidate(data, inserted, origin, p, chain, v, w, j);
      NextCandidate(data, inserted, origin, p, chain, w, v, j);
    }
  }

  lemma NextCandidate(data: seq<Uch>, inserted: set<nat>, origin: nat, p: nat, chain: nat,
                      v: seq<nat>, w: seq<nat>, i: nat)
    requires Candidates(data, inserted, origin, p, chain, v) && Candidates(data, inserted, origin, p, chain, w)
    requires i < |v| && i <= |w| && forall k :: 0 <= k < i ==> v[k] == w[k]
    ensures i < |w| && v[i] <= w[i]
  {
    hide Candidate;
    var q := v[i];
    assert forall k :: 0 <= k < i ==> w[k] == v[k] > q;
    assert Candidate(data, inserted, origin, p, q);
    if w != [] && p - q == MAX_DIST {
      assert i == 0 && w[0] >= q;
    } else {
      assert q in w || (|w| == chain && forall k :: 0 <= k < |w| ==> q < w[k]);
    }
  }

  /** A search has one result, but for matches up to the end of the data. */
  lemma SoughtOnce(data: seq<Uch>, c: Config, inserted: set<nat>, origin: nat, p: nat, previous: nat, f: Found, g: Found)
    requires Sought(data, c, inserted, origin, p, previous, f) && Sought(data, c, inserted, origin, p, previous, g)
    requires p + MAX_MATCH < |data|
    ensures if f.length <= previous then g.length <= previous else f == g
  {
    hide Candidates, Common;
    var chain := if previous >= c.goodLength then c.maxChain / 4 else c.maxChain;
    var v :| Candidates(data, inserted, origin, p, chain, v) && Best(data, p, v, c.niceLength, previous, f);
    var w :| Candidates(data, inserted, origin, p, chain, w) && Best(data, p, w, c.niceLength, previous, g);
    CandidatesOnce(data, inserted, origin, p, chain, v, w, |v|);
    CandidatesOnce(data, inserted, origin, p, chain, w, v, |w|);
    assert v == v[..|v|] == w[..|v|] && w == w[..|w|];
    CommonAtMost(data, p, v);
  }

  lemma CommonAtMost(data: seq<Uch>, p: nat, v: seq<nat>)
    ensures forall k :: 0 <= k < |v| ==> Common(data, p, v[k]) <= MAX_MATCH
  {
  }

  /** What deflate_fast() finds at position p */
  ghost predicate FastLook(data: seq<Uch>, c: Config, inserted: set<nat>, p: nat, look: Look) {
    if p + MIN_MATCH > |data| then look.found.length < MIN_MATCH
    else
      && Origin(look.origin, p)
      && exists f :: Sought(data, c, inserted, look.origin, p, MIN_MATCH - 1, f) &&
                     if f.length < MIN_MATCH then look.found.length < MIN_MATCH else look.found == f
  }

  /** The positions from p to q */
  ghost function Range(p: nat, q: int): (r: set<nat>)
    ensures forall x :: x in r <==> p <= x < q
    decreases q
  {
    if q <= p then {} else Range(p, q - 1) + {q - 1}
  }

  /** What deflate() finds at position p, with a match of length `previous` at the
      position before: nothing if that is long enough, and no distant match of length 3. */
  ghost predicate LazyLook(data: seq<Uch>, c: Config, p: nat, previous: nat, look: Look) {
    if p + MIN_MATCH > |data| || previous >= c.maxLazy then look.found.length < MIN_MATCH
    else
      && Origin(look.origin, p)
      && exists f :: Sought(data, c, Range(0, p), look.origin, p, previous, f) &&
                     if f.length <= previous then look.found.length <= previous
                     else if f.length == 3 && p - f.start > 4096 then look.found.length < 3
                     else look.found == f
  }

  /** The bytes a token stands for */
  function Span(t: Token): int {
    if t.Literal? then 1 else t.length
  }

  /** The position behind all tokens */
  function Position(ts: seq<Token>): int {
    if ts == [] then 0 else Position(ts[..|ts| - 1]) + Span(ts[|ts| - 1])
  }

  /** The position before has been looked at if its byte was put out by itself. */
  ghost predicate Known(before: seq<Token>, looks: map<nat, Look>) {
    before != [] && before[|before| - 1].Literal? ==> Position(before) > 0 && (Position(before) - 1) as nat in looks
  }

  /** The length of the match at the position before, dropped for its first byte. */
  ghost function Dropped(before: seq<Token>, looks: map<nat, Look>): nat
    requires Known(before, looks)
  {
    if before != [] && before[|before| - 1].Literal? then looks[Position(before) - 1].found.length else MIN_MATCH - 1
  }

  /** Lazy evaluation: a match is put out if nothing longer is found one position on, and
      a literal if there is no match or a longer one there. */
  ghost predicate LazyToken(data: seq<Uch>, c: Config, before: seq<Token>, t: Token, looks: map<nat, Look>) {
    var p := Position(before);
    && 0 <= p < |data| && p in looks && Known(before, looks) && LazyLook(data, c, p, Dropped(before, looks), looks[p])
    && match t
       case Literal(b) =>
         && b == data[p]
         && (looks[p].found.length >= MIN_MATCH ==>
               p + 1 in looks && looks[p + 1].found.length > looks[p].found.length)
       case Match(length, distance) =>
         && length >= MIN_MATCH && looks[p].found == Found(length, p - distance)
         && p + 1 in looks && LazyLook(data, c, p + 1, length, looks[p + 1])
         && looks[p + 1].found.length <= length
  }

  /** The strings inserted by the greedy loop: not those inside long matches. */
  ghost function InsertedBy(ts: seq<Token>, maxInsert: nat): set<nat> {
    if ts == [] then {}
    else
      var before, t := ts[..|ts| - 1], ts[|ts| - 1];
      var p := Position(before);
      InsertedBy(before, maxInsert) +
      if p < 0 then {} else Range(p, if t.Match? && t.length <= maxInsert then p + t.length else p + 1)
  }

  /** Greedy evaluation: a match is put out where it is found. */
  ghost predicate GreedyToken(data: seq<Uch>, c: Config, before: seq<Token>, t: Token, looks: map<nat, Look>) {
    var p := Position(before);
    && 0 <= p < |data| && p in looks && FastLook(data, c, InsertedBy(before, c.maxLazy), p, looks[p])
    && match t
       case Literal(b) => b == data[p] && looks[p].found.length < MIN_MATCH
       case Match(length, distance) => length >= MIN_MATCH && looks[p].found == Found(length, p - distance)
  }

  ghost predicate LazyParse(data: seq<Uch>, c: Config, ts: seq<Token>, looks: map<nat, Look>) {
    forall k :: 0 <= k < |ts| ==> LazyToken(data, c, ts[..k], ts[k], looks)
  }

  ghost predicate GreedyParse(data: seq<Uch>, c: Config, ts: seq<Token>, looks: map<nat, Look>) {
    forall k :: 0 <= k < |ts| ==> GreedyToken(data, c, ts[..k], ts[k], looks)
  }
}
