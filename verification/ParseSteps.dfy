/** How the tokens chosen so far grow, turn by turn of the main loops. */
module ParseSteps {
  import opened Lz77
  import opened HashChains
  import opened MatchSearch
  import opened Parse

  lemma PositionSnoc(ts: seq<Token>, t: Token)
    ensures Position(ts + [t]) == Position(ts) + Span(t)
  {
    assert (ts + [t])[..|ts|] == ts;
  }

  /** Looking at more positions changes nothing about the tokens. */
  lemma LazyTokenKeeps(data: seq<Uch>, c: Config, before: seq<Token>, t: Token, looks: map<nat, Look>, p: nat, look: Look)
    requires LazyToken(data, c, before, t, looks) && p !in looks
    ensures LazyToken(data, c, before, t, looks[p := look])
  {
    hide LazyLook, Position;
  }

  lemma LazyParseSnoc(data: seq<Uch>, c: Config, ts: seq<Token>, t: Token, looks: map<nat, Look>)
    requires LazyParse(data, c, ts, looks) && LazyToken(data, c, ts, t, looks)
    ensures LazyParse(data, c, ts + [t], looks)
  {
    hide LazyToken;
    var us := ts + [t];
    forall k | 0 <= k < |us|
      ensures LazyToken(data, c, us[..k], us[k], looks)
    {
      assert us[..k] == ts[..k];
    }
  }

  lemma LazyParseKeeps(data: seq<Uch>, c: Config, ts: seq<Token>, looks: map<nat, Look>, p: nat, look: Look)
    requires LazyParse(data, c, ts, looks) && p !in looks
    ensures LazyParse(data, c, ts, looks[p := look])
  {
    hide LazyToken;
    forall k | 0 <= k < |ts|
      ensures LazyToken(data, c, ts[..k], ts[k], looks[p := look])
    {
      LazyTokenKeeps(data, c, ts[..k], ts[k], looks, p, look);
    }
  }

  /** Between two turns of deflate() at position p: the tokens put out are chosen lazily,
      and a match of this length is pending for the position before, or none. */
  ghost predicate LazySoFar(data: seq<Uch>, c: Config, ts: seq<Token>, looks: map<nat, Look>, p: nat,
                            available: bool, length: nat, start: int)
  {
    && LazyParse(data, c, ts, looks) && Known(ts, looks) && p <= |data|
    && (forall q :: q in looks ==> q < p)
    && Position(ts) == (if available then p - 1 else p)
    && if available then
         && p > 0 && (p - 1) as nat in looks && LazyLook(data, c, p - 1, Dropped(ts, looks), looks[p - 1])
         && looks[p - 1].found == Found(length, start)
       else length == MIN_MATCH - 1 && Dropped(ts, looks) == MIN_MATCH - 1
  }

  lemma LazyStart(data: seq<Uch>, c: Config, start: int)
    ensures LazySoFar(data, c, [], map[], 0, false, MIN_MATCH - 1, start)
  {
  }

  /** The pending match is put out when nothing longer was found here. */
  lemma LazyMatch(data: seq<Uch>, c: Config, ts: seq<Token>, looks: map<nat, Look>, p: nat, length: nat, start: int,
                  look: Look, start': int)
    requires LazySoFar(data, c, ts, looks, p, true, length, start) && p - 1 + length <= |data|
    requires length >= MIN_MATCH && LazyLook(data, c, p, length, look) && look.found.length <= length
    ensures LazySoFar(data, c, ts + [Match(length, p - 1 - start)], looks[p := look], p - 1 + length, false, MIN_MATCH - 1, start')
  {
    hide LazyLook, LazyParse, Position;
    var t := Match(length, p - 1 - start);
    LazyParseKeeps(data, c, ts, looks, p, look);
    LazyParseSnoc(data, c, ts, t, looks[p := look]);
    PositionSnoc(ts, t);
  }

  /** Otherwise its first byte is put out by itself, and what was found here is pending. */
  lemma LazyLiteral(data: seq<Uch>, c: Config, ts: seq<Token>, looks: map<nat, Look>, p: nat, length: nat, start: int,
                    look: Look)
    requires LazySoFar(data, c, ts, looks, p, true, length, start) && p < |data|
    requires LazyLook(data, c, p, length, look) && (length >= MIN_MATCH ==> look.found.length > length)
    ensures LazySoFar(data, c, ts + [Literal(data[p - 1])], looks[p := look], p + 1, true, look.found.length, look.found.start)
  {
    hide LazyLook, LazyParse, Position;
    var t := Literal(data[p - 1]);
    LazyParseKeeps(data, c, ts, looks, p, look);
    LazyParseSnoc(data, c, ts, t, looks[p := look]);
    PositionSnoc(ts, t);
  }

  /** With nothing pending, what was found here is pending now. */
  lemma LazyWait(data: seq<Uch>, c: Config, ts: seq<Token>, looks: map<nat, Look>, p: nat, start: int, look: Look)
    requires LazySoFar(data, c, ts, looks, p, false, MIN_MATCH - 1, start) && p < |data|
    requires LazyLook(data, c, p, MIN_MATCH - 1, look)
    ensures LazySoFar(data, c, ts, looks[p := look], p + 1, true, look.found.length, look.found.start)
  {
    hide LazyLook, LazyParse, Position;
    LazyParseKeeps(data, c, ts, looks, p, look);
  }

  /** A turn of deflate() at position p, where `look` was found */
  lemma LazyTurnChooses(data: seq<Uch>, c: Config, ts: seq<Token>, looks: map<nat, Look>, p: nat,
                        available: bool, length: nat, start: int, look: Look,
                        ts': seq<Token>, p': nat, available': bool, length': nat, start': int)
    requires LazySoFar(data, c, ts, looks, p, available, length, start) && p < |data| && p' <= |data|
    requires LazyLook(data, c, p, length, look) && (length >= MIN_MATCH ==> available)
    requires if length >= MIN_MATCH && look.found.length <= length then
               ts' == ts + [Match(length, p - 1 - start)] && p' == p - 1 + length && !available' && length' == MIN_MATCH - 1
             else
               && (available ==> p > 0) && ts' == ts + (if available then [Literal(data[p - 1])] else [])
               && p' == p + 1 && available' && look.found == Found(length', start')
    ensures LazySoFar(data, c, ts', looks[p := look], p', available', length', start')
  {
    hide LazyLook, LazyParse, Position;
    if length >= MIN_MATCH && look.found.length <= length {
      LazyMatch(data, c, ts, looks, p, length, start, look, start');
    } else if available {
      LazyLiteral(data, c, ts, looks, p, length, start, look);
    } else {
      LazyWait(data, c, ts, looks, p, start, look);
      assert ts + [] == ts;
    }
  }

  /** At the end of the data a last byte may be pending. */
  lemma LazyEnd(data: seq<Uch>, c: Config, ts: seq<Token>, looks: map<nat, Look>, length: nat, start: int)
    requires LazySoFar(data, c, ts, looks, |data|, true, length, start)
    ensures LazyParse(data, c, ts + [Literal(data[|data| - 1])], looks)
  {
    hide LazyParse, Position;
    assert looks[|data| - 1].found.length < MIN_MATCH;
    hide LazyLook;
    LazyParseSnoc(data, c, ts, Literal(data[|data| - 1]), looks);
  }

  /** The first n bytes and the first m look alike to a search that ends before n. */
  lemma CommonKeeps(data: seq<Uch>, n: nat, m: nat, p: nat, q: nat)
    requires n <= m <= |data| && q < p && p + MAX_MATCH <= n
    ensures Common(data[..n], p, q) == Common(data[..m], p, q)
  {
    hide MatchLength;
    var l := MatchLength(data[..n], p, q);
    MatchLengthAgrees(data[..n], p, q, l);
    forall i | 0 <= i < l
      ensures SameByte(data[..m], p, q, i)
    {
      assert SameByte(data[..n], p, q, i);
    }
    if l < MAX_MATCH {
      MatchLengthAgrees(data[..n], p, q, l + 1);
      assert forall i :: 0 <= i < l ==> SameByte(data[..n], p, q, i);
      assert !SameByte(data[..n], p, q, l);
    }
    MatchLengthIs(data[..m], p, q, l);
  }

  lemma CandidateKeeps(data: seq<Uch>, n: nat, m: nat, inserted: set<nat>, origin: nat, p: nat, q: nat)
    requires n <= m <= |data| && p + MIN_MATCH <= n
    ensures Candidate(data[..n], inserted, origin, p, q) == Candidate(data[..m], inserted, origin, p, q)
  {
  }

  lemma SoughtKeeps(data: seq<Uch>, n: nat, m: nat, c: Config, inserted: set<nat>, origin: nat, p: nat, previous: nat, f: Found)
    requires n <= m <= |data| && p + MAX_MATCH < n
    requires Sought(data[..n], c, inserted, origin, p, previous, f)
    ensures Sought(data[..m], c, inserted, origin, p, previous, f)
  {
    hide Common, Candidate;
    var chain := if previous >= c.goodLength then c.maxChain / 4 else c.maxChain;
    var v :| Candidates(data[..n], inserted, origin, p, chain, v) && Best(data[..n], p, v, c.niceLength, previous, f);
    forall q: nat
      ensures Candidate(data[..n], inserted, origin, p, q) == Candidate(data[..m], inserted, origin, p, q)
    {
      CandidateKeeps(data, n, m, inserted, origin, p, q);
    }
    assert Candidates(data[..m], inserted, origin, p, chain, v);
    CandidatesBefore(data[..n], inserted, origin, p, chain, v);
    forall k | 0 <= k < |v|
      ensures Common(data[..n], p, v[k]) == Common(data[..m], p, v[k])
    {
      CommonKeeps(data, n, m, p, v[k]);
    }
    BestKeeps(data, n, m, p, v, c.niceLength, previous, f);
  }

  lemma CandidatesBefore(data: seq<Uch>, inserted: set<nat>, origin: nat, p: nat, chain: nat, v: seq<nat>)
    requires Candidates(data, inserted, origin, p, chain, v)
    ensures forall k :: 0 <= k < |v| ==> v[k] < p
  {
  }

  lemma BestKeeps(data: seq<Uch>, n: nat, m: nat, p: nat, v: seq<nat>, nice: nat, previous: nat, f: Found)
    requires n <= m <= |data| && p + MAX_MATCH < n && Best(data[..n], p, v, nice, previous, f)
    requires forall k :: 0 <= k < |v| ==> Common(data[..n], p, v[k]) == Common(data[..m], p, v[k])
    ensures Best(data[..m], p, v, nice, previous, f)
  {
    if f.length > previous {
      var k :| 0 <= k < |v| && BestAt(data[..n], p, v, nice, previous, f, k);
      assert f.length <= MAX_MATCH;
      hide Common;
      assert BestAt(data[..m], p, v, nice, previous, f, k);
    }
  }

  lemma LazyLookKeeps(data: seq<Uch>, n: nat, m: nat, c: Config, p: nat, previous: nat, look: Look)
    requires n <= m <= |data| && p + MAX_MATCH < n && LazyLook(data[..n], c, p, previous, look)
    ensures LazyLook(data[..m], c, p, previous, look)
  {
    hide Sought;
    if previous < c.maxLazy {
      var f :| Sought(data[..n], c, Range(0, p), look.origin, p, previous, f) &&
               if f.length <= previous then look.found.length <= previous
               else if f.length == 3 && p - f.start > 4096 then look.found.length < 3
               else look.found == f;
      SoughtKeeps(data, n, m, c, Range(0, p), look.origin, p, previous, f);
    }
  }

  lemma FastLookKeeps(data: seq<Uch>, n: nat, m: nat, c: Config, inserted: set<nat>, p: nat, look: Look)
    requires n <= m <= |data| && p + MAX_MATCH < n && FastLook(data[..n], c, inserted, p, look)
    ensures FastLook(data[..m], c, inserted, p, look)
  {
    hide Sought;
    var f :| Sought(data[..n], c, inserted, look.origin, p, MIN_MATCH - 1, f) &&
             if f.length < MIN_MATCH then look.found.length < MIN_MATCH else look.found == f;
    SoughtKeeps(data, n, m, c, inserted, look.origin, p, MIN_MATCH - 1, f);
  }

  /** All that was looked at lies well before the end of the n bytes. */
  ghost predicate Settled(looks: map<nat, Look>, n: nat) {
    forall p :: p in looks ==> p + MAX_MATCH < n
  }

  lemma SettledNext(looks: map<nat, Look>, p: nat, look: Look, n: nat)
    ensures Settled(looks, n) && p + MAX_MATCH < n ==> Settled(looks[p := look], n)
  {
  }

  lemma OriginStays(origin: nat, p: nat, q: nat)
    requires Origin(origin, p) && p <= q
    ensures Origin(origin, q)
  {
  }

  /** Reading more data changes nothing about the tokens chosen. */
  lemma LazyMoreData(data: seq<Uch>, n: nat, m: nat, c: Config, ts: seq<Token>, looks: map<nat, Look>, p: nat,
                     available: bool, length: nat, start: int)
    requires n <= m <= |data| && (n == m || Settled(looks, n))
    requires LazySoFar(data[..n], c, ts, looks, p, available, length, start)
    ensures LazySoFar(data[..m], c, ts, looks, p, available, length, start)
  {
    hide LazyLook, LazyToken, Position;
    if n < m {
      forall k | 0 <= k < |ts|
        ensures LazyToken(data[..m], c, ts[..k], ts[k], looks)
      {
        LazyTokenMoreData(data, n, m, c, ts[..k], ts[k], looks);
      }
      if available {
        LazyLookKeeps(data, n, m, c, p - 1, Dropped(ts, looks), looks[p - 1]);
      }
    }
  }

  lemma LazyTokenMoreData(data: seq<Uch>, n: nat, m: nat, c: Config, before: seq<Token>, t: Token, looks: map<nat, Look>)
    requires n <= m <= |data| && Settled(looks, n) && LazyToken(data[..n], c, before, t, looks)
    ensures LazyToken(data[..m], c, before, t, looks)
  {
    hide LazyLook, Position;
    var p := Position(before);
    LazyLookKeeps(data, n, m, c, p, Dropped(before, looks), looks[p]);
    if t.Match? {
      LazyLookKeeps(data, n, m, c, p + 1, t.length, looks[p + 1]);
    }
  }

  lemma InsertedSnoc(ts: seq<Token>, t: Token, maxInsert: nat)
    requires Position(ts) >= 0
    ensures InsertedBy(ts + [t], maxInsert) ==
              InsertedBy(ts, maxInsert) +
              Range(Position(ts), if t.Match? && t.length <= maxInsert then Position(ts) + t.length else Position(ts) + 1)
  {
    assert (ts + [t])[..|ts|] == ts;
  }

  /** The greedy loop at position p */
  ghost predicate GreedySoFar(data: seq<Uch>, c: Config, ts: seq<Token>, looks: map<nat, Look>, p: nat) {
    && GreedyParse(data, c, ts, looks) && Position(ts) == p <= |data|
    && forall q :: q in looks ==> q < p
  }

  lemma GreedyStart(data: seq<Uch>, c: Config)
    ensures GreedySoFar(data, c, [], map[], 0)
  {
  }

  lemma GreedyStep(data: seq<Uch>, c: Config, ts: seq<Token>, looks: map<nat, Look>, p: nat, t: Token, look: Look)
    requires GreedySoFar(data, c, ts, looks, p) && p < |data|
    requires FastLook(data, c, InsertedBy(ts, c.maxLazy), p, look)
    requires match t
             case Literal(b) => b == data[p] && look.found.length < MIN_MATCH
             case Match(length, distance) =>
               length >= MIN_MATCH && look.found == Found(length, p - distance) && p + length <= |data|
    ensures GreedySoFar(data, c, ts + [t], looks[p := look], p + Span(t))
    ensures InsertedBy(ts + [t], c.maxLazy) ==
              InsertedBy(ts, c.maxLazy) + Range(p, if t.Match? && t.length <= c.maxLazy then p + t.length else p + 1)
  {
    hide FastLook, InsertedBy, Position;
    PositionSnoc(ts, t);
    InsertedSnoc(ts, t, c.maxLazy);
    var us, looks' := ts + [t], looks[p := look];
    forall k | 0 <= k < |us|
      ensures GreedyToken(data, c, us[..k], us[k], looks')
    {
      assert us[..k] == ts[..k];
      if k < |ts| {
        assert GreedyToken(data, c, ts[..k], ts[k], looks);
      }
    }
  }

  lemma GreedyMoreData(data: seq<Uch>, n: nat, m: nat, c: Config, ts: seq<Token>, looks: map<nat, Look>, p: nat)
    requires n <= m <= |data| && (n == m || Settled(looks, n))
    requires GreedySoFar(data[..n], c, ts, looks, p)
    ensures GreedySoFar(data[..m], c, ts, looks, p)
  {
    hide FastLook, InsertedBy, Position;
    if n < m {
      forall k | 0 <= k < |ts|
        ensures GreedyToken(data[..m], c, ts[..k], ts[k], looks)
      {
        assert GreedyToken(data[..n], c, ts[..k], ts[k], looks);
        var q := Position(ts[..k]);
        FastLookKeeps(data, n, m, c, InsertedBy(ts[..k], c.maxLazy), q, looks[q]);
      }
    }
  }

  /** A match put out is longer than the one dropped for it. */
  lemma LongerThanDropped(data: seq<Uch>, c: Config, ts: seq<Token>, looks: map<nat, Look>, k: nat)
    requires LazyParse(data, c, ts, looks) && k < |ts| && ts[k].Match?
    ensures Known(ts[..k], looks) && ts[k].length > Dropped(ts[..k], looks)
  {
    hide LazyLook, Position;
    assert LazyToken(data, c, ts[..k], ts[k], looks);
    if k > 0 {
      assert LazyToken(data, c, ts[..k - 1], ts[k - 1], looks);
      assert ts[..k] == ts[..k - 1] + [ts[k - 1]];
      PositionSnoc(ts[..k - 1], ts[k - 1]);
    }
  }

  /** No lazily chosen match of length 3 is far away. */
  lemma ShortMatchesAreNear(data: seq<Uch>, c: Config, ts: seq<Token>, looks: map<nat, Look>, k: nat)
    requires LazyParse(data, c, ts, looks) && k < |ts| && ts[k].Match? && ts[k].length == 3
    ensures ts[k].distance <= 4096
  {
    hide Sought, Position;
    assert LazyToken(data, c, ts[..k], ts[k], looks);
    LongerThanDropped(data, c, ts, looks, k);
  }

  lemma AllShortMatchesAreNear(data: seq<Uch>, c: Config, ts: seq<Token>, looks: map<nat, Look>)
    requires LazyParse(data, c, ts, looks)
    ensures forall k, d :: 0 <= k < |ts| && ts[k] == Match(3, d) ==> d <= 4096
  {
    hide LazyParse;
    forall k, d | 0 <= k < |ts| && ts[k] == Match(3, d)
      ensures d <= 4096
    {
      ShortMatchesAreNear(data, c, ts, looks, k);
    }
  }
}
