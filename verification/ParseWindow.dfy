/** A search in the window finds what the data call for: the window holds a part of them,
    the hash chains list the candidates. */
module ParseWindow {
  import opened Lz77
  import opened HashKey
  import opened HashChains
  import opened MatchSearch
  import opened Parse

  /** Window `w` holds the data from `base` up to their end, which is `ahead` bytes behind
      position s. */
  ghost predicate Holds(w: seq<Uch>, data: seq<Uch>, base: nat, s: nat, ahead: nat) {
    && base + s + ahead == |data| && s + ahead <= |w| && s + MAX_MATCH <= |w|
    && forall i {:trigger w[i]} :: 0 <= i < s + ahead ==> w[i] == data[base + i]
  }

  function Min(a: nat, b: nat): nat { if a <= b then a else b }

  /** Behind the end of the data the window may go on agreeing. */
  lemma WindowCommon(w: seq<Uch>, data: seq<Uch>, base: nat, s: nat, ahead: nat, m: nat)
    requires Holds(w, data, base, s, ahead) && m < s
    ensures Common(data, base + s, base + m) == Min(MatchLength(w, s, m), ahead)
  {
    hide MatchLength;
    var l := MatchLength(w, s, m);
    var r := Min(l, ahead);
    MatchLengthAgrees(w, s, m, r);
    if l < MAX_MATCH {
      MatchLengthAgrees(w, s, m, l + 1);
      MatchLengthAgrees(w, s, m, l);
      assert forall i :: 0 <= i < l ==> SameByte(w, s, m, i);
      assert !SameByte(w, s, m, l);
    }
    var p, q := base + s, base + m;
    forall i | 0 <= i < r
      ensures SameByte(data, p, q, i)
    {
      assert SameByte(w, s, m, i);
    }
    MatchLengthIs(data, p, q, r);
  }

  /** Positions in the data */
  function Lift(v: seq<nat>, base: nat): (r: seq<nat>)
    ensures |r| == |v| && forall k :: 0 <= k < |v| ==> r[k] == base + v[k]
  {
    seq(|v|, k requires 0 <= k < |v| => base + v[k])
  }

  lemma LiftHolds(v: seq<nat>, base: nat, p: nat)
    ensures p in v ==> base + p in Lift(v, base)
  {
    if p in v {
      var k :| 0 <= k < |v| && v[k] == p;
      assert Lift(v, base)[k] == base + p;
    }
  }

  /** What a search for more than `best` comes to: nothing, or candidate k. */
  ghost predicate FirstLongest(w: seq<Uch>, s: nat, v: seq<nat>, nice: nat, best: Found, r: Found, k: nat) {
    && k < |v| && r == Found(MatchLength(w, s, v[k]), v[k]) && r.length > best.length
    && (forall j :: 0 <= j < k ==>
          && MatchLength(w, s, v[j]) < r.length
          && (MatchLength(w, s, v[j]) <= best.length || MatchLength(w, s, v[j]) < nice))
    && (r.length >= nice || forall j :: k < j < |v| ==> MatchLength(w, s, v[j]) <= r.length)
  }

  ghost predicate NoneLonger(w: seq<Uch>, s: nat, v: seq<nat>, best: Found) {
    forall j :: 0 <= j < |v| ==> MatchLength(w, s, v[j]) <= best.length
  }

  lemma {:induction false} SearchFinds(w: seq<Uch>, s: nat, v: seq<nat>, nice: nat, best: Found) returns (k: nat)
    ensures var r := Search(w, s, v, nice, best);
            (r == best && NoneLonger(w, s, v, best)) || FirstLongest(w, s, v, nice, best, r, k)
    decreases |v|
  {
    k := 0;
    if v != [] {
      hide MatchLength;
      var length := MatchLength(w, s, v[0]);
      if length <= best.length {
        k := SearchFinds(w, s, v[1..], nice, best);
        k := k + 1;
      } else if length < nice {
        var best' := Found(length, v[0]);
        var l := SearchFinds(w, s, v[1..], nice, best');
        k := if Search(w, s, v[1..], nice, best') == best' then 0 else l + 1;
      }
    }
  }

  /** Cut to the data, that is the best match there. */
  lemma FoundIsBest(w: seq<Uch>, data: seq<Uch>, base: nat, s: nat, ahead: nat, v: seq<nat>, nice: nat, best: Found)
    requires Holds(w, data, base, s, ahead) && forall k :: 0 <= k < |v| ==> v[k] < s
    ensures var r := Search(w, s, v, nice, best);
            Best(data, base + s, Lift(v, base), nice, best.length, Found(Min(r.length, ahead), base + r.start))
  {
    hide MatchLength, Search, Common;
    var k := SearchFinds(w, s, v, nice, best);
    forall j | 0 <= j < |v|
      ensures Common(data, base + s, Lift(v, base)[j]) == Min(MatchLength(w, s, v[j]), ahead)
    {
      WindowCommon(w, data, base, s, ahead, v[j]);
    }
    var r := Search(w, s, v, nice, best);
    var f := Found(Min(r.length, ahead), base + r.start);
    if f.length > best.length {
      assert BestAt(data, base + s, Lift(v, base), nice, best.length, f, k);
    }
  }

  /** The positions a search looks at, once the string at s is inserted. */
  function Looked(w: seq<Uch>, s: nat, head: seq<nat>, prev: seq<nat>, limit: nat, chain: nat): seq<nat>
    requires s + 2 < |w| && |head| == HASH_SIZE && |prev| == WSIZE && chain >= 1
  {
    var first := head[SlotAt(w, s)];
    if first != NIL && s - first <= MAX_DIST then Visited(prev[Mask(s) := first], first, limit, chain) else []
  }

  /** They are the most recent candidates. */
  lemma LookedAreCandidates(w: seq<Uch>, data: seq<Uch>, base: nat, s: nat, ahead: nat, inserted: set<nat>, top: nat,
                            head: seq<nat>, prev: seq<nat>, chain: nat)
    requires Holds(w, data, base, s, ahead) && ahead >= MIN_MATCH
    requires ChainsOk(w, base, inserted, top, head, prev) && top <= s && chain >= 1
    ensures |head| == HASH_SIZE && |prev| == WSIZE
    ensures var limit := if s > MAX_DIST then s - MAX_DIST else NIL;
            Candidates(data, inserted, base, base + s, chain, Lift(Looked(w, s, head, prev, limit, chain), base))
  {
    hide ChainsOk, SlotAt, Mask, Visited, Looked;
    var limit := if s > MAX_DIST then s - MAX_DIST else NIL;
    HeadOfChain(w, base, inserted, top, head, prev, SlotAt(w, s));
    TableSizes(w, base, inserted, top, head, prev);
    var v := Looked(w, s, head, prev, limit, chain);
    LookedSound(w, base, s, inserted, top, head, prev, limit, chain);
    forall k | 0 <= k < |v|
      ensures Candidate(data, inserted, base, base + s, base + v[k])
    {
      SameSlots(w, data, base, s, ahead, v[k]);
    }
    forall q: nat | Candidate(data, inserted, base, base + s, q) &&
               (base + s - q < MAX_DIST || (v == [] && base + s - q == MAX_DIST))
      ensures q in Lift(v, base) || (|v| == chain && forall k :: 0 <= k < |v| ==> q < base + v[k])
    {
      SameSlots(w, data, base, s, ahead, q - base);
      LookedComplete(w, base, s, inserted, top, head, prev, limit, chain, q - base);
      LiftHolds(v, base, q - base);
    }
  }

  lemma TableSizes(w: seq<Uch>, base: nat, inserted: set<nat>, top: nat, head: seq<nat>, prev: seq<nat>)
    requires ChainsOk(w, base, inserted, top, head, prev)
    ensures |head| == HASH_SIZE && |prev| == WSIZE
  {
  }

  lemma SameSlots(w: seq<Uch>, data: seq<Uch>, base: nat, s: nat, ahead: nat, m: nat)
    requires Holds(w, data, base, s, ahead) && ahead >= MIN_MATCH && m < s
    ensures s + 2 < |w| && base + s + 2 < |data|
    ensures SlotAt(data, base + m) == SlotAt(w, m) && SlotAt(data, base + s) == SlotAt(w, s)
  {
  }

  lemma LookedSound(w: seq<Uch>, base: nat, s: nat, inserted: set<nat>, top: nat,
                    head: seq<nat>, prev: seq<nat>, limit: nat, chain: nat)
    requires ChainsOk(w, base, inserted, top, head, prev) && top <= s && s + 3 <= |w| && chain >= 1
    requires |head| == HASH_SIZE && |prev| == WSIZE && limit == if s > MAX_DIST then s - MAX_DIST else NIL
    ensures var v := Looked(w, s, head, prev, limit, chain);
            && |v| <= chain
            && (forall k :: 0 <= k < |v| ==>
                  0 < v[k] < s && base + v[k] in inserted && SlotAt(w, v[k]) == SlotAt(w, s))
            && (forall k :: 0 <= k < |v| ==> s - v[k] < MAX_DIST || (k == 0 && s - v[k] == MAX_DIST))
            && (forall j, k :: 0 <= j < k < |v| ==> v[j] > v[k])
  {
    hide ChainsOk, SlotAt, Mask, Visited;
    var first := head[SlotAt(w, s)];
    if first != NIL && s - first <= MAX_DIST {
      HeadIsLatest(w, base, inserted, top, head, prev, s);
      var inserted', head', prev' := inserted + {base + s}, head[SlotAt(w, s) := s], prev[Mask(s) := first];
      InsertKeepsChains(w, base, s, inserted, inserted', top, head, head', prev, prev');
      VisitedSound(w, base, inserted', s + 1, head', prev', first, limit, chain);
      var v := Visited(prev', first, limit, chain);
      assert forall k :: 1 <= k < |v| ==> v[k] == v[1..][k - 1];
    }
  }

  lemma LookedComplete(w: seq<Uch>, base: nat, s: nat, inserted: set<nat>, top: nat,
                       head: seq<nat>, prev: seq<nat>, limit: nat, chain: nat, p: nat)
    requires ChainsOk(w, base, inserted, top, head, prev) && top <= s && s + 3 <= |w| && chain >= 1
    requires |head| == HASH_SIZE && |prev| == WSIZE && limit == if s > MAX_DIST then s - MAX_DIST else NIL
    requires base + p in inserted && 0 < p < s && SlotAt(w, p) == SlotAt(w, s)
    requires var v := Looked(w, s, head, prev, limit, chain);
             s - p < MAX_DIST || (v == [] && s - p == MAX_DIST)
    ensures var v := Looked(w, s, head, prev, limit, chain);
            p in v || (|v| == chain && forall k :: 0 <= k < |v| ==> p < v[k])
  {
    hide ChainsOk, SlotAt, Mask, Visited;
    var first := head[SlotAt(w, s)];
    HeadOfChain(w, base, inserted, top, head, prev, SlotAt(w, s));
    assert base + p < base + top && (base + p) - base == p;
    assert p <= first && first != NIL;
    HeadIsLatest(w, base, inserted, top, head, prev, s);
    var inserted', head', prev' := inserted + {base + s}, head[SlotAt(w, s) := s], prev[Mask(s) := first];
    InsertKeepsChains(w, base, s, inserted, inserted', top, head, head', prev, prev');
    VisitedComplete(w, base, inserted', s + 1, head', prev', first, limit, chain, p);
    LookedSound(w, base, s, inserted, top, head, prev, limit, chain);
  }

  /** A search in the window finds what is sought in the data. */
  lemma SearchIsSought(w: seq<Uch>, data: seq<Uch>, base: nat, s: nat, ahead: nat, inserted: set<nat>, top: nat,
                       head: seq<nat>, prev: seq<nat>, c: Config, previous: nat, start: int)
    requires Holds(w, data, base, s, ahead) && ahead >= MIN_MATCH
    requires ChainsOk(w, base, inserted, top, head, prev) && top <= s && c.maxChain >= 4
    ensures |head| == HASH_SIZE && |prev| == WSIZE
    ensures var chain := if previous >= c.goodLength then c.maxChain / 4 else c.maxChain;
            var limit := if s > MAX_DIST then s - MAX_DIST else NIL;
            var r := Search(w, s, Looked(w, s, head, prev, limit, chain), c.niceLength, Found(previous, start));
            Sought(data, c, inserted, base, base + s, previous, Found(Min(r.length, ahead), base + r.start))
  {
    hide ChainsOk, SlotAt, Mask, Visited, Search, Candidates, Best;
    var chain := if previous >= c.goodLength then c.maxChain / 4 else c.maxChain;
    var limit := if s > MAX_DIST then s - MAX_DIST else NIL;
    LookedAreCandidates(w, data, base, s, ahead, inserted, top, head, prev, chain);
    LookedSound(w, base, s, inserted, top, head, prev, limit, chain);
    var v := Looked(w, s, head, prev, limit, chain);
    FoundIsBest(w, data, base, s, ahead, v, c.niceLength, Found(previous, start));
  }
}
