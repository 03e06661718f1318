/** The hash chains of `deflate.c` as values: `head`, the masked array `prev`
    and the window bytes they index.

    `inserted` is the set of absolute input positions ever given to
    INSERT_STRING; `base` is the absolute position of window[0].  The invariant
    is exact: every link names the latest earlier inserted position of the same
    bucket that is still inside the window, and NIL only when there is none. */
module HashChains {
  import opened Lz77
  import opened HashKey

  const NIL := 0

  /** p & WMASK */
  function Mask(p: nat): (r: nat)
    ensures r < WSIZE
  {
    p % WSIZE
  }

  /** Fewer than WSIZE positions apart, two positions have different slots in `prev`. */
  lemma MaskDistinct(p: nat, q: nat)
    requires p < q < p + WSIZE
    ensures Mask(p) != Mask(q)
  {
  }

  lemma MaskSlides(p: nat)
    requires WSIZE <= p
    ensures Mask(p - WSIZE) == Mask(p)
  {
  }

  /** The bucket of the three byte string at window position p. */
  function SlotAt(w: seq<Uch>, p: int): (r: nat)
    requires 0 <= p && p + 2 < |w|
    ensures r < HASH_SIZE
  {
    Slot3(w[p], w[p + 1], w[p + 2])
  }

  /** `m` is the latest inserted window position before `below` in bucket
      `slot`, or NIL when no position after 0 qualifies. */
  ghost predicate Latest(w: seq<Uch>, base: nat, inserted: set<nat>, slot: nat, below: int, m: int)
    requires below + 2 <= |w|
  {
    && 0 <= m
    && (m != NIL ==> m < below && base + m in inserted && SlotAt(w, m) == slot)
    && forall a :: a in inserted && base + m < a < base + below ==> SlotAt(w, a - base) != slot
  }

  ghost predicate InBucket(w: seq<Uch>, base: nat, inserted: set<nat>, slot: nat, p: nat) {
    base + p in inserted && p + 2 < |w| && SlotAt(w, p) == slot
  }

  /** Every head, and every link of a position less than WSIZE back, is exact. */
  ghost predicate ChainsOk(w: seq<Uch>, base: nat, inserted: set<nat>, top: nat, head: seq<nat>, prev: seq<nat>) {
    && |head| == HASH_SIZE && |prev| == WSIZE && top + 2 <= |w|
    && (forall a :: a in inserted ==> a < base + top)
    && (forall s :: 0 <= s < HASH_SIZE ==> Latest(w, base, inserted, s, top, head[s]))
    && (forall a :: a in inserted && base <= a && base + top - WSIZE <= a ==> LinkOk(w, base, inserted, a, prev))
  }

  ghost predicate LinkOk(w: seq<Uch>, base: nat, inserted: set<nat>, a: int, prev: seq<nat>)
    requires |prev| == WSIZE && 0 <= a - base && a - base + 2 < |w|
  {
    Latest(w, base, inserted, SlotAt(w, a - base), a - base, prev[Mask(a - base)])
  }

  /** A fresh table, whatever `prev` holds: it is initialized on the fly. */
  lemma EmptyChains(w: seq<Uch>, head: seq<nat>, prev: seq<nat>)
    requires |w| >= 2 && |head| == HASH_SIZE && |prev| == WSIZE
    requires forall s :: 0 <= s < HASH_SIZE ==> head[s] == NIL
    ensures ChainsOk(w, 0, {}, 0, head, prev)
  {
  }

  lemma LatestInsert(w: seq<Uch>, base: nat, inserted: set<nat>, slot: nat, below: int, m: int, a: nat, below': int)
    requires below + 2 <= |w| && below' + 2 <= |w|
    requires Latest(w, base, inserted, slot, below, m)
    requires below <= below' && forall b :: b in inserted ==> b < base + below || base + below' <= b
    requires a < base + below' ==> 0 <= a - base && SlotAt(w, a - base) != slot
    ensures Latest(w, base, inserted + {a}, slot, below', m)
  {
  }

  /** What INSERT_STRING(s) does to the tables. */
  ghost predicate Inserted(w: seq<Uch>, base: nat, s: nat, inserted: set<nat>, inserted': set<nat>,
                           head: seq<nat>, head': seq<nat>, prev: seq<nat>, prev': seq<nat>)
    requires |head| == HASH_SIZE && |prev| == WSIZE && s + 2 < |w|
  {
    && inserted' == inserted + {base + s}
    && head' == head[SlotAt(w, s) := s]
    && prev' == prev[Mask(s) := head[SlotAt(w, s)]]
  }

  lemma InsertKeepsHeads(w: seq<Uch>, base: nat, s: nat, inserted: set<nat>, inserted': set<nat>, top: nat,
                         head: seq<nat>, head': seq<nat>, prev: seq<nat>, prev': seq<nat>)
    requires ChainsOk(w, base, inserted, top, head, prev)
    requires top <= s && s + 3 <= |w|
    requires Inserted(w, base, s, inserted, inserted', head, head', prev, prev')
    ensures forall t :: 0 <= t < HASH_SIZE ==> Latest(w, base, inserted', t, s + 1, head'[t])
  {
    hide SlotAt;
    forall t | 0 <= t < HASH_SIZE
      ensures Latest(w, base, inserted', t, s + 1, head'[t])
    {
      if t != SlotAt(w, s) {
        LatestInsert(w, base, inserted, t, top, head[t], base + s, s + 1);
      }
    }
  }

  lemma LinkOfChain(w: seq<Uch>, base: nat, inserted: set<nat>, top: nat, head: seq<nat>, prev: seq<nat>, a: nat)
    requires ChainsOk(w, base, inserted, top, head, prev)
    requires a in inserted && base <= a && base + top - WSIZE <= a
    ensures |prev| == WSIZE && a < base + top && top + 2 <= |w| && LinkOk(w, base, inserted, a, prev)
  {
  }

  lemma HeadOfChain(w: seq<Uch>, base: nat, inserted: set<nat>, top: nat, head: seq<nat>, prev: seq<nat>, s: nat)
    requires ChainsOk(w, base, inserted, top, head, prev) && s < HASH_SIZE
    ensures |head| == HASH_SIZE && top + 2 <= |w| && Latest(w, base, inserted, s, top, head[s])
    ensures forall a :: a in inserted ==> a < base + top
  {
  }

  lemma InsertKeepsLinks(w: seq<Uch>, base: nat, s: nat, inserted: set<nat>, inserted': set<nat>, top: nat,
                         head: seq<nat>, head': seq<nat>, prev: seq<nat>, prev': seq<nat>, a: nat)
    requires |head| == HASH_SIZE && |prev| == WSIZE && ChainsOk(w, base, inserted, top, head, prev)
    requires top <= s && s + 3 <= |w|
    requires Inserted(w, base, s, inserted, inserted', head, head', prev, prev')
    requires a in inserted' && base <= a && base + (s + 1) - WSIZE <= a
    ensures a <= base + s
    ensures LinkOk(w, base, inserted', a, prev')
  {
    hide SlotAt, Mask, ChainsOk;
    var slot := SlotAt(w, s);
    HeadOfChain(w, base, inserted, top, head, prev, slot);
    if a == base + s {
      LatestInsert(w, base, inserted, slot, top, head[slot], base + s, s);
    } else {
      LinkOfChain(w, base, inserted, top, head, prev, a);
      MaskDistinct(a - base, s);
      LatestInsert(w, base, inserted, SlotAt(w, a - base), a - base, prev[Mask(a - base)], base + s, a - base);
    }
  }

  /** INSERT_STRING(s) keeps the chains exact, also when positions between the
      last insertion and s were skipped. */
  lemma InsertKeepsChains(w: seq<Uch>, base: nat, s: nat, inserted: set<nat>, inserted': set<nat>, top: nat,
                          head: seq<nat>, head': seq<nat>, prev: seq<nat>, prev': seq<nat>)
    requires ChainsOk(w, base, inserted, top, head, prev)
    requires top <= s && s + 3 <= |w|
    requires Inserted(w, base, s, inserted, inserted', head, head', prev, prev')
    ensures ChainsOk(w, base, inserted', s + 1, head', prev')
  {
    hide SlotAt, Mask, Latest, LinkOk;
    InsertKeepsHeads(w, base, s, inserted, inserted', top, head, head', prev, prev');
    forall a | a in inserted' && base <= a && base + (s + 1) - WSIZE <= a
      ensures a <= base + s && LinkOk(w, base, inserted', a, prev')
    {
      InsertKeepsLinks(w, base, s, inserted, inserted', top, head, head', prev, prev', a);
    }
  }

  lemma KeyGivesSlot(w: seq<Uch>, s: nat)
    requires s + 2 < |w|
    ensures Slot(Hash3(w[s], w[s + 1], w[s + 2])) == SlotAt(w, s)
  {
  }

  /** The head found by INSERT_STRING(s) is the latest position of the bucket
      before s, so position s is never compared with itself. */
  lemma HeadIsLatest(w: seq<Uch>, base: nat, inserted: set<nat>, top: nat, head: seq<nat>, prev: seq<nat>, s: nat)
    requires ChainsOk(w, base, inserted, top, head, prev) && top <= s && s + 2 < |w|
    ensures |head| == HASH_SIZE
    ensures head[SlotAt(w, s)] != NIL ==>
              head[SlotAt(w, s)] < top && InBucket(w, base, inserted, SlotAt(w, s), head[SlotAt(w, s)])
  {
    hide SlotAt;
    assert Latest(w, base, inserted, SlotAt(w, s), top, head[SlotAt(w, s)]);
  }

  /** The same bytes, moved down by `shift`, hash to the same buckets. */
  lemma LatestMoved(w: seq<Uch>, w': seq<Uch>, base: nat, base': nat, inserted: set<nat>, slot: nat,
                    below: int, m: int, m': int)
    requires base <= base' && below + 2 <= |w| && below - (base' - base) + 2 <= |w'|
    requires Latest(w, base, inserted, slot, below, m)
    requires forall p {:trigger w'[p]} :: 0 <= p < below - (base' - base) + 2 ==> w'[p] == w[p + (base' - base)]
    requires m' == (if m > base' - base then m - (base' - base) else NIL)
    ensures Latest(w', base', inserted, slot, below - (base' - base), m')
  {
    hide Slot3;
    var d := base' - base;
    forall a | a in inserted && base' + m' < a < base' + (below - d)
      ensures SlotAt(w', a - base') != slot
    {
      assert SlotAt(w', a - base') == SlotAt(w, a - base);
    }
    if m' != NIL {
      assert SlotAt(w', m') == SlotAt(w, m);
    }
  }

  /** What the two loops of fill_window do to a table entry. */
  function Slid(m: nat): nat {
    if m >= WSIZE then m - WSIZE else NIL
  }

  /** Moving the upper half of the window down keeps the chains exact: entries
      for positions that left the window become NIL. */
  lemma SlideKeepsChains(w: seq<Uch>, w': seq<Uch>, base: nat, inserted: set<nat>, top: nat,
                         head: seq<nat>, prev: seq<nat>, head': seq<nat>, prev': seq<nat>)
    requires ChainsOk(w, base, inserted, top, head, prev)
    requires WSIZE <= top <= 2 * WSIZE - 2 && |w'| == |w| && |w| >= 2 * WSIZE
    requires forall p {:trigger w'[p]} :: 0 <= p < WSIZE ==> w'[p] == w[p + WSIZE]
    requires |head'| == HASH_SIZE && forall s :: 0 <= s < HASH_SIZE ==> head'[s] == Slid(head[s])
    requires |prev'| == WSIZE && forall s :: 0 <= s < WSIZE ==> prev'[s] == Slid(prev[s])
    ensures ChainsOk(w', base + WSIZE, inserted, top - WSIZE, head', prev')
  {
    hide SlotAt, Mask;
    forall s | 0 <= s < HASH_SIZE
      ensures Latest(w', base + WSIZE, inserted, s, top - WSIZE, head'[s])
    {
      LatestMoved(w, w', base, base + WSIZE, inserted, s, top, head[s], head'[s]);
    }
    forall a | a in inserted && base + WSIZE <= a && base + WSIZE + (top - WSIZE) - WSIZE <= a
      ensures LinkOk(w', base + WSIZE, inserted, a, prev')
    {
      var p := a - base;
      assert LinkOk(w, base, inserted, a, prev);
      MaskSlides(p);
      SlotMoved(w, w', p);
      LatestMoved(w, w', base, base + WSIZE, inserted, SlotAt(w, p), p, prev[Mask(p)], prev'[Mask(p)]);
    }
  }

  lemma SlotMoved(w: seq<Uch>, w': seq<Uch>, p: int)
    requires WSIZE <= p && p + 2 < 2 * WSIZE <= |w| && |w'| == |w|
    requires forall q {:trigger w'[q]} :: 0 <= q < WSIZE ==> w'[q] == w[q + WSIZE]
    ensures SlotAt(w', p - WSIZE) == SlotAt(w, p)
  {
  }

  /** Reading new bytes behind the inserted strings does not disturb the chains. */
  lemma ReadKeepsChains(w: seq<Uch>, w': seq<Uch>, base: nat, inserted: set<nat>, top: nat, head: seq<nat>, prev: seq<nat>)
    requires ChainsOk(w, base, inserted, top, head, prev)
    requires |w'| == |w|
    requires inserted == {} || forall p {:trigger w'[p]} :: 0 <= p < top + 2 ==> w'[p] == w[p]
    ensures ChainsOk(w', base, inserted, top, head, prev)
  {
    hide SlotAt;
    forall s | 0 <= s < HASH_SIZE
      ensures Latest(w', base, inserted, s, top, head[s])
    {
      if inserted != {} {
        LatestMoved(w, w', base, base, inserted, s, top, head[s], head[s]);
      }
    }
    forall a | a in inserted && base <= a && base + top - WSIZE <= a
      ensures LinkOk(w', base, inserted, a, prev)
    {
      var p := a - base;
      assert LinkOk(w, base, inserted, a, prev);
      SlotSame(w, w', p);
      LatestMoved(w, w', base, base, inserted, SlotAt(w, p), p, prev[Mask(p)], prev[Mask(p)]);
    }
  }

  lemma SlotSame(w: seq<Uch>, w': seq<Uch>, p: int)
    requires 0 <= p && p + 2 < |w| == |w'|
    requires forall q {:trigger w'[q]} :: 0 <= q < p + 3 ==> w'[q] == w[q]
    ensures SlotAt(w', p) == SlotAt(w, p)
  {
  }

  /** The positions a search looks at: from `cur` along `prev`, as long as the
      link stays above `limit` and at most `chain` of them. */
  function Visited(prev: seq<nat>, cur: nat, limit: nat, chain: nat): (v: seq<nat>)
    requires |prev| == WSIZE && chain >= 1
    ensures 1 <= |v| <= chain && v[0] == cur
    decreases chain
  {
    var next := prev[Mask(cur)];
    if next > limit && chain > 1 then [cur] + Visited(prev, next, limit, chain - 1) else [cur]
  }

  /** `v` goes strictly down through inserted positions of one bucket, all
      between the limit and `bound`. */
  ghost predicate DownChain(w: seq<Uch>, base: nat, inserted: set<nat>, slot: nat, bound: int, limit: int, v: seq<nat>) {
    && (forall k :: 0 <= k < |v| ==> InBucket(w, base, inserted, slot, v[k]) && limit < v[k] < bound)
    && (forall j, k :: 0 <= j < k < |v| ==> v[j] > v[k])
  }

  lemma DownChainCons(w: seq<Uch>, base: nat, inserted: set<nat>, slot: nat, bound: int, limit: int, p: nat, v: seq<nat>)
    requires DownChain(w, base, inserted, slot, p, limit, v)
    requires InBucket(w, base, inserted, slot, p) && limit < p < bound
    ensures DownChain(w, base, inserted, slot, bound, limit, [p] + v)
  {
  }

  /** A search that starts at an inserted position of a bucket sees inserted
      positions of that bucket only, strictly decreasing and, after the first,
      all above the limit: no stale or foreign entry is ever looked at. */
  lemma {:induction false} VisitedSound(w: seq<Uch>, base: nat, inserted: set<nat>, top: nat,
                                        head: seq<nat>, prev: seq<nat>, cur: nat, limit: nat, chain: nat)
    requires ChainsOk(w, base, inserted, top, head, prev)
    requires chain >= 1 && base + cur in inserted && top - WSIZE <= cur && top - WSIZE <= limit
    ensures InBucket(w, base, inserted, SlotAt(w, cur), cur)
    ensures DownChain(w, base, inserted, SlotAt(w, cur), cur, limit, Visited(prev, cur, limit, chain)[1..])
    decreases chain
  {
    hide SlotAt, Mask;
    var next := prev[Mask(cur)];
    assert LinkOk(w, base, inserted, base + cur, prev);
    if next > limit && chain > 1 {
      var v := Visited(prev, next, limit, chain - 1);
      assert Visited(prev, cur, limit, chain)[1..] == v == [next] + v[1..];
      VisitedSound(w, base, inserted, top, head, prev, next, limit, chain - 1);
      DownChainCons(w, base, inserted, SlotAt(w, cur), cur, limit, next, v[1..]);
    }
  }

  lemma VisitedStep(prev: seq<nat>, cur: nat, limit: nat, chain: nat)
    requires |prev| == WSIZE && chain >= 1 && limit < prev[Mask(cur)]
    ensures Visited(prev, cur, limit, chain) ==
              [cur] + if chain > 1 then Visited(prev, prev[Mask(cur)], limit, chain - 1) else []
  {
  }

  /** A link leads to the latest earlier position of the bucket. */
  lemma LinkSkipsNone(w: seq<Uch>, base: nat, inserted: set<nat>, top: nat, head: seq<nat>, prev: seq<nat>, cur: nat, p: nat)
    requires ChainsOk(w, base, inserted, top, head, prev)
    requires base + cur in inserted && top - WSIZE <= cur
    requires InBucket(w, base, inserted, SlotAt(w, cur), p) && 0 < p < cur
    ensures InBucket(w, base, inserted, SlotAt(w, cur), prev[Mask(cur)]) && p <= prev[Mask(cur)] < cur
  {
    hide SlotAt, Mask;
    assert LinkOk(w, base, inserted, base + cur, prev);
    assert (base + p) - base == p;
  }

  /** A search looks at every inserted position of the bucket above the limit, unless
      it has looked at as many as it may, all of them later. */
  lemma {:induction false} VisitedComplete(w: seq<Uch>, base: nat, inserted: set<nat>, top: nat,
                                           head: seq<nat>, prev: seq<nat>, cur: nat, limit: nat, chain: nat, p: nat)
    requires |prev| == WSIZE && ChainsOk(w, base, inserted, top, head, prev)
    requires chain >= 1 && base + cur in inserted && top - WSIZE <= cur && top - WSIZE <= limit
    requires InBucket(w, base, inserted, SlotAt(w, cur), p) && limit < p <= cur
    ensures var v := Visited(prev, cur, limit, chain);
            p in v || (|v| == chain && p < v[|v| - 1])
    decreases chain
  {
    hide ChainsOk, SlotAt, Mask, Visited;
    if p == cur {
      assert Visited(prev, cur, limit, chain)[0] == p;
    } else {
      LinkSkipsNone(w, base, inserted, top, head, prev, cur, p);
      VisitedStep(prev, cur, limit, chain);
      if chain > 1 {
        VisitedComplete(w, base, inserted, top, head, prev, prev[Mask(cur)], limit, chain - 1, p);
      }
    }
  }

  /** The successor on a chain, if any, is an earlier position of the bucket. */
  lemma NextInBucket(w: seq<Uch>, base: nat, inserted: set<nat>, top: nat, head: seq<nat>, prev: seq<nat>, cur: nat)
    requires ChainsOk(w, base, inserted, top, head, prev)
    requires base + cur in inserted && top - WSIZE <= cur
    ensures |prev| == WSIZE && cur < top && cur + 2 < |w|
    ensures prev[Mask(cur)] != NIL ==>
              prev[Mask(cur)] < cur && InBucket(w, base, inserted, SlotAt(w, cur), prev[Mask(cur)])
  {
    hide SlotAt, Mask;
    assert LinkOk(w, base, inserted, base + cur, prev);
  }
}
