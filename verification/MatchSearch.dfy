/** What a search along a hash chain is for: a naive reference search that
    compares every byte of every candidate, and what its result means. */
module MatchSearch {
  import opened Lz77
  import opened HashKey
  import opened HashChains

  /** The strings at `s` and `m` have the same byte at offset `i`. */
  ghost predicate SameByte(w: seq<Uch>, s: nat, m: nat, i: int) {
    0 <= i && s + i < |w| && m + i < |w| && w[m + i] == w[s + i]
  }

  /** The strings at `s` and `m` agree on their first `length` bytes. */
  ghost predicate Agree(w: seq<Uch>, s: nat, m: nat, length: nat)
  {
    forall i :: 0 <= i < length ==> SameByte(w, s, m, i)
  }

  /** How many leading bytes agree, at most MAX_MATCH; `k` are known to. */
  ghost function MatchFrom(w: seq<Uch>, s: nat, m: nat, k: nat): (r: nat)
    requires k <= MAX_MATCH
    ensures k <= r <= MAX_MATCH
    decreases MAX_MATCH - k
  {
    if k < MAX_MATCH && SameByte(w, s, m, k) then MatchFrom(w, s, m, k + 1) else k
  }

  ghost function MatchLength(w: seq<Uch>, s: nat, m: nat): (r: nat)
    ensures r <= MAX_MATCH
  {
    MatchFrom(w, s, m, 0)
  }

  lemma {:induction false} MatchFromIs(w: seq<Uch>, s: nat, m: nat, k: nat, length: nat)
    requires k <= length <= MAX_MATCH
    requires forall i :: k <= i < length ==> SameByte(w, s, m, i)
    requires length < MAX_MATCH ==> !SameByte(w, s, m, length)
    ensures MatchFrom(w, s, m, k) == length
    decreases MAX_MATCH - k
  {
    if k < length {
      assert SameByte(w, s, m, k);
      MatchFromIs(w, s, m, k + 1, length);
    }
  }

  /** The match length is the length of the longest agreement. */
  lemma MatchLengthIs(w: seq<Uch>, s: nat, m: nat, length: nat)
    requires length <= MAX_MATCH
    requires Agree(w, s, m, length)
    requires length < MAX_MATCH ==> !SameByte(w, s, m, length)
    ensures MatchLength(w, s, m) == length
  {
    MatchFromIs(w, s, m, 0, length);
  }

  lemma {:induction false} MatchFromAgrees(w: seq<Uch>, s: nat, m: nat, k: nat)
    requires k <= MAX_MATCH
    requires Agree(w, s, m, k)
    ensures Agree(w, s, m, MatchFrom(w, s, m, k))
    ensures MatchFrom(w, s, m, k) < MAX_MATCH ==>
              !SameByte(w, s, m, MatchFrom(w, s, m, k))
    decreases MAX_MATCH - k
  {
    if k < MAX_MATCH && SameByte(w, s, m, k) {
      MatchFromAgrees(w, s, m, k + 1);
    }
  }

  lemma MatchLengthAgrees(w: seq<Uch>, s: nat, m: nat, length: nat)
    requires length <= MAX_MATCH
    ensures Agree(w, s, m, length) <==> length <= MatchLength(w, s, m)
  {
    MatchFromAgrees(w, s, m, 0);
    var r := MatchLength(w, s, m);
    if r < length {
      assert !SameByte(w, s, m, r);
    }
  }

  /** A result so far: the best length, and where that match starts. */
  datatype Found = Found(length: nat, start: int)

  /** Look at the candidates in order, keep the first longest, and stop at one
      that improves on the best so far and is at least `nice` long. */
  ghost function Search(w: seq<Uch>, s: nat, v: seq<nat>, nice: nat, best: Found): Found
  {
    if v == [] then best
    else
      var length := MatchLength(w, s, v[0]);
      if length <= best.length then Search(w, s, v[1..], nice, best)
      else if length >= nice then Found(length, v[0])
      else Search(w, s, v[1..], nice, Found(length, v[0]))
  }

  /** The search never worsens, only changes for a candidate that agrees on the
      whole new length, and unless it stopped at a nice match no candidate at
      all agrees on more bytes than the result. */
  lemma {:induction false} SearchIsMaximum(w: seq<Uch>, s: nat, v: seq<nat>, nice: nat, best: Found)
    ensures var r := Search(w, s, v, nice, best);
            && r.length >= best.length
            && (r.length == best.length ==> r == best)
            && (r.length > best.length ==>
                  exists k :: 0 <= k < |v| && r.start == v[k] && r.length == MatchLength(w, s, v[k]))
            && (r == best || r.length < nice ==>
                  forall k :: 0 <= k < |v| ==> MatchLength(w, s, v[k]) <= r.length)
    decreases |v|
  {
    if v != [] {
      hide MatchLength;
      var length := MatchLength(w, s, v[0]);
      var r := Search(w, s, v, nice, best);
      if length <= best.length {
        SearchIsMaximum(w, s, v[1..], nice, best);
        assert r == Search(w, s, v[1..], nice, best);
      } else if length < nice {
        SearchIsMaximum(w, s, v[1..], nice, Found(length, v[0]));
        assert r == Search(w, s, v[1..], nice, Found(length, v[0]));
      } else {
        assert r == Found(length, v[0]);
      }
      assert forall k :: 1 <= k < |v| ==> v[k] == v[1..][k - 1];
    }
  }

  /** One turn of the search loop, on the candidates still to be visited. */
  lemma SearchStep(w: seq<Uch>, s: nat, prev: seq<nat>, cur: nat, limit: nat, chain: nat, nice: nat, best: Found)
    requires |prev| == WSIZE && chain >= 1
    ensures var length := MatchLength(w, s, cur);
            var best' := if length > best.length then Found(length, cur) else best;
            var next := prev[Mask(cur)];
            var r := Search(w, s, Visited(prev, cur, limit, chain), nice, best);
            if best' != best && length >= nice then r == best'
            else if next > limit && chain > 1 then
              r == Search(w, s, Visited(prev, next, limit, chain - 1), nice, best')
            else r == best'
  {
    hide MatchLength, Mask;
    var next := prev[Mask(cur)];
    var v := Visited(prev, cur, limit, chain);
    assert v[0] == cur;
    if next > limit && chain > 1 {
      var v' := Visited(prev, next, limit, chain - 1);
      assert v == [cur] + v' && v[1..] == v';
    } else {
      assert v[1..] == [];
    }
  }

  /** Equal keys and two equal bytes make three. */
  lemma ThirdByteSame(w: seq<Uch>, s: nat, m: nat)
    requires s + 2 < |w| && m + 2 < |w| && SlotAt(w, m) == SlotAt(w, s)
    requires w[m] == w[s] && w[m + 1] == w[s + 1]
    ensures forall i :: 0 <= i < 3 ==> SameByte(w, s, m, i)
  {
    ThirdByteFollows(w[s], w[s + 1], w[m + 2], w[s + 2]);
  }

  /** A candidate that differs at the last byte of the best match, at the byte
      after it or at one of the first two bytes cannot be longer. */
  lemma RejectIsSafe(w: seq<Uch>, s: nat, m: nat, best: nat)
    requires s + MAX_MATCH <= |w| && m + MAX_MATCH <= |w| && 2 <= best < MAX_MATCH
    requires !(w[m + best] == w[s + best] && w[m + best - 1] == w[s + best - 1] && w[m] == w[s] && w[m + 1] == w[s + 1])
    ensures MatchLength(w, s, m) <= best
  {
    hide MatchLength;
    MatchLengthAgrees(w, s, m, best + 1);
    assert Agree(w, s, m, best + 1) ==>
             SameByte(w, s, m, best) && SameByte(w, s, m, best - 1) && SameByte(w, s, m, 0) && SameByte(w, s, m, 1);
  }
}
