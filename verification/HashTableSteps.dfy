/** What linking, unlinking and moving one entry does to the chains of a table. */
module HashTableSteps {
  import opened Bitwise
  import opened Wrappers
  import opened HashTableSpec

  /** Other chains do not hold an entry that is not in memory. */
  lemma FreshKeepsLinks(mem: Memory, e: Ptr, entry: Entry, p: Option<Ptr>, c: seq<Ptr>, b: nat, size: nat, dict: map<string, Ptr>)
    requires Linked(mem, p, c) && ChainOk(mem, c, b, size, dict) && e !in mem
    ensures Linked(mem[e := entry], p, c)
  {
    hide Linked;
    assert forall i :: 0 <= i < |c| ==> EntryOk(mem, c[i], b, size, dict);
    LinkedFrame(mem, mem[e := entry], p, c);
  }

  lemma FreshKeepsChain(mem: Memory, e: Ptr, entry: Entry, c: seq<Ptr>, b: nat, size: nat, dict: map<string, Ptr>)
    requires ChainOk(mem, c, b, size, dict) && e !in mem && entry.name !in dict
    ensures e !in c && ChainOk(mem[e := entry], c, b, size, dict[entry.name := e])
  {
    hide Bucket, Hash;
    forall i | 0 <= i < |c|
      ensures EntryOk(mem[e := entry], c[i], b, size, dict[entry.name := e])
    {
      assert EntryOk(mem, c[i], b, size, dict);
    }
  }

  lemma FreshKeepsComplete(mem: Memory, chains: seq<seq<Ptr>>, size: nat, dict: map<string, Ptr>, e: Ptr, entry: Entry)
    requires Complete(mem, chains, size, dict) && e !in mem && entry.name !in dict
    requires Bucket(entry.name, size) < |chains|
    ensures var b := Bucket(entry.name, size);
            Complete(mem[e := entry], chains[b := [e] + chains[b]], size, dict[entry.name := e])
  {
    hide Bucket, Hash;
  }

  /** A new entry at the head of its bucket. */
  lemma InsertRepresents(mem: Memory, buckets: seq<Option<Ptr>>, chains: seq<seq<Ptr>>, dict: map<string, Ptr>,
                         e: Ptr, entry: Entry, b: nat)
    requires Represents(mem, buckets, chains, dict) && e !in mem && entry.name !in dict
    requires b == Bucket(entry.name, |buckets|) < |buckets|
    requires entry.namehash == Hash(entry.name) && entry.next == buckets[b]
    ensures Represents(mem[e := entry], buckets[b := Some(e)], chains[b := [e] + chains[b]], dict[entry.name := e])
  {
    hide Linked, Bucket, Hash, PowerOfTwo, Complete, ChainOk;
    var m, d := mem[e := entry], dict[entry.name := e];
    forall j | 0 <= j < |chains|
      ensures Linked(m, buckets[j], chains[j]) && ChainOk(m, chains[j], j, |chains|, d) && e !in chains[j]
    {
      FreshKeepsLinks(mem, e, entry, buckets[j], chains[j], j, |chains|, dict);
      FreshKeepsChain(mem, e, entry, chains[j], j, |chains|, dict);
    }
    ConsChain(m, chains[b], b, |chains|, d, e);
    ConsLinked(m, buckets[b], chains[b], e);
    FreshKeepsComplete(mem, chains, |chains|, dict, e, entry);
  }

  lemma ConsLinked(m: Memory, p: Option<Ptr>, c: seq<Ptr>, e: Ptr)
    requires e in m && m[e].next == p && Linked(m, p, c)
    ensures Linked(m, Some(e), [e] + c)
  {
    assert ([e] + c)[1..] == c;
  }

  lemma ConsChain(m: Memory, c: seq<Ptr>, b: nat, size: nat, dict: map<string, Ptr>, e: Ptr)
    requires ChainOk(m, c, b, size, dict) && EntryOk(m, e, b, size, dict) && e !in c
    ensures ChainOk(m, [e] + c, b, size, dict)
  {
    hide EntryOk;
  }

  /** The entries left in memory `n` are as in `m` but for their links. */
  ghost predicate SameEntries(m: Memory, n: Memory) {
    forall p :: p in n ==> p in m && n[p].(next := None) == m[p].(next := None)
  }

  /** A chain stays in order while its entries and their names do. */
  lemma ChainSurvives(m: Memory, n: Memory, c: seq<Ptr>, b: nat, size: nat, dict: map<string, Ptr>, left: map<string, Ptr>)
    requires ChainOk(m, c, b, size, dict) && SameEntries(m, n)
    requires forall i :: 0 <= i < |c| ==> c[i] in n && (c[i] in m ==> m[c[i]].name in left)
    requires left.Keys <= dict.Keys && forall name :: name in left ==> left[name] == dict[name]
    ensures ChainOk(n, c, b, size, left)
  {
    hide Bucket, Hash;
    forall i | 0 <= i < |c|
      ensures EntryOk(n, c[i], b, size, left)
    {
      assert EntryOk(m, c[i], b, size, dict);
    }
  }

  function Without(c: seq<Ptr>, k: nat): (r: seq<Ptr>)
    requires k < |c|
    ensures |r| == |c| - 1 && forall i :: 0 <= i < |r| ==> r[i] == c[if i < k then i else i + 1]
  {
    c[..k] + c[k + 1..]
  }

  lemma UnlinkSecond(m: Memory, n: Memory, p: Option<Ptr>, c: seq<Ptr>)
    requires Linked(m, p, c) && NoDuplicates(c) && 1 < |c| && forall i :: 0 <= i < |c| ==> c[i] in m
    requires n == m[c[0] := m[c[0]].(next := m[c[1]].next)]
    ensures Linked(n, p, Without(c, 1))
  {
    var r := c[1..][1..];
    assert forall i :: 0 <= i < |r| ==> r[i] == c[i + 2];
    assert Linked(m, m[c[1]].next, r);
    LinkedFrame(m, n, m[c[1]].next, r);
    assert Without(c, 1)[1..] == r;
  }

  /** Taking the entry behind c[k - 1] out of the links. */
  lemma {:induction false} Unlink(m: Memory, n: Memory, p: Option<Ptr>, c: seq<Ptr>, k: nat)
    requires Linked(m, p, c) && NoDuplicates(c) && 0 < k < |c| && forall i :: 0 <= i < |c| ==> c[i] in m
    requires n == m[c[k - 1] := m[c[k - 1]].(next := m[c[k]].next)]
    ensures Linked(n, p, Without(c, k))
    decreases |c|
  {
    var d := c[1..];
    assert forall i :: 0 <= i < |d| ==> d[i] == c[i + 1];
    if k == 1 {
      UnlinkSecond(m, n, p, c);
    } else {
      Unlink(m, n, m[c[0]].next, d, k - 1);
      assert Without(c, k)[1..] == Without(d, k - 1);
    }
  }

  /** A chain that does not hold e is not touched when e is freed. */
  lemma FreeKeepsLinks(m: Memory, p: Option<Ptr>, c: seq<Ptr>, e: Ptr)
    requires Linked(m, p, c) && e !in c && forall i :: 0 <= i < |c| ==> c[i] in m
    ensures Linked(m - {e}, p, c)
  {
    hide Linked;
    LinkedFrame(m, m - {e}, p, c);
  }

  lemma WithoutIsClean(c: seq<Ptr>, k: nat)
    requires NoDuplicates(c) && k < |c|
    ensures NoDuplicates(Without(c, k)) && c[k] !in Without(c, k)
    ensures forall e :: e in c && e != c[k] ==> e in Without(c, k)
  {
    forall e | e in c && e != c[k]
      ensures e in Without(c, k)
    {
      var i :| 0 <= i < |c| && c[i] == e;
      assert Without(c, k)[if i < k then i else i - 1] == e;
    }
  }

  /** An entry of one chain is in no other. */
  lemma OtherChain(m: Memory, chains: seq<seq<Ptr>>, dict: map<string, Ptr>, b: nat, j: nat, e: Ptr)
    requires b < |chains| && j < |chains| && b != j
    requires ChainOk(m, chains[b], b, |chains|, dict) && ChainOk(m, chains[j], j, |chains|, dict) && e in chains[b]
    ensures e !in chains[j]
  {
    hide Bucket, Hash;
    assert EntryOk(m, e, b, |chains|, dict);
  }

  /** Memory after the entry at position k has been taken out of its chain and freed. */
  function Unlinked(m: Memory, c: seq<Ptr>, k: nat): Memory
    requires k < |c| && forall i :: 0 <= i < |c| ==> c[i] in m
  {
    if k == 0 then m - {c[k]} else m[c[k - 1] := m[c[k - 1]].(next := m[c[k]].next)] - {c[k]}
  }

  lemma UnlinkedIs(m: Memory, c: seq<Ptr>, k: nat)
    requires k < |c| && forall i :: 0 <= i < |c| ==> c[i] in m
    ensures Unlinked(m, c, k) ==
            (if k == 0 then m - {c[k]} else m[c[k - 1] := m[c[k - 1]].(next := m[c[k]].next)] - {c[k]})
  {
  }

  lemma UnlinkedChain(m: Memory, p: Option<Ptr>, c: seq<Ptr>, k: nat)
    requires Linked(m, p, c) && NoDuplicates(c) && k < |c| && forall i :: 0 <= i < |c| ==> c[i] in m
    ensures Linked(Unlinked(m, c, k), if k == 0 then m[c[k]].next else p, Without(c, k))
  {
    WithoutIsClean(c, k);
    if k == 0 {
      assert Without(c, 0) == c[1..];
      FreeKeepsLinks(m, m[c[0]].next, c[1..], c[0]);
    } else {
      var n := m[c[k - 1] := m[c[k - 1]].(next := m[c[k]].next)];
      Unlink(m, n, p, c, k);
      hide Linked;
      FreeKeepsLinks(n, p, Without(c, k), c[k]);
    }
  }

  lemma UnlinkedElsewhere(m: Memory, p: Option<Ptr>, d: seq<Ptr>, c: seq<Ptr>, k: nat)
    requires k < |c| && (forall i :: 0 <= i < |c| ==> c[i] in m) && (forall i :: 0 <= i < |c| ==> c[i] !in d)
    requires Linked(m, p, d) && forall i :: 0 <= i < |d| ==> d[i] in m
    ensures Linked(Unlinked(m, c, k), p, d)
  {
    hide Linked;
    LinkedFrame(m, Unlinked(m, c, k), p, d);
  }

  /** Deleting the entry at position k of bucket b. */
  lemma RemoveRepresents(m: Memory, buckets: seq<Option<Ptr>>, chains: seq<seq<Ptr>>, dict: map<string, Ptr>, b: nat, k: nat)
    requires Represents(m, buckets, chains, dict) && b < |chains| && k < |chains[b]|
    requires forall i :: 0 <= i < |chains[b]| ==> chains[b][i] in m
    ensures var c := chains[b];
            var first := if k == 0 then m[c[k]].next else buckets[b];
            Represents(Unlinked(m, c, k), buckets[b := first], chains[b := Without(c, k)], dict - {m[c[k]].name})
  {
    hide Linked, Bucket, Hash, PowerOfTwo, Complete, ChainOk, EntryOk, Without, Unlinked;
    var c, size := chains[b], |chains|;
    var n, left := Unlinked(m, c, k), dict - {m[c[k]].name};
    var first := if k == 0 then m[c[k]].next else buckets[b];
    ChainParts(m, c, b, size, dict);
    UnlinkedChain(m, buckets[b], c, k);
    UnlinkedEntries(m, c, k);
    RemainingChain(m, n, c, k, b, size, dict);
    forall j | 0 <= j < size && j != b
      ensures Linked(n, buckets[j], chains[j]) && ChainOk(n, chains[j], j, size, left)
    {
      forall i | 0 <= i < |c|
        ensures c[i] !in chains[j]
      {
        OtherChain(m, chains, dict, b, j, c[i]);
      }
      ChainParts(m, chains[j], j, size, dict);
      UnlinkedElsewhere(m, buckets[j], chains[j], c, k);
      OtherNames(m, n, chains[j], j, size, dict, c[k], b);
    }
    RemainingComplete(m, n, chains, dict, b, k);
  }

  lemma ChainParts(m: Memory, c: seq<Ptr>, b: nat, size: nat, dict: map<string, Ptr>)
    requires ChainOk(m, c, b, size, dict)
    ensures NoDuplicates(c) && (forall i :: 0 <= i < |c| ==> c[i] in m) && forall e :: e in c ==> EntryOk(m, e, b, size, dict)
  {
    hide EntryOk;
    forall e | e in c
      ensures EntryOk(m, e, b, size, dict)
    {
      var i :| 0 <= i < |c| && c[i] == e;
    }
    forall i | 0 <= i < |c|
      ensures c[i] in m
    {
      EntryIn(m, c[i], b, size, dict);
    }
  }

  lemma EntryIn(m: Memory, e: Ptr, b: nat, size: nat, dict: map<string, Ptr>)
    requires size > 0
    ensures EntryOk(m, e, b, size, dict) ==> e in m && m[e].name in dict && dict[m[e].name] == e
  {
  }

  lemma UnlinkedEntries(m: Memory, c: seq<Ptr>, k: nat)
    requires k < |c| && forall i :: 0 <= i < |c| ==> c[i] in m
    ensures SameEntries(m, Unlinked(m, c, k)) && Unlinked(m, c, k).Keys == m.Keys - {c[k]}
  {
  }

  lemma RemainingChain(m: Memory, n: Memory, c: seq<Ptr>, k: nat, b: nat, size: nat, dict: map<string, Ptr>)
    requires ChainOk(m, c, b, size, dict) && SameEntries(m, n) && k < |c| && c[k] in m && n.Keys == m.Keys - {c[k]}
    ensures ChainOk(n, Without(c, k), b, size, dict - {m[c[k]].name})
  {
    hide EntryOk, Without;
    WithoutIsClean(c, k);
    ChainParts(m, c, b, size, dict);
    var r := Without(c, k);
    forall i | 0 <= i < |r|
      ensures EntryOk(m, r[i], b, size, dict) && r[i] in n && m[r[i]].name in dict - {m[c[k]].name}
    {
      var e := c[if i < k then i else i + 1];
      EntryIn(m, e, b, size, dict);
      EntryIn(m, c[k], b, size, dict);
    }
    ChainSurvives(m, n, r, b, size, dict, dict - {m[c[k]].name});
  }

  lemma OtherNames(m: Memory, n: Memory, d: seq<Ptr>, j: nat, size: nat, dict: map<string, Ptr>, e: Ptr, b: nat)
    requires ChainOk(m, d, j, size, dict) && EntryOk(m, e, b, size, dict) && e in m && e !in d
    requires SameEntries(m, n) && n.Keys == m.Keys - {e}
    ensures ChainOk(n, d, j, size, dict - {m[e].name})
  {
    hide EntryOk;
    ChainParts(m, d, j, size, dict);
    forall i | 0 <= i < |d|
      ensures d[i] in m && d[i] != e && m[d[i]].name in dict - {m[e].name}
    {
      EntryIn(m, d[i], j, size, dict);
      EntryIn(m, e, b, size, dict);
    }
    ChainSurvives(m, n, d, j, size, dict, dict - {m[e].name});
  }

  lemma RemainingComplete(m: Memory, n: Memory, chains: seq<seq<Ptr>>, dict: map<string, Ptr>, b: nat, k: nat)
    requires Complete(m, chains, |chains|, dict) && b < |chains| && k < |chains[b]|
    requires ChainOk(m, chains[b], b, |chains|, dict) && chains[b][k] in m
    requires SameEntries(m, n) && n.Keys == m.Keys - {chains[b][k]}
    ensures Complete(n, chains[b := Without(chains[b], k)], |chains|, dict - {m[chains[b][k]].name})
  {
    hide Bucket, Hash, Without;
    var c := chains[b];
    ChainParts(m, c, b, |chains|, dict);
    WithoutIsClean(c, k);
    assert EntryOk(m, c[k], b, |chains|, dict);
  }

  /** The new buckets while the entries of `moved` have been taken over from a table
      with the memory `m0`; `m` is the memory now. */
  ghost predicate Moving(m0: Memory, m: Memory, buckets: seq<Option<Ptr>>, chains: seq<seq<Ptr>>,
                         dict: map<string, Ptr>, moved: set<Ptr>)
  {
    && SameEntries(m0, m) && m.Keys == m0.Keys
    && PowerOfTwo(|buckets|) && |chains| == |buckets|
    && (forall b :: 0 <= b < |buckets| ==> Linked(m, buckets[b], chains[b]))
    && (forall b :: 0 <= b < |chains| ==> ChainOk(m0, chains[b], b, |chains|, dict))
    && (forall b :: 0 <= b < |chains| ==> AllIn(chains[b], moved))
    && (forall e :: e in moved ==> Placed(m0, chains, e))
  }

  ghost predicate AllIn(c: seq<Ptr>, s: set<Ptr>) {
    forall i :: 0 <= i < |c| ==> c[i] in s
  }

  ghost predicate NoneIn(c: seq<Ptr>, s: set<Ptr>) {
    forall i :: 0 <= i < |c| ==> c[i] !in s
  }

  ghost predicate Placed(m0: Memory, chains: seq<seq<Ptr>>, e: Ptr) {
    && e in m0 && |chains| > 0
    && Bucket(m0[e].name, |chains|) < |chains| && e in chains[Bucket(m0[e].name, |chains|)]
  }

  /** Setting the link of an entry does not touch chains it is not in. */
  lemma RelinkKeeps(m: Memory, e: Ptr, next: Option<Ptr>, p: Option<Ptr>, c: seq<Ptr>)
    requires Linked(m, p, c) && e in m && e !in c && forall i :: 0 <= i < |c| ==> c[i] in m
    ensures Linked(m[e := m[e].(next := next)], p, c)
  {
    hide Linked;
    LinkedFrame(m, m[e := m[e].(next := next)], p, c);
  }

  /** One entry moved to the head of its new bucket. */
  lemma MoveOne(m0: Memory, m: Memory, buckets: seq<Option<Ptr>>, chains: seq<seq<Ptr>>,
                dict: map<string, Ptr>, moved: set<Ptr>, e: Ptr, b: nat)
    requires Moving(m0, m, buckets, chains, dict, moved) && e !in moved && b < |chains|
    requires EntryOk(m0, e, b, |chains|, dict) && e in m
    ensures Moving(m0, m[e := m[e].(next := buckets[b])], buckets[b := Some(e)], chains[b := [e] + chains[b]],
                   dict, moved + {e})
  {
    hide Linked, Bucket, Hash, PowerOfTwo, ChainOk, EntryOk, Placed;
    var n := m[e := m[e].(next := buckets[b])];
    forall j | 0 <= j < |chains|
      ensures Linked(n, buckets[j], chains[j])
    {
      ChainParts(m0, chains[j], j, |chains|, dict);
      RelinkKeeps(m, e, buckets[b], buckets[j], chains[j]);
    }
    ConsLinked(n, buckets[b], chains[b], e);
    ConsChain(m0, chains[b], b, |chains|, dict, e);
    forall x | x in moved + {e}
      ensures Placed(m0, chains[b := [e] + chains[b]], x)
    {
      StaysPlaced(m0, chains, dict, b, e, x);
    }
  }

  lemma StaysPlaced(m0: Memory, chains: seq<seq<Ptr>>, dict: map<string, Ptr>, b: nat, e: Ptr, x: Ptr)
    requires b < |chains| && EntryOk(m0, e, b, |chains|, dict) && (x == e || Placed(m0, chains, x))
    ensures Placed(m0, chains[b := [e] + chains[b]], x)
  {
    hide Bucket, Hash;
  }

  /** With everything moved the new buckets represent what the old ones did. */
  lemma MovedAll(m0: Memory, was: seq<seq<Ptr>>, m: Memory, buckets: seq<Option<Ptr>>, chains: seq<seq<Ptr>>,
                 dict: map<string, Ptr>, moved: set<Ptr>)
    requires Moving(m0, m, buckets, chains, dict, moved)
    requires Complete(m0, was, |was|, dict) && forall j :: 0 <= j < |was| ==> AllIn(was[j], moved)
    ensures Represents(m, buckets, chains, dict) && SameEntries(m0, m) && m.Keys == m0.Keys
  {
    hide Linked, Bucket, Hash;
    forall b | 0 <= b < |chains|
      ensures ChainOk(m, chains[b], b, |chains|, dict)
    {
      ChainParts(m0, chains[b], b, |chains|, dict);
      forall i | 0 <= i < |chains[b]|
        ensures m0[chains[b][i]].name in dict
      {
        EntryIn(m0, chains[b][i], b, |chains|, dict);
      }
      ChainSurvives(m0, m, chains[b], b, |chains|, dict, dict);
    }
    forall name | name in dict
      ensures Placed(m0, chains, dict[name])
    {
      assert AllIn(was[Bucket(name, |was|)], moved);
    }
  }

  /** What a table offers to the new buckets. */
  lemma BeforeMoving(m: Memory, buckets: seq<Option<Ptr>>, chains: seq<seq<Ptr>>, dict: map<string, Ptr>)
    requires Represents(m, buckets, chains, dict)
    ensures AllChainsOk(m, chains, dict) && Rest(m, buckets, chains, 0, {}) && Complete(m, chains, |chains|, dict)
  {
    hide Linked, ChainOk, Complete, PowerOfTwo;
  }

  lemma TailNotMoved(c: seq<Ptr>, k: nat, moved: set<Ptr>)
    requires NoDuplicates(c) && k < |c| && AllIn(c[..k], moved) && NoneIn(c[k..], moved)
    ensures AllIn(c[..k + 1], moved + {c[k]}) && NoneIn(c[k + 1..], moved + {c[k]})
  {
    var tail := c[k + 1..];
    forall i | 0 <= i < |tail|
      ensures tail[i] !in moved + {c[k]}
    {
      assert tail[i] == c[k..][i + 1];
    }
  }

  lemma StartMoving(m0: Memory, n: nat, dict: map<string, Ptr>)
    requires PowerOfTwo(n)
    ensures Moving(m0, m0, seq(n, _ => None), seq(n, _ => []), dict, {})
  {
    hide Bucket;
  }

  /** The chains of the old table that have not been looked at. */
  ghost predicate Rest(m: Memory, buckets: seq<Option<Ptr>>, chains: seq<seq<Ptr>>, i: nat, moved: set<Ptr>) {
    && |buckets| == |chains|
    && forall j :: i <= j < |chains| ==> NoneIn(chains[j], moved) && Linked(m, buckets[j], chains[j])
  }

  ghost predicate AllChainsOk(m0: Memory, chains: seq<seq<Ptr>>, dict: map<string, Ptr>) {
    forall j :: 0 <= j < |chains| ==> ChainOk(m0, chains[j], j, |chains|, dict)
  }

  lemma RestKeeps(m0: Memory, m: Memory, buckets: seq<Option<Ptr>>, chains: seq<seq<Ptr>>, dict: map<string, Ptr>,
                  i: nat, moved: set<Ptr>, e: Ptr, next: Option<Ptr>)
    requires Rest(m, buckets, chains, i + 1, moved) && AllChainsOk(m0, chains, dict) && m.Keys == m0.Keys
    requires i < |chains| && e in chains[i] && e in m
    ensures Rest(m[e := m[e].(next := next)], buckets, chains, i + 1, moved + {e})
  {
    hide Linked, ChainOk;
    forall j | i + 1 <= j < |chains|
      ensures NoneIn(chains[j], moved + {e}) && Linked(m[e := m[e].(next := next)], buckets[j], chains[j])
    {
      OtherChain(m0, chains, dict, i, j, e);
      ChainParts(m0, chains[j], j, |chains|, dict);
      RelinkKeeps(m, e, next, buckets[j], chains[j]);
    }
  }

  /** The part of the current chain behind the entry moved. */
  lemma TailKeeps(m0: Memory, m: Memory, c: seq<Ptr>, b: nat, size: nat, dict: map<string, Ptr>, k: nat, next: Option<Ptr>)
    requires ChainOk(m0, c, b, size, dict) && m.Keys == m0.Keys && k < |c| && c[k] in m
    requires Linked(m, m[c[k]].next, c[k + 1..])
    ensures Linked(m[c[k] := m[c[k]].(next := next)], m[c[k]].next, c[k + 1..])
  {
    hide Linked;
    ChainParts(m0, c, b, size, dict);
    RelinkKeeps(m, c[k], next, m[c[k]].next, c[k + 1..]);
  }

  /** The same entry in a table of another size */
  lemma NewBucket(m0: Memory, m: Memory, e: Ptr, b: nat, size: nat, dict: map<string, Ptr>, newSize: nat)
    requires size > 0 && EntryOk(m0, e, b, size, dict) && SameEntries(m0, m) && e in m && PowerOfTwo(newSize)
    ensures EntryOk(m0, e, And(m[e].namehash, newSize - 1), newSize, dict) && And(m[e].namehash, newSize - 1) < newSize
  {
    BucketInRange(m0[e].name, newSize);
  }

  /** The finite map a table stands for. */
  ghost function ContentsOf(m: Memory, dict: map<string, Ptr>): map<string, int> {
    map name | name in dict && dict[name] in m :: m[dict[name]].clientData
  }

  /** The entry is the one its name stands for. */
  predicate InTable(dict: map<string, Ptr>, name: string, e: Ptr) {
    name in dict && dict[name] == e
  }

  /** Every name stands for an entry of that name. */
  ghost predicate Named(m: Memory, dict: map<string, Ptr>) {
    forall name :: name in dict ==> dict[name] in m && m[dict[name]].name == name
  }

  lemma NamedBy(m: Memory, buckets: seq<Option<Ptr>>, chains: seq<seq<Ptr>>, dict: map<string, Ptr>)
    requires Represents(m, buckets, chains, dict)
    ensures Named(m, dict) && ContentsOf(m, dict).Keys == dict.Keys
    ensures |chains| == |buckets| > 0 && PowerOfTwo(|buckets|)
  {
    hide Linked, ChainOk, Bucket;
  }

  lemma SameContents(m: Memory, n: Memory, dict: map<string, Ptr>)
    requires Named(m, dict) && SameEntries(m, n) && n.Keys == m.Keys
    ensures ContentsOf(n, dict) == ContentsOf(m, dict)
  {
    forall name | name in dict
      ensures n[dict[name]].clientData == m[dict[name]].clientData
    {
      assert dict[name] in n;
    }
  }

  lemma InsertedContents(m: Memory, dict: map<string, Ptr>, e: Ptr, entry: Entry)
    requires Named(m, dict) && e !in m
    ensures ContentsOf(m[e := entry], dict[entry.name := e]) == ContentsOf(m, dict)[entry.name := entry.clientData]
  {
  }

  lemma RemovedContents(m: Memory, n: Memory, dict: map<string, Ptr>, name: string)
    requires Named(m, dict) && name in dict && SameEntries(m, n) && n.Keys == m.Keys - {dict[name]}
    ensures ContentsOf(n, dict - {name}) == ContentsOf(m, dict) - {name}
    ensures |dict - {name}| == |dict| - 1
  {
    assert dict == (dict - {name})[name := dict[name]];
    forall x | x in dict - {name}
      ensures dict[x] in n && n[dict[x]].clientData == m[dict[x]].clientData
    {
      assert dict[x] in n;
    }
  }

  lemma SetContents(m: Memory, dict: map<string, Ptr>, e: Ptr, value: int)
    requires Named(m, dict) && e in m
    ensures ContentsOf(m[e := m[e].(clientData := value)], dict) ==
            if InTable(dict, m[e].name, e) then ContentsOf(m, dict)[m[e].name := value] else ContentsOf(m, dict)
  {
  }

  /** Setting the data of an entry touches no link. */
  lemma SetKeepsRepresents(m: Memory, buckets: seq<Option<Ptr>>, chains: seq<seq<Ptr>>, dict: map<string, Ptr>, e: Ptr, value: int)
    requires Represents(m, buckets, chains, dict) && e in m
    ensures Represents(m[e := m[e].(clientData := value)], buckets, chains, dict)
  {
    hide Linked, Hash, Bucket, PowerOfTwo;
    var n := m[e := m[e].(clientData := value)];
    forall b | 0 <= b < |chains|
      ensures Linked(n, buckets[b], chains[b])
    {
      assert forall i :: 0 <= i < |chains[b]| ==> EntryOk(m, chains[b][i], b, |chains|, dict);
      LinkedFrame(m, n, buckets[b], chains[b]);
    }
  }

  lemma MaskInRange(h: nat, size: nat)
    requires PowerOfTwo(size)
    ensures And(h, size - 1) < size
  {
    MaskIsRemainder(h, size);
  }

  lemma BucketParts(m: Memory, buckets: seq<Option<Ptr>>, chains: seq<seq<Ptr>>, dict: map<string, Ptr>, b: nat)
    requires Represents(m, buckets, chains, dict) && b < |chains|
    ensures b < |buckets| && Linked(m, buckets[b], chains[b]) && ChainOk(m, chains[b], b, |chains|, dict)
    ensures NoDuplicates(chains[b]) && forall e :: e in chains[b] ==> e in m && EntryOk(m, e, b, |chains|, dict)
    ensures forall i :: 0 <= i < |chains[b]| ==> chains[b][i] in m
  {
    hide EntryOk, Linked, Complete;
    ChainParts(m, chains[b], b, |chains|, dict);
  }

  /** An entry its own bucket does not hold is not one of the table. */
  lemma NotInTable(m: Memory, buckets: seq<Option<Ptr>>, chains: seq<seq<Ptr>>, dict: map<string, Ptr>, e: Ptr, b: nat)
    requires Represents(m, buckets, chains, dict) && e in m && b < |chains| && e !in chains[b]
    requires b == And(m[e].namehash, |chains| - 1)
    ensures !InTable(dict, m[e].name, e)
  {
    hide Linked, Hash, And;
    var name := m[e].name;
    if name in dict && dict[name] == e {
      var j := Bucket(name, |chains|);
      ChainParts(m, chains[j], j, |chains|, dict);
    }
  }

  lemma EmptyRepresents(n: nat)
    requires PowerOfTwo(n)
    ensures Represents(map[], seq(n, _ => None), seq(n, _ => []), map[])
  {
    hide Bucket;
  }
}
