/** `hash.c`: the growing hash table with chained entries. */
module HashTable {
  import opened Bitwise
  import opened Wrappers
  import opened HashTableSpec
  import opened HashTableSteps

  const REBUILD_LIMIT := 8

  class Table {
    var bucketPtr: seq<Option<Ptr>>
    var size: nat
    var numEntries: nat
    var mask: nat
    var mem: Memory
    var brk: Ptr // all pointers from here on are free
    ghost var chains: seq<seq<Ptr>>
    ghost var dict: map<string, Ptr>

    /** No chain is longer than eight entries on average. */
    ghost predicate Valid()
      reads this
    {
      && size == |bucketPtr| && mask == size - 1 && numEntries == |dict| <= 8 * size
      && Represents(mem, bucketPtr, chains, dict)
      && forall p :: p in mem ==> p < brk
    }

    /** The finite map the table stands for. */
    ghost function Contents(): map<string, int>
      reads this
    {
      ContentsOf(mem, dict)
    }

    /** Hash_InitTable */
    constructor (numBuckets: int)
      ensures Valid() && Contents() == map[] && dict == map[]
      ensures if numBuckets > 0 then numBuckets <= size && (size == 2 || size < 2 * numBuckets) else size == 16
    {
      var i := 16;
      if numBuckets > 0 {
        i := 2;
        while i < numBuckets
          invariant PowerOfTwo(i) && (i == 2 || 2 <= i < 2 * numBuckets)
        {
          i := 2 * i;
        }
      }
      size, mask, numEntries := i, i - 1, 0;
      bucketPtr := seq(i, _ => None);
      mem, brk := map[], 0;
      chains, dict := seq(i, _ => []), map[];
      EmptyRepresents(i);
    }

    /** The loop that hashes the key */
    static method HashKey(key: string) returns (h: nat)
      ensures h == Hash(key)
    {
      hide Code;
      h := 0;
      var p := 0;
      while p < |key|
        invariant p <= |key|
        invariant HashFrom(h, key[p..]) == Hash(key)
      {
        assert key[p..][1..] == key[p + 1..];
        h := (h * 32 - h + Code(key[p])) % TWO32;
        p := p + 1;
      }
    }

    /** The loop that looks through the chain of the key's bucket */
    method Lookup(key: string, h: nat) returns (r: Option<Ptr>)
      requires Valid() && h == Hash(key)
      ensures r == if key in dict then Some(dict[key]) else None
    {
      hide Linked, Hash, PowerOfTwo;
      BucketInRange(key, size);
      var b := And(h, mask);
      ghost var c, k := chains[b], 0;
      var e := bucketPtr[b];
      assert c[0..] == c;
      while e.Some?
        invariant k <= |c| && Linked(mem, e, c[k..])
        invariant forall i :: 0 <= i < k ==> mem[c[i]].name != key
        decreases |c| - k
      {
        LinkedStep(mem, c, k, e);
        assert EntryOk(mem, c[k], b, size, dict);
        if mem[e.value].namehash == h && mem[e.value].name == key {
          return e;
        }
        e := mem[e.value].next;
        k := k + 1;
      }
      LinkedStep(mem, c, k, e);
      r := None;
    }

    /** Hash_FindEntry */
    method FindEntry(key: string) returns (r: Option<Ptr>)
      requires Valid()
      ensures r.Some? <==> key in Contents()
      ensures r.Some? ==> r.value in mem && mem[r.value].name == key && mem[r.value].clientData == Contents()[key]
    {
      hide Linked, Hash, PowerOfTwo, Represents;
      NamedBy(mem, bucketPtr, chains, dict);
      var h := HashKey(key);
      r := Lookup(key, h);
    }

    /** Hash_CreateEntry */
    method CreateEntry(key: string) returns (e: Ptr, isNew: bool)
      requires Valid()
      modifies this
      ensures Valid() && isNew == (key !in old(Contents()))
      ensures Contents() == if isNew then old(Contents())[key := 0] else old(Contents())
      ensures e in mem && key in dict && dict[key] == e
      ensures forall name :: name in old(dict) ==> name in dict && dict[name] == old(dict)[name]
      ensures size == if isNew && old(numEntries) == 8 * old(size) then 2 * old(size) else old(size)
    {
      hide Linked, Hash, PowerOfTwo, Represents, ContentsOf;
      NamedBy(mem, bucketPtr, chains, dict);
      var h := HashKey(key);
      var found := Lookup(key, h);
      if found.Some? {
        return found.value, false;
      }
      if numEntries >= REBUILD_LIMIT * size {
        RebuildTable();
      }
      e := Link(key, h);
      isNew := true;
    }

    /** A new entry at the head of its chain */
    method Link(key: string, h: nat) returns (e: Ptr)
      requires Valid() && h == Hash(key) && key !in dict && numEntries < 8 * size
      modifies this
      ensures Valid() && Contents() == old(Contents())[key := 0] && size == old(size)
      ensures e in mem && dict == old(dict)[key := e]
      ensures |bucketPtr| == old(|bucketPtr|) && h % size < |bucketPtr|
      ensures bucketPtr[h % size] == Some(e) && mem[e] == Entry(old(bucketPtr)[h % size], 0, h, key)
    {
      hide Linked, Hash, PowerOfTwo, Represents, ContentsOf;
      NamedBy(mem, bucketPtr, chains, dict);
      BucketInRange(key, size);
      BucketIsRemainder(h, size);
      var b := And(h, mask);
      e := brk;
      var entry := Entry(bucketPtr[b], 0, h, key);
      InsertedContents(mem, dict, e, entry);
      InsertRepresents(mem, bucketPtr, chains, dict, e, entry, b);
      mem := mem[e := entry];
      bucketPtr := bucketPtr[b := Some(e)];
      chains := chains[b := [e] + chains[b]];
      dict := dict[key := e];
      brk := brk + 1;
      numEntries := numEntries + 1;
    }

    /** Hash_SetValue */
    method SetValue(e: Ptr, value: int)
      requires Valid() && e in mem
      modifies this`mem
      ensures var name := old(mem)[e].name;
              Valid() && Contents() == if InTable(dict, name, e) then old(Contents())[name := value] else old(Contents())
    {
      hide Linked, Hash, PowerOfTwo, Represents, ContentsOf;
      NamedBy(mem, bucketPtr, chains, dict);
      SetContents(mem, dict, e, value);
      SetKeepsRepresents(mem, bucketPtr, chains, dict, e, value);
      mem := mem[e := mem[e].(clientData := value)];
    }

    /** Hash_DeleteEntry: false stands for the message and the abort when the entry is
        not in the table. */
    method DeleteEntry(e: Option<Ptr>) returns (ok: bool)
      requires Valid() && (e.Some? ==> e.value in mem)
      modifies this
      ensures Valid()
      ensures e.Some? ==> var name := old(mem)[e.value].name;
                          ok == InTable(old(dict), name, e.value) &&
                          Contents() == if ok then old(Contents()) - {name} else old(Contents())
      ensures e.None? ==> ok && Contents() == old(Contents())
    {
      hide Linked, Hash, PowerOfTwo, Represents;
      if e == None {
        return true;
      }
      ok := UnlinkEntry(e.value);
    }

    /** The loop of Hash_DeleteEntry: hp points to the bucket or to the link of the
        entry before p. */
    method UnlinkEntry(e: Ptr) returns (ok: bool)
      requires Valid() && e in mem
      modifies this
      ensures Valid()
      ensures var name := old(mem)[e].name;
              ok == InTable(old(dict), name, e) &&
              Contents() == if ok then old(Contents()) - {name} else old(Contents())
    {
      hide Linked, Hash, PowerOfTwo, ChainOk, EntryOk, Represents, And, ContentsOf;
      NamedBy(mem, bucketPtr, chains, dict);
      MaskInRange(mem[e].namehash, size);
      var b := And(mem[e].namehash, mask);
      BucketParts(mem, bucketPtr, chains, dict, b);
      ghost var c, k := chains[b], 0;
      var p, prev := bucketPtr[b], None;
      assert c[0..] == c;
      while p.Some? && p.value != e
        invariant k <= |c| && Linked(mem, p, c[k..])
        invariant prev == (if k == 0 then None else Some(c[k - 1])) && e !in c[..k]
        modifies {}
        decreases |c| - k
      {
        LinkedStep(mem, c, k, p);
        p, prev := mem[p.value].next, p;
        k := k + 1;
      }
      LinkedStep(mem, c, k, p);
      ok := p.Some?;
      if ok {
        Unhook(b, prev, e, k);
      } else {
        NotInTable(mem, bucketPtr, chains, dict, e, b);
      }
    }

    /** *hp = p->next, and the entry freed */
    method Unhook(b: nat, prev: Option<Ptr>, e: Ptr, ghost k: nat)
      requires Valid() && b < |chains| && k < |chains[b]| && e == chains[b][k] && e in mem
      requires prev == if k == 0 then None else Some(chains[b][k - 1])
      modifies this
      ensures var name := old(mem)[e].name;
              Valid() && name in old(dict) && old(dict)[name] == e && Contents() == old(Contents()) - {name}
    {
      hide Linked, Hash, PowerOfTwo, ChainOk, EntryOk, Represents, And, ContentsOf, Named, SameEntries, Without, Unlinked,
           Bucket, Complete, NoDuplicates;
      NamedBy(mem, bucketPtr, chains, dict);
      BucketParts(mem, bucketPtr, chains, dict, b);
      ghost var c, m, name := chains[b], mem, mem[e].name;
      EntryIn(mem, e, b, |chains|, dict);
      RemoveRepresents(mem, bucketPtr, chains, dict, b, k);
      UnlinkedEntries(mem, c, k);
      UnlinkedIs(mem, c, k);
      RemovedContents(mem, Unlinked(mem, c, k), dict, name);
      chains := chains[b := Without(c, k)];
      dict := dict - {name};
      numEntries := numEntries - 1;
      if prev == None {
        bucketPtr := bucketPtr[b := mem[e].next];
      } else {
        mem := mem[prev.value := mem[prev.value].(next := mem[e].next)];
        assert bucketPtr == bucketPtr[b := bucketPtr[b]];
      }
      mem := mem - {e};
    }

    /** RebuildTable: twice as many buckets, the same entries. */
    method RebuildTable()
      requires Valid()
      modifies this`bucketPtr, this`size, this`mask, this`mem, this`chains
      ensures Valid() && size == 2 * old(size) && Contents() == old(Contents())
      ensures SameEntries(old(mem), mem) && mem.Keys == old(mem).Keys
    {
      hide Linked, Hash, Bucket, ChainOk, EntryOk, Moving, Represents, Complete, Rest, AllChainsOk, ContentsOf;
      NamedBy(mem, bucketPtr, chains, dict);
      BeforeMoving(mem, bucketPtr, chains, dict);
      ghost var m0, was := mem, chains;
      var oldhp, oldsize := bucketPtr, size;
      size := 2 * size;
      mask := size - 1;
      StartMoving(m0, size, dict);
      bucketPtr := seq(size, _ => None);
      chains := seq(size, _ => []);
      ghost var moved: set<Ptr> := {};
      for i := 0 to oldsize
        invariant |bucketPtr| == size == mask + 1 == 2 * oldsize && Moving(m0, mem, bucketPtr, chains, dict, moved)
        invariant forall j :: 0 <= j < i ==> AllIn(was[j], moved)
        invariant Rest(mem, oldhp, was, i, moved)
      {
        moved := MoveChain(m0, was, oldhp, i, moved);
      }
      MovedAll(m0, was, mem, bucketPtr, chains, dict, moved);
      SameContents(m0, mem, dict);
    }

    /** The inner loop: every entry of an old chain goes to the head of its new one. */
    method MoveChain(ghost m0: Memory, ghost was: seq<seq<Ptr>>, oldhp: seq<Option<Ptr>>, i: nat, ghost before: set<Ptr>)
      returns (ghost moved: set<Ptr>)
      requires mask == |bucketPtr| - 1 && i < |oldhp| == |was|
      requires Moving(m0, mem, bucketPtr, chains, dict, before)
      requires AllChainsOk(m0, was, dict) && Rest(mem, oldhp, was, i, before)
      modifies this`bucketPtr, this`mem, this`chains
      ensures |bucketPtr| == old(|bucketPtr|) && Moving(m0, mem, bucketPtr, chains, dict, moved)
      ensures before <= moved && AllIn(was[i], moved) && Rest(mem, oldhp, was, i + 1, moved)
    {
      hide Linked, Hash, Bucket, ChainOk, EntryOk, Moving, Represents, And;
      moved := before;
      ghost var c, k := was[i], 0;
      ChainParts(m0, c, i, |was|, dict);
      var e := oldhp[i];
      assert c[0..] == c;
      while e.Some?
        invariant |bucketPtr| == old(|bucketPtr|) && k <= |c| && Linked(mem, e, c[k..])
        invariant Moving(m0, mem, bucketPtr, chains, dict, moved) && Rest(mem, oldhp, was, i + 1, moved)
        invariant before <= moved && AllIn(c[..k], moved) && NoneIn(c[k..], moved)
        decreases |c| - k
      {
        LinkedStep(mem, c, k, e);
        var next := mem[e.value].next;
        TailNotMoved(c, k, moved);
        moved := MoveEntry(m0, was, oldhp, i, k, e.value, moved);
        e := next;
        k := k + 1;
      }
      LinkedStep(mem, c, k, e);
    }

    method MoveEntry(ghost m0: Memory, ghost was: seq<seq<Ptr>>, ghost oldhp: seq<Option<Ptr>>, ghost i: nat, ghost k: nat,
                     e: Ptr, ghost before: set<Ptr>) returns (ghost moved: set<Ptr>)
      requires mask == |bucketPtr| - 1 && i < |oldhp| == |was| && k < |was[i]| && e == was[i][k] && e in mem
      requires Moving(m0, mem, bucketPtr, chains, dict, before) && NoneIn(was[i][k..], before)
      requires AllChainsOk(m0, was, dict) && Rest(mem, oldhp, was, i + 1, before)
      requires Linked(mem, mem[e].next, was[i][k + 1..])
      modifies this`bucketPtr, this`mem, this`chains
      ensures |bucketPtr| == old(|bucketPtr|) && Moving(m0, mem, bucketPtr, chains, dict, moved)
      ensures moved == before + {e} && Rest(mem, oldhp, was, i + 1, moved)
      ensures Linked(mem, old(mem)[e].next, was[i][k + 1..])
    {
      hide Linked, Hash, Bucket, ChainOk, EntryOk, Represents, And;
      ghost var c := was[i];
      ChainParts(m0, c, i, |was|, dict);
      NewBucket(m0, mem, e, i, |was|, dict, |bucketPtr|);
      var b := And(mem[e].namehash, mask);
      assert e == c[k..][0];
      TailKeeps(m0, mem, c, i, |was|, dict, k, bucketPtr[b]);
      RestKeeps(m0, mem, oldhp, was, dict, i, before, e, bucketPtr[b]);
      MoveOne(m0, mem, bucketPtr, chains, dict, before, e, b);
      hide Moving, Rest;
      mem := mem[e := mem[e].(next := bucketPtr[b])];
      bucketPtr := bucketPtr[b := Some(e)];
      chains := chains[b := [e] + chains[b]];
      moved := before + {e};
    }
  }

  /** The entries of the chains from bucket i on, in the order of an enumeration. */
  function EntriesFrom(chains: seq<seq<Ptr>>, i: nat): seq<Ptr>
    requires i <= |chains|
    decreases |chains| - i
  {
    if i == |chains| then [] else chains[i] + EntriesFrom(chains, i + 1)
  }

  lemma EntriesFromStep(chains: seq<seq<Ptr>>, i: nat)
    requires i <= |chains|
    ensures EntriesFrom(chains, i) == if i == |chains| then [] else chains[i] + EntriesFrom(chains, i + 1)
  {
  }

  lemma {:induction false} InEntriesFrom(chains: seq<seq<Ptr>>, i: nat, b: nat, e: Ptr)
    requires i <= b < |chains| && e in chains[b]
    ensures e in EntriesFrom(chains, i)
    decreases b - i
  {
    if i < b {
      InEntriesFrom(chains, i + 1, b, e);
    }
  }

  lemma {:induction false} ChainOfEntry(chains: seq<seq<Ptr>>, i: nat, e: Ptr) returns (b: nat)
    requires i <= |chains| && e in EntriesFrom(chains, i)
    ensures i <= b < |chains| && e in chains[b]
    decreases |chains| - i
  {
    if e in chains[i] {
      b := i;
    } else {
      b := ChainOfEntry(chains, i + 1, e);
    }
  }

  lemma {:induction false} NoneTwice(m: Memory, chains: seq<seq<Ptr>>, dict: map<string, Ptr>, i: nat)
    requires AllChainsOk(m, chains, dict) && i <= |chains|
    ensures NoDuplicates(EntriesFrom(chains, i))
    decreases |chains| - i
  {
    hide ChainOk;
    if i < |chains| {
      NoneTwice(m, chains, dict, i + 1);
      ChainParts(m, chains[i], i, |chains|, dict);
      forall e | e in EntriesFrom(chains, i + 1)
        ensures e !in chains[i]
      {
        var b := ChainOfEntry(chains, i + 1, e);
        OtherChain(m, chains, dict, b, i, e);
      }
      NoDuplicatesJoined(chains[i], EntriesFrom(chains, i + 1));
    }
  }

  lemma NoDuplicatesJoined(a: seq<Ptr>, b: seq<Ptr>)
    requires NoDuplicates(a) && NoDuplicates(b) && forall e :: e in a ==> e !in b
    ensures NoDuplicates(a + b)
  {
    assert forall i :: 0 <= i < |a| ==> a[i] in a;
    assert forall i :: 0 <= i < |b| ==> b[i] in b;
  }

  /** The entries of an enumeration are those the names stand for, each once. */
  lemma EntriesOnce(m: Memory, buckets: seq<Option<Ptr>>, chains: seq<seq<Ptr>>, dict: map<string, Ptr>)
    requires Represents(m, buckets, chains, dict)
    ensures NoDuplicates(EntriesFrom(chains, 0))
    ensures forall e :: e in EntriesFrom(chains, 0) <==> e in dict.Values
  {
    hide Linked, ChainOk, EntryOk;
    BeforeMoving(m, buckets, chains, dict);
    NoneTwice(m, chains, dict, 0);
    forall e | e in EntriesFrom(chains, 0)
      ensures e in dict.Values
    {
      var b := ChainOfEntry(chains, 0, e);
      ChainParts(m, chains[b], b, |chains|, dict);
      EntryIn(m, e, b, |chains|, dict);
      assert m[e].name in dict && dict[m[e].name] in dict.Values;
    }
    forall e | e in dict.Values
      ensures e in EntriesFrom(chains, 0)
    {
      var name :| name in dict && dict[name] == e;
      InEntriesFrom(chains, 0, Bucket(name, |chains|), e);
    }
  }

  /** Where an enumeration stands */
  class Search {
    const tablePtr: Table
    var nextIndex: nat
    var hashEntryPtr: Option<Ptr>
    ghost var tail: seq<Ptr>

    /** The first half of Hash_EnumFirst */
    constructor (t: Table)
      requires t.Valid()
      ensures tablePtr == t && Standing() && Rest() == EntriesFrom(t.chains, 0)
    {
      tablePtr := t;
      nextIndex, hashEntryPtr, tail := 0, None, [];
    }

    /** The links behind the entry returned last are `tail`. */
    ghost predicate Standing()
      reads this, tablePtr
    {
      && tablePtr.Valid() && nextIndex <= |tablePtr.chains|
      && (hashEntryPtr.Some? ==> hashEntryPtr.value in tablePtr.mem)
      && Linked(tablePtr.mem, if hashEntryPtr == None then None else tablePtr.mem[hashEntryPtr.value].next, tail)
    }

    /** The entries still to be returned */
    ghost function Rest(): seq<Ptr>
      reads this, tablePtr
    {
      tail + if nextIndex <= |tablePtr.chains| then EntriesFrom(tablePtr.chains, nextIndex) else []
    }

    /** Hash_EnumNext */
    method EnumNext() returns (r: Option<Ptr>)
      requires Standing()
      modifies this
      ensures Standing()
      ensures old(Rest()) == [] ==> r == None && Rest() == []
      ensures old(Rest()) != [] ==> r == Some(old(Rest())[0]) && Rest() == old(Rest())[1..]
    {
      hide Represents, ContentsOf, PowerOfTwo, EntriesFrom, EntryOk, ChainOk, NoDuplicates, Named;
      var t := tablePtr;
      NamedBy(t.mem, t.bucketPtr, t.chains, t.dict);
      var e := if hashEntryPtr == None then None else t.mem[hashEntryPtr.value].next;
      ghost var links := tail;
      while e == None
        invariant nextIndex <= |t.chains| && Linked(t.mem, e, links)
        invariant links + EntriesFrom(t.chains, nextIndex) == old(Rest())
        invariant hashEntryPtr == old(hashEntryPtr) && tail == old(tail)
        decreases |t.chains| - nextIndex
      {
        EntriesFromStep(t.chains, nextIndex);
        if nextIndex >= t.size {
          return None;
        }
        BucketParts(t.mem, t.bucketPtr, t.chains, t.dict, nextIndex);
        e, links := t.bucketPtr[nextIndex], t.chains[nextIndex];
        nextIndex := nextIndex + 1;
      }
      hashEntryPtr, tail := e, links[1..];
      r := e;
    }
  }

  /** Hash_EnumFirst followed by Hash_EnumNext to the end: every entry of the table
      comes exactly once. */
  method Enumerate(t: Table) returns (all: seq<Ptr>)
    requires t.Valid()
    ensures NoDuplicates(all) && forall e :: e in all <==> e in t.dict.Values
  {
    EntriesOnce(t.mem, t.bucketPtr, t.chains, t.dict);
    hide Table.Valid, NoDuplicates, Search.Standing, Search.Rest, EntriesFrom;
    var search := new Search(t);
    all := Collect(search);
  }

  method Collect(search: Search) returns (all: seq<Ptr>)
    requires search.Standing()
    modifies search
    ensures all == old(search.Rest())
  {
    hide Search.Standing, Search.Rest;
    ghost var goal := search.Rest();
    all := [];
    var e := search.EnumNext();
    while e.Some?
      invariant search.Standing()
      invariant goal == if e.Some? then all + ([e.value] + search.Rest()) else all
      decreases |search.Rest()|, e.Some?
    {
      all := all + [e.value];
      e := search.EnumNext();
    }
  }
}
