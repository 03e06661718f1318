/** The chains of bmake's hash table as linked entries, and what the table means. */
module HashTableSpec {
  import opened Bitwise
  import opened Wrappers

  type Ptr = nat

  /** One entry; `next` links the entries of a bucket. */
  datatype Entry = Entry(next: Option<Ptr>, clientData: int, namehash: nat, name: string)

  type Memory = map<Ptr, Entry>

  const TWO32 := 0x1_0000_0000

  /** The value of a char: one byte, with a sign. */
  function Code(c: char): (r: int)
    ensures -128 <= r < 128 && (r - c as int) % 256 == 0
  {
    var b := c as int % 256;
    if b < 128 then b else b - 256
  }

  /** h * 31 + c for every character, in 32 bits. */
  function HashFrom(h: nat, key: string): nat
    decreases |key|
  {
    if key == [] then h else HashFrom((h * 32 - h + Code(key[0])) % TWO32, key[1..])
  }

  function Hash(key: string): nat {
    HashFrom(0, key)
  }

  /** The key as the digits of a number to the base 31 */
  function Digits(key: string): int {
    if key == [] then 0 else 31 * Digits(key[..|key| - 1]) + Code(key[|key| - 1])
  }

  lemma {:induction false} HashFromSnoc(h: nat, key: string, c: char)
    ensures HashFrom(h, key + [c]) == (31 * HashFrom(h, key) + Code(c)) % TWO32
    decreases |key|
  {
    hide Code;
    if key == [] {
      assert [] + [c] == [c];
    } else {
      var k := key + [c];
      assert k[0] == key[0] && k[1..] == key[1..] + [c];
      HashFromSnoc((h * 32 - h + Code(key[0])) % TWO32, key[1..], c);
    }
  }

  /** The hash of a key is that number modulo 2^32, however it wraps on the way. */
  lemma {:induction false} HashIsDigits(key: string)
    ensures Hash(key) == Digits(key) % TWO32
    decreases |key|
  {
    hide HashFrom, Code;
    if key == [] {
      HashOfNothing();
    } else {
      var front, c := key[..|key| - 1], key[|key| - 1];
      assert key == front + [c];
      HashFromSnoc(0, front, c);
      HashIsDigits(front);
      WrapsOnTheWay(Digits(front), Code(c));
    }
  }

  lemma HashOfNothing()
    ensures Hash([]) == 0
  {
  }

  lemma WrapsOnTheWay(d: int, c: int)
    ensures (31 * (d % TWO32) + c) % TWO32 == (31 * d + c) % TWO32
  {
    var q := d / TWO32;
    assert 31 * d + c == 31 * (d % TWO32) + c + TWO32 * (31 * q);
  }

  predicate PowerOfTwo(n: nat) {
    n == 1 || (n > 1 && n % 2 == 0 && PowerOfTwo(n / 2))
  }

  /** Remainder for a divisor that need not be a constant */
  function Rem(h: int, size: int): int
    requires size > 0
  {
    h % size
  }

  /** Masking with a power of two less one is taking the remainder. */
  lemma {:induction false} MaskIsRemainder(h: nat, size: nat)
    requires PowerOfTwo(size)
    ensures And(h, size - 1) == Rem(h, size)
  {
    hide Rem, And;
    if size == 1 || h == 0 {
      AndZero(h, size);
    } else {
      MaskIsRemainder(h / 2, size / 2);
      AndStep(h, size / 2);
      RemStep(h, size / 2);
    }
  }

  lemma AndZero(h: nat, size: nat)
    requires size > 0
    ensures And(0, size - 1) == Rem(0, size) == 0
    ensures And(h, 0) == Rem(h, 1) == 0
  {
  }

  lemma AndStep(h: nat, half: nat)
    requires half > 0
    ensures And(h, 2 * half - 1) == h % 2 + 2 * And(h / 2, half - 1)
  {
  }

  lemma RemStep(h: int, half: int)
    requires half > 0
    ensures Rem(h, 2 * half) == h % 2 + 2 * Rem(h / 2, half)
  {
    var d, q, r := 2 * half, h / 2 / half, h / 2 % half;
    assert d * q == 2 * (half * q);
    IsRemainder(h, d, q, h % 2 + 2 * r);
  }

  lemma IsRemainder(n: int, d: int, q: int, r: int)
    requires n == d * q + r && 0 <= r < d
    ensures Rem(n, d) == r
  {
    var k := q - n / d;
    assert d * k == d * q - d * (n / d);
    assert k >= 1 ==> d * k >= d;
    assert k <= -1 ==> d * k <= -d;
  }

  /** The entries of `c`, linked one to the next, start at p. */
  ghost predicate Linked(mem: Memory, p: Option<Ptr>, c: seq<Ptr>)
    decreases |c|
  {
    if c == [] then p == None
    else p == Some(c[0]) && c[0] in mem && Linked(mem, mem[c[0]].next, c[1..])
  }

  /** The bucket of a key */
  function Bucket(key: string, size: nat): nat
    requires size > 0
  {
    And(Hash(key), size - 1)
  }

  /** A chain holds entries of bucket b, each once and the one its name stands for. */
  ghost predicate ChainOk(mem: Memory, c: seq<Ptr>, b: nat, size: nat, dict: map<string, Ptr>) {
    && size > 0 && NoDuplicates(c)
    && forall i :: 0 <= i < |c| ==> EntryOk(mem, c[i], b, size, dict)
  }

  ghost predicate EntryOk(mem: Memory, e: Ptr, b: nat, size: nat, dict: map<string, Ptr>)
    requires size > 0
  {
    && e in mem && mem[e].namehash == Hash(mem[e].name) && Bucket(mem[e].name, size) == b
    && mem[e].name in dict && dict[mem[e].name] == e
  }

  /** Every name stands for an entry of that name in its bucket. */
  ghost predicate Complete(mem: Memory, chains: seq<seq<Ptr>>, size: nat, dict: map<string, Ptr>) {
    && size > 0
    && forall name :: name in dict ==>
         && dict[name] in mem && mem[dict[name]].name == name
         && Bucket(name, size) < |chains| && dict[name] in chains[Bucket(name, size)]
  }

  /** The linked buckets represent the map from names to entries. */
  ghost predicate Represents(mem: Memory, buckets: seq<Option<Ptr>>, chains: seq<seq<Ptr>>, dict: map<string, Ptr>) {
    && PowerOfTwo(|buckets|) && |chains| == |buckets|
    && (forall b :: 0 <= b < |buckets| ==> Linked(mem, buckets[b], chains[b]))
    && (forall b :: 0 <= b < |chains| ==> ChainOk(mem, chains[b], b, |chains|, dict))
    && Complete(mem, chains, |chains|, dict)
  }

  lemma BucketIsRemainder(h: nat, size: nat)
    requires PowerOfTwo(size)
    ensures And(h, size - 1) == h % size < size
  {
    MaskIsRemainder(h, size);
  }

  lemma BucketInRange(key: string, size: nat)
    requires PowerOfTwo(size)
    ensures Bucket(key, size) < size
  {
    MaskIsRemainder(Hash(key), size);
  }

  /** Two memories link these entries alike. */
  ghost predicate SameLinks(m: Memory, n: Memory, c: seq<Ptr>) {
    forall i :: 0 <= i < |c| ==> c[i] in m && c[i] in n && m[c[i]].next == n[c[i]].next
  }

  lemma {:induction false} LinkedFrame(m: Memory, n: Memory, p: Option<Ptr>, c: seq<Ptr>)
    requires Linked(m, p, c) && SameLinks(m, n, c)
    ensures Linked(n, p, c)
    decreases |c|
  {
    if c != [] {
      assert forall i :: 0 <= i < |c[1..]| ==> c[1..][i] == c[i + 1];
      LinkedFrame(m, n, m[c[0]].next, c[1..]);
    }
  }

  /** Following the links of a chain leads to what is left of it. */
  lemma LinkedStep(mem: Memory, c: seq<Ptr>, k: nat, p: Option<Ptr>)
    requires k <= |c| && Linked(mem, p, c[k..])
    ensures p == None <==> k == |c|
    ensures p.Some? ==> p.value == c[k] && c[k] in mem && Linked(mem, mem[c[k]].next, c[k + 1..])
  {
    if k < |c| {
      assert c[k..][1..] == c[k + 1..];
    }
  }
}
