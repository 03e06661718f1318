/** The rolling hash of `deflate.c`, bit for bit. */
module HashKey {
  import opened Lz77

  /** The low 15 bits are the key; the source keeps it in an unsigned int. */
  type Key = bv16

  const HASH_SIZE := 0x8000
  const HASH_MASK: Key := 0x7fff

  /** UPDATE_HASH, with H_SHIFT = (HASH_BITS + MIN_MATCH - 1) / MIN_MATCH = 5. */
  function UpdateHash(h: Key, c: Uch): Key {
    ((h << 5) ^ (c as Key)) & HASH_MASK
  }

  /** The key of a three byte string, computed from scratch. */
  function Hash3(a: Uch, b: Uch, c: Uch): Key {
    UpdateHash(UpdateHash(UpdateHash(0, a), b), c)
  }

  /** Each byte takes part shifted by its age; what leaves the 15 bits is lost. */
  lemma KeyOfThree(a: Uch, b: Uch, c: Uch)
    ensures Hash3(a, b, c) == (((a as Key) << 10) ^ ((b as Key) << 5) ^ (c as Key)) & 0x7fff
  {
  }

  /** A key as an index of `head`. */
  function Slot(h: Key): (r: nat)
    ensures r < HASH_SIZE
  {
    (h & HASH_MASK) as nat
  }

  function Slot3(a: Uch, b: Uch, c: Uch): (r: nat)
    ensures r < HASH_SIZE
  {
    Slot(Hash3(a, b, c))
  }

  /** `h` is a running key whose last two bytes were `a` and `b`. */
  predicate Seeded(h: Key, a: Uch, b: Uch) {
    h & 0x3ff == UpdateHash(UpdateHash(0, a), b) & 0x3ff
  }

  /** One UPDATE_HASH on a seeded key gives the key of the last three bytes, and
      a key seeded with the last two: after MIN_MATCH steps the oldest byte no
      longer takes part. */
  lemma RollingHash(h: Key, a: Uch, b: Uch, c: Uch)
    requires Seeded(h, a, b)
    ensures UpdateHash(h, c) == Hash3(a, b, c)
    ensures Seeded(UpdateHash(h, c), b, c)
  {
  }

  /** lm_init seeds the key from zero, deflate_fast from the first byte itself. */
  lemma SeedFromTwo(a: Uch, b: Uch)
    ensures Seeded(UpdateHash(UpdateHash(0, a), b), a, b)
    ensures Seeded(UpdateHash(a as Key, b), a, b)
  {
    assert UpdateHash(0, a) == a as Key;
    hide UpdateHash;
  }

  lemma SlotInjective(g: Key, h: Key)
    requires g <= HASH_MASK && h <= HASH_MASK && Slot(g) == Slot(h)
    ensures g == h
  {
    assert g & HASH_MASK == g && h & HASH_MASK == h;
    assert (g as nat) as Key == g && (h as nat) as Key == h;
  }

  /** Strings in the same bucket with equal first two bytes have equal third bytes. */
  lemma ThirdByteFollows(a: Uch, b: Uch, c: Uch, d: Uch)
    requires Slot3(a, b, c) == Slot3(a, b, d)
    ensures c == d
  {
    assert Hash3(a, b, c) <= HASH_MASK && Hash3(a, b, d) <= HASH_MASK;
    SlotInjective(Hash3(a, b, c), Hash3(a, b, d));
  }
}
