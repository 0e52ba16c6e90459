/**
 * The 64-bit entity key of NameplateBaselineCache.entityKey:
 * `(((long) storeId) << 32) ^ (((long) index) & 0xFFFF_FFFFL)`.
 * Java ints and longs are modelled by their two's-complement bit patterns
 * (`bv32`, `bv64`); `(long)` of an int is sign extension.
 */
module EntityKeys {

  /** A Java `long` as its bit pattern. */
  type Key = bv64

  /** `(long) x` for a Java int `x`: sign extension of its 32 bits. */
  function SignExtend(x: bv32): bv64 {
    if x & 0x8000_0000 == 0 then x as bv64 else (x as bv64) | 0xFFFF_FFFF_0000_0000
  }

  /** entityKey for a valid reference: store identity in the high half, index in the low half. */
  function EntityKey(storeId: bv32, index: bv32): Key {
    (SignExtend(storeId) << 32) ^ (SignExtend(index) & 0xFFFF_FFFF)
  }

  /** `(int) (key >>> 32)`: the store identity of a key (the store-scoped sweeps use it). */
  function StoreIdFromKey(key: Key): bv32 {
    (key >> 32) as bv32
  }

  /** `(int) key`: the low 32 bits of a key. */
  function IndexFromKey(key: Key): bv32 {
    (key & 0xFFFF_FFFF) as bv32
  }

  /** The low 32 bits of a sign-extended int are the int itself. */
  lemma SignExtendLow(x: bv32)
    ensures SignExtend(x) & 0xFFFF_FFFF == x as bv64
  {
    if x & 0x8000_0000 != 0 {
      assert ((x as bv64) | 0xFFFF_FFFF_0000_0000) & 0xFFFF_FFFF == x as bv64;
    }
  }

  /** Widening a 32-bit pattern and narrowing it back is the identity. */
  lemma NarrowWiden(x: bv32)
    ensures (x as bv64) as bv32 == x
  {
  }

  /** Packing two halves with shift and xor: each half can be read back. */
  lemma ShiftXorHalves(hi: bv64, lo: bv64)
    requires lo < 0x1_0000_0000
    ensures ((hi << 32) ^ lo) >> 32 == hi & 0xFFFF_FFFF
    ensures ((hi << 32) ^ lo) & 0xFFFF_FFFF == lo
  {
  }

  /** The high 32 bits of a key are the store id. */
  lemma KeyHigh(storeId: bv32, index: bv32)
    ensures EntityKey(storeId, index) >> 32 == storeId as bv64
  {
    SignExtendLow(storeId);
    SignExtendLow(index);
    ShiftXorHalves(SignExtend(storeId), SignExtend(index) & 0xFFFF_FFFF);
  }

  /** The low 32 bits of a key are the index. */
  lemma KeyLow(storeId: bv32, index: bv32)
    ensures EntityKey(storeId, index) & 0xFFFF_FFFF == index as bv64
  {
    SignExtendLow(index);
    ShiftXorHalves(SignExtend(storeId), SignExtend(index) & 0xFFFF_FFFF);
  }

  /** Unpacking a key gives back the store id and the index it was packed from. */
  lemma KeyRoundTrip(storeId: bv32, index: bv32)
    ensures StoreIdFromKey(EntityKey(storeId, index)) == storeId
    ensures IndexFromKey(EntityKey(storeId, index)) == index
  {
    var key := EntityKey(storeId, index);
    KeyHigh(storeId, index);
    KeyLow(storeId, index);
    NarrowWiden(storeId);
    NarrowWiden(index);
    assert StoreIdFromKey(key) == (storeId as bv64) as bv32;
    assert IndexFromKey(key) == (index as bv64) as bv32;
  }

  /** Distinct (store, index) pairs give distinct keys. */
  lemma KeyInjective(s1: bv32, i1: bv32, s2: bv32, i2: bv32)
    requires EntityKey(s1, i1) == EntityKey(s2, i2)
    ensures s1 == s2 && i1 == i2
  {
    KeyRoundTrip(s1, i1);
    KeyRoundTrip(s2, i2);
  }
}
