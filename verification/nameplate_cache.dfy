/**
 * NameplateBaselineCache: per player, the last visible nameplate (the baseline to put
 * back) and whether the plugin currently has the nameplate hidden. Entries are keyed by
 * the 64-bit entity key, read here as the unsigned integer of its bit pattern.
 */
module NameplateBaselineCache {
  import opened Wrappers
  import opened Host
  import EntityKeys

  /** Entry: the saved baseline (null: none yet) and the hidden flag. */
  datatype Entry = Entry(baseline: Option<Nameplate>, hidden: bool)

  /** A new Entry: no baseline, not hidden. */
  const NewEntry := Entry(None, false)

  /**
   * entityKey(ref): a valid reference packs its store identity and index; an invalid one
   * (or one whose store cannot be read) falls back to the identity hash of the reference
   * object itself, `refIdentity`, widened to a long.
   */
  function KeyOf(ref: Ref, refIdentity: bv32): int {
    if ref.valid then EntityKeys.EntityKey(ref.entity.storeId, ref.entity.index) as int
    else EntityKeys.SignExtend(refIdentity) as int
  }

  /**
   * Two valid references to different entities never share an entry. An entity is named by
   * its store's identity hash and its index, so stores whose hashes collide are not told apart.
   */
  lemma KeyOfSeparatesEntities(r1: Ref, h1: bv32, r2: Ref, h2: bv32)
    requires r1.valid && r2.valid && r1.entity != r2.entity
    ensures KeyOf(r1, h1) != KeyOf(r2, h2)
  {
    var k1 := EntityKeys.EntityKey(r1.entity.storeId, r1.entity.index);
    var k2 := EntityKeys.EntityKey(r2.entity.storeId, r2.entity.index);
    if k1 == k2 {
      EntityKeys.KeyInjective(r1.entity.storeId, r1.entity.index, r2.entity.storeId, r2.entity.index);
    }
    AsIntInjective(k1, k2);
  }

  /**
   * The separation above is for valid references only: the identity-hash key of an
   * invalid reference can coincide with the packed key of a valid one (store identity 0,
   * index 5, against an invalid reference whose identity hash is 5).
   */
  lemma InvalidKeyCanCollide()
    ensures KeyOf(Ref(false, EntityId(7, 7)), 5) == KeyOf(Ref(true, EntityId(0, 5)), 0)
  {
  }

  /** Reading a bit pattern as an unsigned integer keeps patterns apart. */
  lemma AsIntInjective(a: bv64, b: bv64)
    requires a != b
    ensures a as int != b as int
  {
    assert (a as int) as bv64 == a;
    assert (b as int) as bv64 == b;
  }

  class NameplateCache {
    /** ENTRIES. */
    var entries: map<int, Entry>

    constructor ()
      ensures entries == map[]
    {
      entries := map[];
    }

    /** getOrCreate(key) (computeIfAbsent): the existing entry, or a new one stored under `key`. */
    method GetOrCreate(key: int) returns (e: Entry)
      modifies this
      ensures key in entries && e == entries[key]
      ensures key in old(entries) ==> entries == old(entries)
      ensures key !in old(entries) ==> entries == old(entries)[key := NewEntry] && e == NewEntry
    {
      if key !in entries {
        entries := entries[key := NewEntry];
      }
      e := entries[key];
    }

    /** get(key): the entry, or None; never creates one. */
    function Get(key: int): (r: Option<Entry>)
      reads this
      ensures r.Some? <==> key in entries
      ensures r.Some? ==> r.value == entries[key]
    {
      if key in entries then Some(entries[key]) else None
    }

    /** remove(key): drops the entry for `key` and keeps every other. */
    method Remove(key: int)
      modifies this
      ensures entries == old(entries) - {key}
    {
      entries := entries - {key};
    }

    /** remove(ref): remove(entityKey(ref)). */
    method RemoveRef(ref: Ref, refIdentity: bv32)
      modifies this
      ensures entries == old(entries) - {KeyOf(ref, refIdentity)}
    {
      Remove(KeyOf(ref, refIdentity));
    }

    /** clearAll(). */
    method ClearAll()
      modifies this
      ensures entries == map[]
    {
      entries := map[];
    }
  }
}
