/**
 * LongHashSet: the primitive long set of live entity keys that the baseline sweep tests
 * cached keys against. Same open-addressing table as IntHashSet (`keys`, `used`, `size`),
 * with the length minus one as the mask and the 64-bit mixer as the hash.
 */
module LongHashSets {
  import opened OpenAddressing

  class LongHashSet {
    var keys: array<int>
    var used: array<bool>
    var size: int

    /** The table invariant, without the load bound. */
    ghost predicate Table()
      reads this, keys, used
    {
      && Wf(keys[..], used[..], LongHasher)
      && IsPowerOfTwo(keys.Length)
      && size == CountTrue(used[..])
      && size == |Contents(keys[..], used[..])|
    }

    /** The table invariant: at most half of the slots are used. */
    ghost predicate Valid()
      reads this, keys, used
    {
      Table() && 2 * size <= keys.Length
    }

    /** The set the table represents. */
    ghost function Elements(): set<int>
      reads this, keys, used
      requires Table()
    {
      Contents(keys[..], used[..])
    }

    /** LongHashSet(initialCapacity): an empty table of the least power-of-two length covering the request. */
    constructor(initialCapacity: int)
      requires initialCapacity <= 0x4000_0000
      ensures Valid() && Elements() == {}
      ensures IsPowerOfTwo(keys.Length) && keys.Length >= initialCapacity
      ensures keys.Length == 1 || keys.Length / 2 < initialCapacity
      ensures fresh(keys) && fresh(used)
    {
      var cap := CapacityFor(initialCapacity);
      keys := new int[cap](_ => 0);
      used := new bool[cap](_ => false);
      size := 0;
      new;
      EmptyTable(keys[..], used[..], LongHasher);
    }

    /**
     * add(key): doubles the table first when one more element would bring the load to one
     * half (whether or not `key` is already present), then probes for `key` and inserts it
     * when it is absent.
     */
    method Add(key: int)
      requires Valid()
      modifies this, keys, used
      ensures Valid() && Elements() == old(Elements()) + {key}
      ensures size == if key in old(Elements()) then old(size) else old(size) + 1
      ensures keys.Length == if 2 * (old(size) + 1) >= old(keys.Length) then 2 * old(keys.Length) else old(keys.Length)
      ensures (keys == old(keys) && used == old(used)) || (fresh(keys) && fresh(used))
    {
      if (size + 1) * 2 >= keys.Length {
        Rehash(keys.Length * 2);
      }
      Place(key);
    }

    /**
     * The probe loop shared by add and contains: from the home slot of `key`, forward past
     * used slots holding other keys, to the slot holding `key` or to the first unused slot.
     */
    method Probe(key: int) returns (idx: int, found: bool)
      requires Table() && size < keys.Length
      ensures 0 <= idx < keys.Length
      ensures found <==> key in Elements()
      ensures found ==> used[idx] && keys[idx] == key
      ensures !found ==> !used[idx] && ProbedPast(keys[..], used[..], LongHasher, key, Dist(Home(LongHasher, key, keys.Length), idx, keys.Length))
    {
      var cap := keys.Length;
      idx := Home(LongHasher, key, cap);
      ghost var h := idx;
      ghost var e := FindUnused(used[..]);
      while used[idx]
        invariant 0 <= idx < cap
        invariant Dist(h, idx, cap) <= Dist(h, e, cap)
        invariant ProbedPast(keys[..], used[..], LongHasher, key, Dist(h, idx, cap))
        decreases Dist(h, e, cap) - Dist(h, idx, cap)
      {
        if keys[idx] == key {
          assert used[..][idx] && keys[..][idx] == key;
          return idx, true;
        }
        ProbeStep(keys[..], used[..], LongHasher, key, idx);
        DistNext(h, idx, e, cap);
        idx := Next(idx, cap);
      }
      ProbeMiss(keys[..], used[..], LongHasher, key, idx);
      found := false;
    }

    /** contains(key): whether the probe for `key` reaches a slot holding it. */
    method Contains(key: int) returns (b: bool)
      requires Valid()
      ensures b <==> key in Elements()
    {
      var _, found := Probe(key);
      b := found;
    }

    /** The insertion of add: an absent key goes into the unused slot its probe stopped at. */
    method Place(key: int)
      requires Table() && 2 * (size + 1) <= keys.Length
      modifies keys, used, this`size
      ensures Valid() && Elements() == old(Elements()) + {key}
      ensures size == if key in old(Elements()) then old(size) else old(size) + 1
    {
      var idx, found := Probe(key);
      if !found {
        Occupy(idx, key);
      }
    }

    /** Marks slot `idx`, where the probe for an absent `key` stopped, used and holding `key`. */
    method Occupy(idx: int, key: int)
      requires Table() && 0 <= idx < keys.Length && !used[idx]
      requires ProbedPast(keys[..], used[..], LongHasher, key, Dist(Home(LongHasher, key, keys.Length), idx, keys.Length))
      modifies keys, used, this`size
      ensures Table() && Elements() == old(Elements()) + {key} && size == old(size) + 1
    {
      ghost var keys0, used0 := keys[..], used[..];
      InsertAt(keys0, used0, LongHasher, key, idx);
      used[idx] := true;
      keys[idx] := key;
      size := size + 1;
      assert keys[..] == keys0[idx := key] && used[..] == used0[idx := true];
    }

    /**
     * rehash(newCap): fresh arrays of the doubled length, every used slot of the old table
     * re-added in slot order. Inside rehash add's own load check never fires, so each
     * re-add is the probe-and-insert step alone.
     */
    method Rehash(newCap: int)
      requires Valid() && newCap == 2 * keys.Length
      modifies this
      ensures Valid() && Elements() == old(Elements()) && size == old(size)
      ensures keys.Length == newCap && fresh(keys) && fresh(used)
    {
      // the old arrays are only read from here on, so their contents are taken as keys
      var oldKeys, oldUsed := keys[..], used[..];
      keys := new int[newCap](_ => 0);
      used := new bool[newCap](_ => false);
      size := 0;
      DoublePowerOfTwo(|oldKeys|);
      EmptyTable(keys[..], used[..], LongHasher);
      ReaddAll(oldKeys, oldUsed);
    }

    /** The re-add loop of rehash, into the new (empty) arrays. */
    method ReaddAll(oldKeys: seq<int>, oldUsed: seq<bool>)
      requires Table() && size == 0 && Wf(oldKeys, oldUsed, LongHasher)
      requires 2 * CountTrue(oldUsed) < keys.Length
      modifies keys, used, this`size
      ensures Valid() && Elements() == Contents(oldKeys, oldUsed) && size == CountTrue(oldUsed)
    {
      EmptyPrefix(oldKeys, oldUsed);
      for i := 0 to |oldKeys|
        invariant Table()
        invariant Elements() == Contents(oldKeys[..i], oldUsed[..i])
        invariant size == CountTrue(oldUsed[..i])
      {
        ReaddSlot(oldKeys, oldUsed, i);
      }
      FullPrefix(oldKeys, oldUsed);
    }

    /** One iteration of the re-add loop: slot `i` of the old table, re-added when used. */
    method ReaddSlot(oldKeys: seq<int>, oldUsed: seq<bool>, i: int)
      requires Table() && Wf(oldKeys, oldUsed, LongHasher) && 0 <= i < |oldKeys|
      requires 2 * CountTrue(oldUsed) < keys.Length
      requires Elements() == Contents(oldKeys[..i], oldUsed[..i]) && size == CountTrue(oldUsed[..i])
      modifies keys, used, this`size
      ensures Table() && Elements() == Contents(oldKeys[..i + 1], oldUsed[..i + 1]) && size == CountTrue(oldUsed[..i + 1])
    {
      RehashStep(oldKeys, oldUsed, LongHasher, i);
      if oldUsed[i] {
        // add's load check, (size + 1) * 2 >= keys.length, is false here
        assert (size + 1) * 2 < keys.Length;
        Place(oldKeys[i]);
      }
    }
  }
}
