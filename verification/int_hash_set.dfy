/**
 * IntHashSet: the primitive int set the baseline sweep uses to collect store ids. Two
 * parallel arrays (`values`, `used`) form an open-addressing table whose length is a
 * power of two; `mask` is that length minus one and `count` the number of used slots.
 * The table doubles when an insertion would bring the load to one half.
 */
module IntHashSets {
  import opened OpenAddressing

  class IntHashSet {
    var values: array<int>
    var used: array<bool>
    var mask: int
    var count: int

    /** The table invariant, without the load bound. */
    ghost predicate Table()
      reads this, values, used
    {
      && Wf(values[..], used[..], IntHasher)
      && IsPowerOfTwo(values.Length)
      && mask == values.Length - 1
      && count == CountTrue(used[..])
      && count == |Contents(values[..], used[..])|
    }

    /** The table invariant: at most half of the slots are used. */
    ghost predicate Valid()
      reads this, values, used
    {
      Table() && 2 * count <= values.Length
    }

    /** The set the table represents. */
    ghost function Elements(): set<int>
      reads this, values, used
      requires Table()
    {
      Contents(values[..], used[..])
    }

    /** IntHashSet(initialCapacity): an empty table of the least power-of-two length covering the request. */
    constructor(initialCapacity: int)
      requires initialCapacity <= 0x4000_0000
      ensures Valid() && Elements() == {}
      ensures IsPowerOfTwo(values.Length) && values.Length >= initialCapacity
      ensures values.Length == 1 || values.Length / 2 < initialCapacity
      ensures fresh(values) && fresh(used)
    {
      var cap := CapacityFor(initialCapacity);
      values := new int[cap](_ => 0);
      used := new bool[cap](_ => false);
      mask := cap - 1;
      count := 0;
      new;
      EmptyTable(values[..], used[..], IntHasher);
    }

    /**
     * add(v): doubles the table first when one more element would bring the load to one
     * half (whether or not `v` is already present), then probes for `v` and inserts it
     * when it is absent.
     */
    method Add(v: int)
      requires Valid()
      modifies this, values, used
      ensures Valid() && Elements() == old(Elements()) + {v}
      ensures count == if v in old(Elements()) then old(count) else old(count) + 1
      ensures values.Length == if 2 * (old(count) + 1) >= old(values.Length) then 2 * old(values.Length) else old(values.Length)
      ensures (values == old(values) && used == old(used)) || (fresh(values) && fresh(used))
    {
      if (count + 1) * 2 >= values.Length {
        Rehash(values.Length * 2);
      }
      Place(v);
    }

    /**
     * The probe of add: from the home slot of `v`, forward past used slots holding other
     * values, to the slot holding `v` or to the first unused slot.
     */
    method Probe(v: int) returns (idx: int, found: bool)
      requires Table() && count < values.Length
      ensures 0 <= idx < values.Length
      ensures found <==> v in Elements()
      ensures found ==> used[idx] && values[idx] == v
      ensures !found ==> !used[idx] && ProbedPast(values[..], used[..], IntHasher, v, Dist(Home(IntHasher, v, values.Length), idx, values.Length))
    {
      var cap := values.Length;
      idx := Home(IntHasher, v, cap);
      ghost var h := idx;
      ghost var e := FindUnused(used[..]);
      while used[idx]
        invariant 0 <= idx < cap
        invariant Dist(h, idx, cap) <= Dist(h, e, cap)
        invariant ProbedPast(values[..], used[..], IntHasher, v, Dist(h, idx, cap))
        decreases Dist(h, e, cap) - Dist(h, idx, cap)
      {
        if values[idx] == v {
          assert used[..][idx] && values[..][idx] == v;
          return idx, true;
        }
        ProbeStep(values[..], used[..], IntHasher, v, idx);
        DistNext(h, idx, e, cap);
        idx := Next(idx, cap);
      }
      ProbeMiss(values[..], used[..], IntHasher, v, idx);
      found := false;
    }

    /** The insertion of add: an absent value goes into the unused slot its probe stopped at. */
    method Place(v: int)
      requires Table() && 2 * (count + 1) <= values.Length
      modifies values, used, this`count
      ensures Valid() && Elements() == old(Elements()) + {v}
      ensures count == if v in old(Elements()) then old(count) else old(count) + 1
    {
      var idx, found := Probe(v);
      if !found {
        Occupy(idx, v);
      }
    }

    /** Marks slot `idx`, where the probe for an absent `v` stopped, used and holding `v`. */
    method Occupy(idx: int, v: int)
      requires Table() && 0 <= idx < values.Length && !used[idx]
      requires ProbedPast(values[..], used[..], IntHasher, v, Dist(Home(IntHasher, v, values.Length), idx, values.Length))
      modifies values, used, this`count
      ensures Table() && Elements() == old(Elements()) + {v} && count == old(count) + 1
    {
      ghost var keys0, used0 := values[..], used[..];
      InsertAt(keys0, used0, IntHasher, v, idx);
      used[idx] := true;
      values[idx] := v;
      count := count + 1;
      assert values[..] == keys0[idx := v] && used[..] == used0[idx := true];
    }

    /**
     * rehash(newCap): fresh arrays of the doubled length, every used slot of the old table
     * re-added in slot order. Inside rehash add's own load check never fires, so each
     * re-add is the probe-and-insert step alone.
     */
    method Rehash(newCap: int)
      requires Valid() && newCap == 2 * values.Length
      modifies this
      ensures Valid() && Elements() == old(Elements()) && count == old(count)
      ensures values.Length == newCap && fresh(values) && fresh(used)
    {
      // the old arrays are only read from here on, so their contents are taken as values
      var oldValues, oldUsed := values[..], used[..];
      values := new int[newCap](_ => 0);
      used := new bool[newCap](_ => false);
      mask := newCap - 1;
      count := 0;
      DoublePowerOfTwo(|oldValues|);
      EmptyTable(values[..], used[..], IntHasher);
      ReaddAll(oldValues, oldUsed);
    }

    /** The re-add loop of rehash, into the new (empty) arrays. */
    method ReaddAll(oldValues: seq<int>, oldUsed: seq<bool>)
      requires Table() && count == 0 && Wf(oldValues, oldUsed, IntHasher)
      requires 2 * CountTrue(oldUsed) < values.Length
      modifies values, used, this`count
      ensures Valid() && Elements() == Contents(oldValues, oldUsed) && count == CountTrue(oldUsed)
    {
      EmptyPrefix(oldValues, oldUsed);
      for i := 0 to |oldValues|
        invariant Table()
        invariant Elements() == Contents(oldValues[..i], oldUsed[..i])
        invariant count == CountTrue(oldUsed[..i])
      {
        ReaddSlot(oldValues, oldUsed, i);
      }
      FullPrefix(oldValues, oldUsed);
    }

    /** One iteration of the re-add loop: slot `i` of the old table, re-added when used. */
    method ReaddSlot(oldValues: seq<int>, oldUsed: seq<bool>, i: int)
      requires Table() && Wf(oldValues, oldUsed, IntHasher) && 0 <= i < |oldValues|
      requires 2 * CountTrue(oldUsed) < values.Length
      requires Elements() == Contents(oldValues[..i], oldUsed[..i]) && count == CountTrue(oldUsed[..i])
      modifies values, used, this`count
      ensures Table() && Elements() == Contents(oldValues[..i + 1], oldUsed[..i + 1]) && count == CountTrue(oldUsed[..i + 1])
    {
      RehashStep(oldValues, oldUsed, IntHasher, i);
      if oldUsed[i] {
        // add's load check, (count + 1) * 2 >= values.length, is false here
        assert (count + 1) * 2 < values.Length;
        Place(oldValues[i]);
      }
    }

    /** isEmpty() */
    function IsEmpty(): (b: bool)
      reads this, values, used
      requires Valid()
      ensures b <==> Elements() == {}
    {
      count == 0
    }

    /** capacity(): the table length, a power of two at least twice the element count. */
    function Capacity(): (c: int)
      reads this, values, used
      requires Valid()
      ensures c == values.Length && IsPowerOfTwo(c) && 2 * |Elements()| <= c
    {
      values.Length
    }

    /** count(): the number of elements. */
    function Count(): (n: int)
      reads this, values, used
      requires Valid()
      ensures n == |Elements()|
    {
      count
    }

    /** isUsedAt(idx): whether slot `idx` holds an element. */
    function IsUsedAt(idx: int): (b: bool)
      reads this, values, used
      requires Valid() && 0 <= idx < values.Length
      ensures b ==> values[idx] in Elements()
    {
      used[idx]
    }

    /** getValueAt(idx): the value stored in slot `idx` (meaningful when the slot is used). */
    function GetValueAt(idx: int): (r: int)
      reads this, values, used
      requires Valid() && 0 <= idx < values.Length
      ensures used[idx] ==> r in Elements()
    {
      values[idx]
    }

    /** Scanning the slots with isUsedAt/getValueAt enumerates exactly the elements. */
    lemma Enumerates(x: int)
      requires Valid()
      ensures x in Elements() <==> exists i :: 0 <= i < Capacity() && IsUsedAt(i) && GetValueAt(i) == x
    {
      if x in Elements() {
        var i :| 0 <= i < used.Length && used[i] && values[i] == x;
        assert IsUsedAt(i) && GetValueAt(i) == x;
      }
    }
  }
}
