/**
 * The open-addressing scheme shared by IntHashSet and LongHashSet: a table of `cap`
 * slots (a power of two), each either unused or holding one key; a key's home slot is
 * its mixed hash masked to the table, and probing walks forward one slot at a time,
 * wrapping at the end.
 *
 * The tables are given here as sequences (`keys`, `used`); the classes keep them in
 * arrays and state their invariants through the predicates below.
 */
module OpenAddressing {

  // ---------------------------------------------------------------------------
  // Hashing
  // ---------------------------------------------------------------------------

  /** IntHashSet.mix32: the 32-bit finaliser (>>> is the logical shift, * wraps). */
  function Mix32(x0: bv32): bv32 {
    var x1 := x0 ^ (x0 >> 16);
    var x2 := x1 * 0x7feb352d;
    var x3 := x2 ^ (x2 >> 15);
    var x4 := x3 * 0x846ca68b;
    x4 ^ (x4 >> 16)
  }

  /** LongHashSet.mix64To32: the 64-bit finaliser, truncated to its low 32 bits by `(int)`. */
  function Mix64To32(z0: bv64): bv32 {
    var z1 := z0 ^ (z0 >> 33);
    var z2 := z1 * 0xff51afd7ed558ccd;
    var z3 := z2 ^ (z2 >> 33);
    var z4 := z3 * 0xc4ceb9fe1a85ec53;
    var z5 := z4 ^ (z4 >> 33);
    (z5 & 0xFFFF_FFFF) as bv32
  }

  /** Which of the two sets a table belongs to, and so which mixer hashes its keys. */
  datatype Hasher = IntHasher | LongHasher

  /**
   * The unsigned 32-bit hash of a key. Keys are the Java int (IntHasher) or long
   * (LongHasher) values; `%` by 2^32 or 2^64 gives their two's-complement bits.
   */
  function Hash(hs: Hasher, k: int): nat {
    match hs
    case IntHasher => Mix32((k % 0x1_0000_0000) as bv32) as int
    case LongHasher => Mix64To32((k % 0x1_0000_0000_0000_0000) as bv64) as int
  }

  /**
   * The home slot `hash & (cap - 1)`: for a power-of-two `cap` the mask keeps the low
   * bits of the unsigned hash, which is the remainder by `cap`.
   */
  function Home(hs: Hasher, k: int, cap: int): (h: int)
    requires cap > 0
    ensures 0 <= h < cap
  {
    Hash(hs, k) % cap
  }

  /** The probe step `(idx + 1) & mask`: the next slot, wrapping to 0. */
  function Next(i: int, cap: int): (j: int)
    requires 0 <= i < cap
    ensures 0 <= j < cap
  {
    if i + 1 == cap then 0 else i + 1
  }

  /** How many probe steps lead from home slot `h` to slot `i`. */
  function Dist(h: int, i: int, cap: int): int {
    if i >= h then i - h else i - h + cap
  }

  /** One probe step from a slot other than the target `e` brings the probe one step closer to it. */
  lemma DistNext(h: int, i: int, e: int, cap: int)
    requires 0 <= h < cap && 0 <= i < cap && 0 <= e < cap && i != e
    requires Dist(h, i, cap) <= Dist(h, e, cap)
    ensures Dist(h, Next(i, cap), cap) == Dist(h, i, cap) + 1 <= Dist(h, e, cap)
  {
  }

  // ---------------------------------------------------------------------------
  // Capacities
  // ---------------------------------------------------------------------------

  predicate IsPowerOfTwo(n: int)
    decreases n
  {
    n == 1 || (n > 1 && n % 2 == 0 && IsPowerOfTwo(n / 2))
  }

  /**
   * The constructors' capacity loop `cap = 1; while (cap < initialCapacity) cap <<= 1;`:
   * the least power of two that is at least `initialCapacity`, and at least 1. Above
   * 2^30 the Java shift overflows and the loop never ends, hence the bound.
   */
  method CapacityFor(initialCapacity: int) returns (cap: int)
    requires initialCapacity <= 0x4000_0000
    ensures IsPowerOfTwo(cap) && cap >= 1 && cap >= initialCapacity
    ensures cap == 1 || cap / 2 < initialCapacity
  {
    cap := 1;
    while cap < initialCapacity
      invariant IsPowerOfTwo(cap) && 1 <= cap
      invariant cap == 1 || cap / 2 < initialCapacity
      decreases initialCapacity - cap
    {
      cap := cap * 2;
    }
  }

  /** A power of two is at most every power of two that is not below it... */
  lemma {:induction false} PowerOfTwoBelow(p: int, q: int)
    requires IsPowerOfTwo(p) && IsPowerOfTwo(q) && q < p
    ensures q <= p / 2
    decreases p
  {
    if q > 1 {
      PowerOfTwoBelow(p / 2, q / 2);
    }
  }

  /** ...so CapacityFor's result is the least power of two covering the request. */
  lemma CapacityIsLeast(initialCapacity: int, cap: int, p: int)
    requires IsPowerOfTwo(cap) && cap >= initialCapacity
    requires cap == 1 || cap / 2 < initialCapacity
    requires IsPowerOfTwo(p) && p >= initialCapacity
    ensures cap <= p
  {
    if p < cap {
      PowerOfTwoBelow(cap, p);
    }
  }

  /** Doubling a power of two (the rehash `length << 1`) gives a power of two. */
  lemma DoublePowerOfTwo(n: int)
    requires IsPowerOfTwo(n)
    ensures IsPowerOfTwo(2 * n)
  {
  }

  // ---------------------------------------------------------------------------
  // Tables
  // ---------------------------------------------------------------------------

  /** The number of used slots. */
  function CountTrue(s: seq<bool>): (n: nat)
    ensures n <= |s|
  {
    if s == [] then 0 else CountTrue(s[..|s| - 1]) + (if s[|s| - 1] then 1 else 0)
  }

  /** The keys held in used slots. */
  ghost function Contents(keys: seq<int>, used: seq<bool>): set<int>
    requires |keys| == |used|
  {
    set i | 0 <= i < |used| && used[i] :: keys[i]
  }

  /**
   * A well-formed table: no key is held twice, and every slot on the probe path from a
   * held key's home slot to the slot holding it is used (so a probe for the key never
   * stops at an unused slot before reaching it).
   */
  ghost predicate Wf(keys: seq<int>, used: seq<bool>, hs: Hasher)
  {
    && |keys| == |used| > 0
    && (forall i, j :: 0 <= i < j < |used| && used[i] && used[j] ==> keys[i] != keys[j])
    && (forall i, j :: 0 <= i < |used| && 0 <= j < |used| && used[i]
          && Dist(Home(hs, keys[i], |used|), j, |used|) < Dist(Home(hs, keys[i], |used|), i, |used|)
          ==> used[j])
  }

  /**
   * The probe for `k` has passed `d` slots from its home: each of them is used and holds
   * a key other than `k`.
   */
  ghost predicate ProbedPast(keys: seq<int>, used: seq<bool>, hs: Hasher, k: int, d: int)
    requires |keys| == |used| > 0
  {
    forall j :: 0 <= j < |used| && Dist(Home(hs, k, |used|), j, |used|) < d ==> used[j] && keys[j] != k
  }

  /** Passing one more used slot holding another key extends what the probe has passed. */
  lemma ProbeStep(keys: seq<int>, used: seq<bool>, hs: Hasher, k: int, idx: int)
    requires |keys| == |used| > 0 && 0 <= idx < |used| && used[idx] && keys[idx] != k
    requires ProbedPast(keys, used, hs, k, Dist(Home(hs, k, |used|), idx, |used|))
    ensures ProbedPast(keys, used, hs, k, Dist(Home(hs, k, |used|), idx, |used|) + 1)
  {
  }

  /** A table with no used slot is well formed and empty. */
  lemma EmptyTable(keys: seq<int>, used: seq<bool>, hs: Hasher)
    requires |keys| == |used| > 0
    requires forall i :: 0 <= i < |used| ==> !used[i]
    ensures Wf(keys, used, hs) && Contents(keys, used) == {} && CountTrue(used) == 0
  {
    EmptyCount(used);
  }

  lemma {:induction false} EmptyCount(used: seq<bool>)
    requires forall i :: 0 <= i < |used| ==> !used[i]
    ensures CountTrue(used) == 0
  {
    if used != [] {
      EmptyCount(used[..|used| - 1]);
    }
  }

  /** While some slot is unused, one can be named: the probe loops end there at the latest. */
  lemma {:induction false} FindUnused(used: seq<bool>) returns (e: int)
    requires CountTrue(used) < |used|
    ensures 0 <= e < |used| && !used[e]
  {
    var last := |used| - 1;
    if used[last] {
      e := FindUnused(used[..last]);
    } else {
      e := last;
    }
  }

  /** Marking one unused slot used adds one to the count. */
  lemma {:induction false} CountTrueMark(used: seq<bool>, i: int)
    requires 0 <= i < |used| && !used[i]
    ensures CountTrue(used[i := true]) == CountTrue(used) + 1
  {
    var last := |used| - 1;
    var marked := used[i := true];
    if i < last {
      assert marked[..last] == used[..last][i := true];
      CountTrueMark(used[..last], i);
    } else {
      assert marked[..last] == used[..last];
    }
  }

  /**
   * A probe that reaches an unused slot after passing only used slots holding other keys
   * proves the key absent.
   */
  lemma ProbeMiss(keys: seq<int>, used: seq<bool>, hs: Hasher, k: int, idx: int)
    requires Wf(keys, used, hs)
    requires 0 <= idx < |used| && !used[idx]
    requires ProbedPast(keys, used, hs, k, Dist(Home(hs, k, |used|), idx, |used|))
    ensures k !in Contents(keys, used)
  {
    var cap := |used|;
    var h := Home(hs, k, cap);
    forall i | 0 <= i < cap && used[i] ensures keys[i] != k {
      if Dist(h, i, cap) >= Dist(h, idx, cap) {
        // the probe path of keys[i] cannot cross the unused slot idx
        assert Dist(Home(hs, keys[i], cap), idx, cap) >= Dist(Home(hs, keys[i], cap), i, cap);
      }
    }
  }

  /**
   * Writing an absent key into the unused slot where its probe stopped keeps the table
   * well formed, adds exactly that key, and adds one used slot.
   */
  lemma InsertAt(keys: seq<int>, used: seq<bool>, hs: Hasher, k: int, idx: int)
    requires Wf(keys, used, hs)
    requires 0 <= idx < |used| && !used[idx]
    requires ProbedPast(keys, used, hs, k, Dist(Home(hs, k, |used|), idx, |used|))
    ensures k !in Contents(keys, used)
    ensures Wf(keys[idx := k], used[idx := true], hs)
    ensures Contents(keys[idx := k], used[idx := true]) == Contents(keys, used) + {k}
    ensures CountTrue(used[idx := true]) == CountTrue(used) + 1
  {
    ProbeMiss(keys, used, hs, k, idx);
    CountTrueMark(used, idx);
    InsertKeepsWf(keys, used, hs, k, idx);
    InsertAddsKey(keys, used, k, idx);
  }

  lemma InsertKeepsWf(keys: seq<int>, used: seq<bool>, hs: Hasher, k: int, idx: int)
    requires Wf(keys, used, hs) && k !in Contents(keys, used)
    requires 0 <= idx < |used| && !used[idx]
    requires ProbedPast(keys, used, hs, k, Dist(Home(hs, k, |used|), idx, |used|))
    ensures Wf(keys[idx := k], used[idx := true], hs)
  {
    var cap := |used|;
    var keys', used' := keys[idx := k], used[idx := true];
    forall i, j | 0 <= i < j < cap && used'[i] && used'[j] ensures keys'[i] != keys'[j] {
      if i == idx {
        assert keys[j] in Contents(keys, used);
      } else if j == idx {
        assert keys[i] in Contents(keys, used);
      }
    }
    forall i, j | 0 <= i < cap && 0 <= j < cap && used'[i]
        && Dist(Home(hs, keys'[i], cap), j, cap) < Dist(Home(hs, keys'[i], cap), i, cap)
      ensures used'[j]
    {
      if i != idx {
        assert used[i] && keys'[i] == keys[i];
      }
    }
  }

  lemma InsertAddsKey(keys: seq<int>, used: seq<bool>, k: int, idx: int)
    requires |keys| == |used| && 0 <= idx < |used| && !used[idx]
    ensures Contents(keys[idx := k], used[idx := true]) == Contents(keys, used) + {k}
  {
    var keys', used' := keys[idx := k], used[idx := true];
    forall x | x in Contents(keys', used') ensures x in Contents(keys, used) + {k} {
      var i :| 0 <= i < |used'| && used'[i] && keys'[i] == x;
      if i != idx {
        assert x in Contents(keys, used);
      }
    }
    forall x | x in Contents(keys, used) + {k} ensures x in Contents(keys', used') {
      if x == k {
        assert used'[idx] && keys'[idx] == k;
      } else {
        var i :| 0 <= i < |used| && used[i] && keys[i] == x;
        assert used'[i] && keys'[i] == x;
      }
    }
  }

  /** The prefix of the table up to `i + 1` holds what the prefix up to `i` holds, plus slot `i`. */
  lemma ContentsExtend(keys: seq<int>, used: seq<bool>, i: int)
    requires |keys| == |used| && 0 <= i < |used|
    ensures Contents(keys[..i + 1], used[..i + 1])
         == Contents(keys[..i], used[..i]) + (if used[i] then {keys[i]} else {})
  {
    var small := Contents(keys[..i], used[..i]);
    var big := Contents(keys[..i + 1], used[..i + 1]);
    forall x | x in big ensures x in small + (if used[i] then {keys[i]} else {}) {
      var j :| 0 <= j < i + 1 && used[..i + 1][j] && keys[..i + 1][j] == x;
      if j < i {
        assert used[..i][j] && keys[..i][j] == x;
      }
    }
    forall x | x in small ensures x in big {
      var j :| 0 <= j < i && used[..i][j] && keys[..i][j] == x;
      assert used[..i + 1][j] && keys[..i + 1][j] == x;
    }
    if used[i] {
      assert used[..i + 1][i] && keys[..i + 1][i] == keys[i];
    }
  }

  /** In a well-formed table, a used slot's key is not held by any earlier used slot. */
  lemma DistinctFromPrefix(keys: seq<int>, used: seq<bool>, hs: Hasher, i: int)
    requires Wf(keys, used, hs) && 0 <= i < |used| && used[i]
    ensures keys[i] !in Contents(keys[..i], used[..i])
  {
    forall j | 0 <= j < i && used[..i][j] ensures keys[..i][j] != keys[i] {
      assert used[j] && keys[..i][j] == keys[j];
    }
  }

  /** A prefix has no more used slots than the whole. */
  lemma {:induction false} CountTruePrefix(used: seq<bool>, i: int)
    requires 0 <= i <= |used|
    ensures CountTrue(used[..i]) <= CountTrue(used)
    ensures i < |used| ==> CountTrue(used[..i + 1]) == CountTrue(used[..i]) + (if used[i] then 1 else 0)
    decreases |used|
  {
    if i < |used| {
      assert used[..i + 1][..i] == used[..i];
      var last := |used| - 1;
      if i < last {
        assert used[..last][..i] == used[..i];
        CountTruePrefix(used[..last], i);
      } else {
        assert used[..i] == used[..last];
      }
    } else {
      assert used[..i] == used;
    }
  }

  /**
   * One step of a rehash, which re-adds the used slots of a well-formed table in slot
   * order: the prefix up to `i + 1` holds the prefix up to `i` plus slot `i`, whose key
   * (when used) is new to the prefix, and no prefix has more used slots than the table.
   */
  lemma RehashStep(keys: seq<int>, used: seq<bool>, hs: Hasher, i: int)
    requires Wf(keys, used, hs) && 0 <= i < |used|
    ensures Contents(keys[..i + 1], used[..i + 1])
         == Contents(keys[..i], used[..i]) + (if used[i] then {keys[i]} else {})
    ensures used[i] ==> keys[i] !in Contents(keys[..i], used[..i])
    ensures CountTrue(used[..i + 1]) == CountTrue(used[..i]) + (if used[i] then 1 else 0)
    ensures CountTrue(used[..i + 1]) <= CountTrue(used)
  {
    ContentsExtend(keys, used, i);
    if used[i] {
      DistinctFromPrefix(keys, used, hs, i);
    }
    CountTruePrefix(used, i);
    CountTruePrefix(used, i + 1);
  }

  /** The whole table is its own longest prefix. */
  lemma FullPrefix(keys: seq<int>, used: seq<bool>)
    requires |keys| == |used|
    ensures Contents(keys[..|keys|], used[..|used|]) == Contents(keys, used)
    ensures CountTrue(used[..|used|]) == CountTrue(used)
  {
    assert keys[..|keys|] == keys;
    assert used[..|used|] == used;
  }

  /** The empty prefix holds nothing. */
  lemma EmptyPrefix(keys: seq<int>, used: seq<bool>)
    requires |keys| == |used|
    ensures Contents(keys[..0], used[..0]) == {} && CountTrue(used[..0]) == 0
  {
  }
}
