/**
 * Specifications of the two UI-id list builders of UiComponentListFilterSupport
 * (and their private copies inside HideEntityUiApplier):
 *  - `Desired` : the baseline filtered by the two hide flags and the classifier;
 *  - `Dedup`   : the baseline snapshot, duplicates dropped, first occurrence kept.
 * Everything here is a pure function on sequences, with the lemmas that say what
 * the results mean.
 */
module IdLists {

  /** `s` has no repeated element. */
  predicate NoDuplicates(s: seq<int>) {
    forall i, j :: 0 <= i < j < |s| ==> s[i] != s[j]
  }

  /** `a` is obtained from `b` by deleting elements, keeping the order. */
  predicate IsSubsequence(a: seq<int>, b: seq<int>)
    decreases |b|
  {
    if a == [] then true
    else if b == [] then false
    else if a[|a| - 1] == b[|b| - 1] then IsSubsequence(a[..|a| - 1], b[..|b| - 1])
    else IsSubsequence(a, b[..|b| - 1])
  }

  /** Index of the first occurrence of `x` in `s`. */
  function IndexOf(s: seq<int>, x: int): (k: nat)
    requires x in s
    ensures k < |s| && s[k] == x && x !in s[..k]
  {
    if s[0] == x then 0 else assert s == [s[0]] + s[1..]; 1 + IndexOf(s[1..], x)
  }

  // ---------------------------------------------------------------------------
  // Classification and filtering
  // ---------------------------------------------------------------------------

  /**
   * A classifier flag lookup: ids outside `0 <= id < |flags|` are "not in the category"
   * (the out-of-range branch of UiComponentCache.isCombatTextId / isHealthStatId).
   */
  predicate Flagged(flags: seq<bool>, id: int) {
    0 <= id < |flags| && flags[id]
  }

  /** An id survives the filter unless a set hide flag matches its category. */
  predicate Keep(id: int, hideCombat: bool, hideHealth: bool, combat: seq<bool>, health: seq<bool>) {
    !(hideCombat && Flagged(combat, id)) && !(hideHealth && Flagged(health, id))
  }

  /** The desired id list: the kept ids of `baseline`, in baseline order. */
  function Desired(baseline: seq<int>, hideCombat: bool, hideHealth: bool,
                   combat: seq<bool>, health: seq<bool>): seq<int>
  {
    if baseline == [] then []
    else
      var last := baseline[|baseline| - 1];
      Desired(baseline[..|baseline| - 1], hideCombat, hideHealth, combat, health)
        + (if Keep(last, hideCombat, hideHealth, combat, health) then [last] else [])
  }

  /** The filter only deletes: its result is a subsequence of the baseline, in order. */
  lemma {:induction false} DesiredIsSubsequence(baseline: seq<int>, hideCombat: bool, hideHealth: bool,
                                                combat: seq<bool>, health: seq<bool>)
    ensures IsSubsequence(Desired(baseline, hideCombat, hideHealth, combat, health), baseline)
    decreases |baseline|
  {
    if baseline != [] {
      var init := baseline[..|baseline| - 1];
      var last := baseline[|baseline| - 1];
      DesiredIsSubsequence(init, hideCombat, hideHealth, combat, health);
      var d := Desired(init, hideCombat, hideHealth, combat, health);
      if Keep(last, hideCombat, hideHealth, combat, health) {
        assert (d + [last])[..|d + [last]| - 1] == d;
      } else {
        SubsequenceOfPrefix(d, init, last);
        assert init + [last] == baseline;
        assert d + [] == d;
      }
    }
  }

  /** A subsequence of a prefix is a subsequence of the whole. */
  lemma {:induction false} SubsequenceOfPrefix(a: seq<int>, b: seq<int>, x: int)
    requires IsSubsequence(a, b)
    ensures IsSubsequence(a, b + [x])
    decreases |b|, 1
  {
    if a != [] {
      var b' := b + [x];
      assert b'[..|b'| - 1] == b;
      if a[|a| - 1] == x {
        SubsequenceDropLast(a, b);
      }
    }
  }

  /** Dropping the last element of a subsequence keeps it a subsequence. */
  lemma {:induction false} SubsequenceDropLast(a: seq<int>, b: seq<int>)
    requires a != [] && IsSubsequence(a, b)
    ensures IsSubsequence(a[..|a| - 1], b)
    decreases |b|, 0
  {
    var a' := a[..|a| - 1];
    if a[|a| - 1] == b[|b| - 1] {
      if a' != [] {
        SubsequenceOfPrefix(a', b[..|b| - 1], b[|b| - 1]);
        assert b[..|b| - 1] + [b[|b| - 1]] == b;
      }
    } else {
      SubsequenceDropLast(a, b[..|b| - 1]);
      if a' != [] {
        SubsequenceOfPrefix(a', b[..|b| - 1], b[|b| - 1]);
        assert b[..|b| - 1] + [b[|b| - 1]] == b;
      }
    }
  }

  /** Every element of a subsequence occurs in the sequence. */
  lemma {:induction false} SubsequenceElements(a: seq<int>, b: seq<int>, x: int)
    requires IsSubsequence(a, b) && x in a
    ensures x in b
    decreases |b|
  {
    if a[|a| - 1] == b[|b| - 1] {
      var a', b' := a[..|a| - 1], b[..|b| - 1];
      assert a == a' + [a[|a| - 1]];
      if x != a[|a| - 1] {
        SubsequenceElements(a', b', x);
      }
      assert b == b' + [b[|b| - 1]];
    } else {
      SubsequenceElements(a, b[..|b| - 1], x);
      assert b == b[..|b| - 1] + [b[|b| - 1]];
    }
  }

  /**
   * Membership, both directions: an id is in the desired list exactly when it is in the
   * baseline and no set hide flag matches it. In particular no combat-text id survives
   * `hideDamageNumbers`, no health-stat id survives `hideHealthBar`, every other
   * baseline id is kept, and nothing outside the baseline is ever introduced.
   */
  lemma {:induction false} DesiredMembership(baseline: seq<int>, hideCombat: bool, hideHealth: bool,
                                             combat: seq<bool>, health: seq<bool>, id: int)
    ensures id in Desired(baseline, hideCombat, hideHealth, combat, health)
            <==> id in baseline && Keep(id, hideCombat, hideHealth, combat, health)
    decreases |baseline|
  {
    if baseline != [] {
      var init := baseline[..|baseline| - 1];
      DesiredMembership(init, hideCombat, hideHealth, combat, health, id);
      assert baseline == init + [baseline[|baseline| - 1]];
    }
  }

  /** Ids the classifier does not know (outside its table) are always kept. */
  lemma OutOfRangeIdsKept(baseline: seq<int>, hideCombat: bool, hideHealth: bool,
                          combat: seq<bool>, health: seq<bool>, id: int)
    requires id in baseline
    requires (id < 0 || id >= |combat|) && (id < 0 || id >= |health|)
    ensures id in Desired(baseline, hideCombat, hideHealth, combat, health)
  {
    DesiredMembership(baseline, hideCombat, hideHealth, combat, health, id);
  }

  /** With both hide flags off the filter is the identity. */
  lemma {:induction false} DesiredHideNothing(baseline: seq<int>, combat: seq<bool>, health: seq<bool>)
    ensures Desired(baseline, false, false, combat, health) == baseline
    decreases |baseline|
  {
    if baseline != [] {
      DesiredHideNothing(baseline[..|baseline| - 1], combat, health);
      assert baseline[..|baseline| - 1] + [baseline[|baseline| - 1]] == baseline;
    }
  }

  /** Filtering twice with the same settings is filtering once. */
  lemma {:induction false} DesiredIdempotent(baseline: seq<int>, hideCombat: bool, hideHealth: bool,
                                             combat: seq<bool>, health: seq<bool>)
    ensures var d := Desired(baseline, hideCombat, hideHealth, combat, health);
            Desired(d, hideCombat, hideHealth, combat, health) == d
    decreases |baseline|
  {
    if baseline != [] {
      var init := baseline[..|baseline| - 1];
      var last := baseline[|baseline| - 1];
      var d := Desired(init, hideCombat, hideHealth, combat, health);
      DesiredIdempotent(init, hideCombat, hideHealth, combat, health);
      if Keep(last, hideCombat, hideHealth, combat, health) {
        assert (d + [last])[..|d + [last]| - 1] == d;
        assert Desired(d + [last], hideCombat, hideHealth, combat, health)
            == Desired(d, hideCombat, hideHealth, combat, health) + [last];
      } else {
        assert d + [] == d;
      }
    }
  }

  /** A duplicate-free baseline gives a duplicate-free desired list. */
  lemma {:induction false} DesiredKeepsNoDuplicates(baseline: seq<int>, hideCombat: bool, hideHealth: bool,
                                                    combat: seq<bool>, health: seq<bool>)
    requires NoDuplicates(baseline)
    ensures NoDuplicates(Desired(baseline, hideCombat, hideHealth, combat, health))
    decreases |baseline|
  {
    if baseline != [] {
      var init := baseline[..|baseline| - 1];
      var last := baseline[|baseline| - 1];
      DesiredKeepsNoDuplicates(init, hideCombat, hideHealth, combat, health);
      DesiredMembership(init, hideCombat, hideHealth, combat, health, last);
      assert last !in init;
    }
  }

  // ---------------------------------------------------------------------------
  // Baseline snapshot: duplicates dropped, first occurrence kept
  // ---------------------------------------------------------------------------

  /** The distinct elements of `s` in order of first occurrence. */
  function Dedup(s: seq<int>): seq<int>
  {
    if s == [] then []
    else
      var d := Dedup(s[..|s| - 1]);
      if s[|s| - 1] in d then d else d + [s[|s| - 1]]
  }

  /** Dedup keeps exactly the elements of its input. */
  lemma {:induction false} DedupMembership(s: seq<int>, x: int)
    ensures x in Dedup(s) <==> x in s
    decreases |s|
  {
    if s != [] {
      DedupMembership(s[..|s| - 1], x);
      assert s == s[..|s| - 1] + [s[|s| - 1]];
    }
  }

  /** Dedup's result has no duplicates. */
  lemma {:induction false} DedupNoDuplicates(s: seq<int>)
    ensures NoDuplicates(Dedup(s))
    decreases |s|
  {
    if s != [] {
      DedupNoDuplicates(s[..|s| - 1]);
    }
  }

  /**
   * Dedup lists the distinct elements in order of first occurrence: an element
   * listed earlier first occurs earlier in the input.
   */
  lemma {:induction false} DedupFirstOccurrenceOrder(s: seq<int>, i: int, j: int)
    requires 0 <= i < j < |Dedup(s)|
    ensures Dedup(s)[i] in s && Dedup(s)[j] in s
    ensures IndexOf(s, Dedup(s)[i]) < IndexOf(s, Dedup(s)[j])
    decreases |s|
  {
    var p := s[..|s| - 1];
    var x := s[|s| - 1];
    var d := Dedup(p);
    assert s == p + [x];
    DedupMembership(p, d[i]);
    if x in d {
      DedupFirstOccurrenceOrder(p, i, j);
      IndexOfPrefix(p, x, d[i]);
      IndexOfPrefix(p, x, d[j]);
    } else {
      if j < |d| {
        DedupFirstOccurrenceOrder(p, i, j);
        DedupMembership(p, d[j]);
        IndexOfPrefix(p, x, d[i]);
        IndexOfPrefix(p, x, d[j]);
      } else {
        DedupMembership(p, x);
        IndexOfPrefix(p, x, d[i]);
        IndexOfLast(p, x);
      }
    }
  }

  /** The first occurrence of an element of `p` is unchanged by appending. */
  lemma IndexOfPrefix(p: seq<int>, x: int, y: int)
    requires y in p
    ensures y in p + [x] && IndexOf(p + [x], y) == IndexOf(p, y)
  {
    var k := IndexOf(p, y);
    assert (p + [x])[..k] == p[..k];
    assert (p + [x])[k] == y;
    IndexOfUnique(p + [x], y, k);
  }

  /** The first occurrence is the only index holding `x` with no `x` before it. */
  lemma IndexOfUnique(s: seq<int>, x: int, k: nat)
    requires k < |s| && s[k] == x && x !in s[..k]
    ensures IndexOf(s, x) == k
  {
  }

  /** A new element appended to `p` first occurs at index |p|. */
  lemma IndexOfLast(p: seq<int>, x: int)
    requires x !in p
    ensures IndexOf(p + [x], x) == |p|
  {
    assert (p + [x])[..|p|] == p;
    IndexOfUnique(p + [x], x, |p|);
  }

  /** Dedup is the identity on duplicate-free input (in particular on length <= 1). */
  lemma {:induction false} DedupOfDistinct(s: seq<int>)
    requires NoDuplicates(s)
    ensures Dedup(s) == s
    decreases |s|
  {
    if s != [] {
      var p := s[..|s| - 1];
      DedupOfDistinct(p);
      DedupMembership(p, s[|s| - 1]);
      assert s[|s| - 1] !in p;
      assert p + [s[|s| - 1]] == s;
    }
  }

  /** Taking the baseline snapshot twice is taking it once. */
  lemma DedupIdempotent(s: seq<int>)
    ensures Dedup(Dedup(s)) == Dedup(s)
  {
    DedupNoDuplicates(s);
    DedupOfDistinct(Dedup(s));
  }
}
