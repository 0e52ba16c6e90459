/**
 * UiComponentListFilterSupport: the two loops that build id lists. HideEntityUiApplier
 * carries private copies of both with identical bodies; the applier model calls these.
 */
module UiComponentListFilterSupport {
  import opened IdLists
  import opened Config
  import UiComponentCache

  /**
   * True when filtering `baseline` with these flags queries the classifier with an id
   * outside its table, which clears `ready`. A query is made only for a set flag, and
   * both flag arrays always have the same length.
   */
  predicate QueriesOutOfRange(baseline: seq<int>, settings: TargetSettings, tableLength: nat) {
    (settings.hideDamageNumbers || settings.hideHealthBar)
    && exists k :: 0 <= k < |baseline| && !(0 <= baseline[k] < tableLength)
  }

  /**
   * computeDesiredIds: copy every baseline id that no set hide flag matches into a fresh
   * buffer, trimmed to the count. The result is `Desired(...)` of the classifier's
   * current flags; the classifier's `ready` flag is cleared exactly when some id is
   * queried out of range.
   */
  method ComputeDesiredIds(baseline: seq<int>, settings: TargetSettings, cache: UiComponentCache.Classifier)
    returns (desired: seq<int>)
    requires cache.Valid()
    modifies cache`ready
    ensures desired == Desired(baseline, settings.hideDamageNumbers, settings.hideHealthBar,
                               cache.combatFlags, cache.healthFlags)
    ensures cache.ready == (old(cache.ready) && !QueriesOutOfRange(baseline, settings, |cache.combatFlags|))
  {
    var hideCombat := settings.hideDamageNumbers;
    var hideHealth := settings.hideHealthBar;
    var out := new int[|baseline|];
    var count := 0;
    for i := 0 to |baseline|
      invariant 0 <= count <= i
      invariant out[..count] == Desired(baseline[..i], hideCombat, hideHealth, cache.combatFlags, cache.healthFlags)
      invariant cache.ready == (old(cache.ready) && !QueriesOutOfRange(baseline[..i], settings, |cache.combatFlags|))
    {
      var id := baseline[i];
      DesiredStep(baseline, settings, cache.combatFlags, cache.healthFlags, i);
      QueriesStep(baseline, settings, |cache.combatFlags|, i);
      if hideCombat {
        var isCombat := cache.IsCombatTextId(id);
        if isCombat {
          continue;
        }
      }
      if hideHealth {
        var isHealth := cache.IsHealthStatId(id);
        if isHealth {
          continue;
        }
      }
      out[count] := id;
      assert out[..count + 1] == out[..count] + [id];
      count := count + 1;
    }
    assert baseline[..|baseline|] == baseline;
    desired := out[..count];
  }

  /** Filtering one more baseline id appends it exactly when it is kept. */
  lemma DesiredStep(baseline: seq<int>, settings: TargetSettings, combat: seq<bool>, health: seq<bool>, i: int)
    requires 0 <= i < |baseline|
    ensures Desired(baseline[..i + 1], settings.hideDamageNumbers, settings.hideHealthBar, combat, health)
            == Desired(baseline[..i], settings.hideDamageNumbers, settings.hideHealthBar, combat, health)
               + (if Keep(baseline[i], settings.hideDamageNumbers, settings.hideHealthBar, combat, health)
                  then [baseline[i]] else [])
  {
    assert baseline[..i + 1][..i] == baseline[..i];
  }

  /** One more baseline id queries out of range when a flag is set and the id is outside the table. */
  lemma QueriesStep(baseline: seq<int>, settings: TargetSettings, tableLength: nat, i: int)
    requires 0 <= i < |baseline|
    ensures QueriesOutOfRange(baseline[..i + 1], settings, tableLength)
            <==> QueriesOutOfRange(baseline[..i], settings, tableLength)
                 || ((settings.hideDamageNumbers || settings.hideHealthBar) && !(0 <= baseline[i] < tableLength))
  {
    assert baseline[..i + 1][i] == baseline[i];
    if QueriesOutOfRange(baseline[..i], settings, tableLength) {
      var k :| 0 <= k < i && !(0 <= baseline[..i][k] < tableLength);
      assert baseline[..i + 1][k] == baseline[..i][k];
    }
    if QueriesOutOfRange(baseline[..i + 1], settings, tableLength) {
      var k :| 0 <= k < i + 1 && !(0 <= baseline[..i + 1][k] < tableLength);
      if k < i {
        assert baseline[..i][k] == baseline[..i + 1][k];
      }
    }
  }

  /**
   * buildBaselineFromCurrent: copy `currentIds` into a fresh buffer, skipping every id
   * already copied (the labelled `continue outer` scan), then trim to the count.
   */
  method BuildBaselineFromCurrent(currentIds: seq<int>) returns (baseline: seq<int>)
    ensures baseline == Dedup(currentIds)
  {
    if |currentIds| <= 1 {
      assert |currentIds| == 1 ==> currentIds == [] + [currentIds[0]];
      return currentIds;
    }
    var out := new int[|currentIds|];
    var count := 0;
    label Outer:
    for i := 0 to |currentIds|
      invariant 0 <= count <= i
      invariant out[..count] == Dedup(currentIds[..i])
    {
      var id := currentIds[i];
      assert currentIds[..i + 1] == currentIds[..i] + [id];
      for k := 0 to count
        invariant id !in out[..k]
      {
        if out[k] == id {
          assert id in out[..count];
          continue Outer;
        }
        assert out[..k + 1] == out[..k] + [out[k]];
      }
      out[count] := id;
      assert out[..count + 1] == out[..count] + [id];
      count := count + 1;
    }
    assert currentIds[..|currentIds|] == currentIds;
    baseline := out[..count];
  }
}
