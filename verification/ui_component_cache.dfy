/**
 * UiComponentCache: the asset classifier. It scans the host's UI-component asset table
 * once and publishes two flag arrays (combat text, health stat) plus a `ready` flag;
 * an out-of-range query clears `ready` so the next `EnsureCache` rebuilds.
 */
module UiComponentCache {
  import opened Wrappers

  /** The wire type of a UI-component asset. */
  datatype UiType = CombatText | EntityStat | OtherUiType

  /** The wire packet of one asset; `uiType` None stands for a null type. */
  datatype Packet = Packet(uiType: Option<UiType>, entityStatIndex: int)

  /**
   * The host's asset table as the classifier sees it: `getNextIndex()` and, per index,
   * the packet of the asset. An index missing from `packets` stands for a null asset,
   * an asset that is not a UI component, or a null packet (all three are skipped).
   */
  datatype AssetMap = AssetMap(nextIndex: int, packets: map<int, Packet>)

  /** Asset `i` is a CombatText component. */
  predicate IsCombatAsset(assets: AssetMap, i: int) {
    i in assets.packets && assets.packets[i].uiType == Some(CombatText)
  }

  /** Asset `i` is the EntityStat component showing the health stat. */
  predicate IsHealthAsset(assets: AssetMap, healthIndex: int, i: int) {
    i in assets.packets && assets.packets[i].uiType == Some(EntityStat)
    && assets.packets[i].entityStatIndex == healthIndex
  }

  /** Length of both flag arrays: `max(0, nextIndex)`. */
  function TableLength(assets: AssetMap): nat {
    if assets.nextIndex < 0 then 0 else assets.nextIndex
  }

  /** The combat-text flags a successful build publishes. */
  function CombatFlagsOf(assets: AssetMap): (flags: seq<bool>)
    ensures |flags| == TableLength(assets)
    ensures forall i :: 0 <= i < |flags| ==> (flags[i] <==> IsCombatAsset(assets, i))
  {
    seq(TableLength(assets), i => IsCombatAsset(assets, i))
  }

  /** The health-stat flags a successful build publishes. */
  function HealthFlagsOf(assets: AssetMap, healthIndex: int): (flags: seq<bool>)
    ensures |flags| == TableLength(assets)
    ensures forall i :: 0 <= i < |flags| ==> (flags[i] <==> IsHealthAsset(assets, healthIndex, i))
  {
    seq(TableLength(assets), i => IsHealthAsset(assets, healthIndex, i))
  }

  /** No id is ever classified both as combat text and as a health stat. */
  lemma NeverBoth(assets: AssetMap, healthIndex: int, i: int)
    requires 0 <= i < TableLength(assets)
    ensures !(CombatFlagsOf(assets)[i] && HealthFlagsOf(assets, healthIndex)[i])
  {
  }

  class Classifier {
    /** COMBAT_TEXT_FLAGS (the published, never-mutated array). */
    var combatFlags: seq<bool>
    /** HEALTH_STAT_FLAGS. */
    var healthFlags: seq<bool>
    /** CACHE_READY. */
    var ready: bool

    /** Both flag arrays have one entry per id and no id carries both flags. */
    predicate Valid()
      reads this
    {
      && |combatFlags| == |healthFlags|
      && forall i :: 0 <= i < |combatFlags| ==> !(combatFlags[i] && healthFlags[i])
    }

    /** The static initial state: empty flag arrays, not ready. */
    constructor ()
      ensures Valid() && !ready && combatFlags == [] && healthFlags == []
    {
      combatFlags, healthFlags, ready := [], [], false;
    }

    /** resetCache: drop the cached data; every query answers false until the next build. */
    method ResetCache()
      modifies this
      ensures Valid() && !ready && combatFlags == [] && healthFlags == []
    {
      ready := false;
      combatFlags := [];
      healthFlags := [];
    }

    /**
     * ensureCache: when ready, return true without rebuilding. Otherwise, with an asset
     * table and no host failure, publish the flags of every index below `nextIndex` and
     * become ready. A missing table (`assets` None) or a host exception anywhere in the
     * build (`hostFault`) returns false and publishes nothing.
     */
    method EnsureCache(assets: Option<AssetMap>, healthIndex: int, hostFault: bool) returns (ok: bool)
      requires Valid()
      modifies this
      ensures Valid()
      ensures old(ready) ==> ok && unchanged(this)
      ensures !old(ready) && (assets.None? || hostFault) ==> !ok && unchanged(this)
      ensures !old(ready) && assets.Some? && !hostFault ==>
                ok && ready
                && combatFlags == CombatFlagsOf(assets.value)
                && healthFlags == HealthFlagsOf(assets.value, healthIndex)
      ensures ok == ready
    {
      if ready {
        return true;
      }
      if assets.None? {
        return false;
      }
      var table := assets.value;
      var n := table.nextIndex;
      var combat := new bool[TableLength(table)](_ => false);
      var health := new bool[TableLength(table)](_ => false);
      var i := 0;
      while i < n
        modifies combat, health
        invariant 0 <= i <= TableLength(table)
        invariant forall j :: 0 <= j < i ==> (combat[j] <==> IsCombatAsset(table, j))
        invariant forall j :: 0 <= j < i ==> (health[j] <==> IsHealthAsset(table, healthIndex, j))
        invariant forall j :: i <= j < combat.Length ==> !combat[j] && !health[j]
        invariant forall j :: 0 <= j < combat.Length ==> !(combat[j] && health[j])
      {
        if i in table.packets && table.packets[i].uiType.Some? {
          var packet := table.packets[i];
          if packet.uiType.value == CombatText {
            combat[i] := true;
          } else if packet.uiType.value == EntityStat && packet.entityStatIndex == healthIndex {
            health[i] := true;
          }
        }
        i := i + 1;
      }
      if hostFault {
        return false;
      }
      assert combat[..] == CombatFlagsOf(table);
      assert health[..] == HealthFlagsOf(table, healthIndex);
      combatFlags := combat[..];
      healthFlags := health[..];
      ready := true;
      return true;
    }

    /** isCombatTextId: the flag of an in-range id; false, and `ready` cleared, otherwise. */
    method IsCombatTextId(id: int) returns (b: bool)
      modifies this`ready
      ensures 0 <= id < |combatFlags| ==> b == combatFlags[id] && ready == old(ready)
      ensures !(0 <= id < |combatFlags|) ==> !b && !ready
    {
      if id < 0 || id >= |combatFlags| {
        if ready {
          ready := false;
        }
        return false;
      }
      return combatFlags[id];
    }

    /** isHealthStatId: the flag of an in-range id; false, and `ready` cleared, otherwise. */
    method IsHealthStatId(id: int) returns (b: bool)
      modifies this`ready
      ensures 0 <= id < |healthFlags| ==> b == healthFlags[id] && ready == old(ready)
      ensures !(0 <= id < |healthFlags|) ==> !b && !ready
    {
      if id < 0 || id >= |healthFlags| {
        if ready {
          ready := false;
        }
        return false;
      }
      return healthFlags[id];
    }
  }

  /**
   * Rebuild law: both queries answered after a build, then a reset, then a rebuild from
   * the same asset table, answer the same as before the reset.
   */
  method RebuildAnswersAlike(c: Classifier, assets: AssetMap, healthIndex: int, id: int)
    returns (combatBefore: bool, healthBefore: bool, combatAfter: bool, healthAfter: bool)
    requires c.Valid() && !c.ready
    requires 0 <= id < TableLength(assets)
    modifies c
    ensures combatBefore == combatAfter == CombatFlagsOf(assets)[id]
    ensures healthBefore == healthAfter == HealthFlagsOf(assets, healthIndex)[id]
  {
    var ok := c.EnsureCache(Some(assets), healthIndex, false);
    combatBefore := c.IsCombatTextId(id);
    healthBefore := c.IsHealthStatId(id);
    c.ResetCache();
    ok := c.EnsureCache(Some(assets), healthIndex, false);
    combatAfter := c.IsCombatTextId(id);
    healthAfter := c.IsHealthStatId(id);
  }
}
