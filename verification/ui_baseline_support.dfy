/**
 * UiComponentListBaselineSupport: restoring an entity's UI list from its cached baseline.
 * HideEntityUiApplier carries a private copy with the same body; the applier model uses
 * this one.
 *
 * The state it reads and writes is the pair of maps `UiWorld`: the live UI lists of the
 * store and the baseline cache. A write that the host rejects (the reflective setter or
 * the put throwing) is the `writeOk == false` input.
 */
module UiComponentListBaselineSupport {
  import opened Wrappers
  import opened Host
  import opened EntityUiBaselineCache

  /** The store's UI lists and the baseline cache, as values. */
  datatype UiWorld = UiWorld(lists: map<EntityId, UiComponentList>, baselines: map<int, Baseline>)

  /** The state after a call, and the call's "wrote a list to the store" answer. */
  datatype Step = Step(world: UiWorld, changed: bool)

  /** The entity currently shows `ids`. */
  predicate Shows(w: UiWorld, entity: EntityId, ids: seq<int>) {
    entity in w.lists && w.lists[entity].componentIds == Some(ids)
  }

  /**
   * restoreBaselineIfPresent for the entity whose baseline is cached under `key`.
   * With no baseline nothing happens. A baseline equal to the
   * live ids is dropped without a write. Otherwise a copy of the baseline is written and
   * the entry dropped; if the write fails the entry is kept and nothing changes.
   */
  function Restore(w: UiWorld, key: int, entity: EntityId, currentIds: seq<int>, writeOk: bool): (r: Step)
    // the answer reports exactly whether the store's lists changed
    ensures Shows(w, entity, currentIds) ==> (r.changed <==> r.world.lists != w.lists)
    // no baseline: no effect at all
    ensures key !in w.baselines ==> r == Step(w, false)
    // a write always installs the exact baseline on the entity and nowhere else, and drops it
    ensures r.changed ==>
              key in w.baselines
              && r.world.lists == w.lists[entity := UiComponentList(Some(w.baselines[key].ids))]
              && r.world.baselines == w.baselines - {key}
    // a baseline that differs from the live ids is written back whenever the write succeeds
    ensures key in w.baselines && currentIds != w.baselines[key].ids && writeOk ==> r.changed
    // the entry is gone afterwards unless the write failed
    ensures key in w.baselines ==>
              (key in r.world.baselines <==> currentIds != w.baselines[key].ids && !writeOk)
    // restoring never creates or alters an entry, and touches only `key`
    ensures r.world.baselines == w.baselines || r.world.baselines == w.baselines - {key}
    ensures !r.changed ==> r.world.lists == w.lists
  {
    if key !in w.baselines then Step(w, false)
    else
      var baseline := w.baselines[key].ids;
      if currentIds == baseline then
        Step(w.(baselines := w.baselines - {key}), false)
      else if writeOk then
        var lists := w.lists[entity := UiComponentList(Some(baseline))];
        assert Shows(w, entity, currentIds) ==> lists[entity] != w.lists[entity];
        Step(UiWorld(lists, w.baselines - {key}), true)
      else
        Step(w, false)
  }

  /**
   * restoreBaselineIfPresent on the store and cache objects: reads the baseline, compares
   * it with the live ids, writes a copy and drops the entry.
   */
  method RestoreBaselineIfPresent(key: int, currentIds: seq<int>, entity: EntityId, store: EntityStore,
                                  cache: BaselineCache, writeOk: bool)
    returns (wrote: bool)
    modifies store`uiLists, cache
    ensures Step(UiWorld(store.uiLists, cache.baselines), wrote)
            == Restore(UiWorld(old(store.uiLists), old(cache.baselines)), key, entity, currentIds, writeOk)
  {
    var baseline := cache.GetBaseline(key);
    if baseline.None? {
      return false;
    }
    var alreadyRestored := currentIds == baseline.value;
    if alreadyRestored {
      cache.Remove(key);
      return false;
    }
    if !writeOk {
      // the write threw: keep the baseline for a later attempt
      return false;
    }
    store.uiLists := store.uiLists[entity := UiComponentList(Some(baseline.value))];
    cache.Remove(key);
    return true;
  }
}
