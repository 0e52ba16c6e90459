/**
 * EntityUiBaselineCache: entity key -> baseline UI-id snapshot, tagged with the kind of
 * entity it was taken from. Entries are added only if absent and removed by key.
 */
module EntityUiBaselineCache {
  import opened Wrappers

  /** KIND_PLAYER / KIND_NPC / KIND_UNKNOWN. */
  datatype Kind = KindPlayer | KindNpc | KindUnknown

  /** A stored snapshot and its kind tag. */
  datatype Baseline = Baseline(ids: seq<int>, kind: Kind)

  class BaselineCache {
    /** BASELINE_COMPONENT_IDS. */
    var baselines: map<int, Baseline>

    constructor ()
      ensures baselines == map[]
    {
      baselines := map[];
    }

    /** getBaseline: the stored snapshot for `key`, or None; reading never changes the map. */
    function GetBaseline(key: int): (r: Option<seq<int>>)
      reads this
      ensures r.Some? <==> key in baselines
      ensures r.Some? ==> r.value == baselines[key].ids
    {
      if key in baselines then Some(baselines[key].ids) else None
    }

    /**
     * getOrCreateBaseline (computeIfAbsent): an existing snapshot is returned and never
     * overwritten; otherwise a copy of `currentIds` is stored and returned. This variant
     * carries no kind, so its entries are tagged unknown.
     */
    method GetOrCreateBaseline(key: int, currentIds: seq<int>) returns (ids: seq<int>)
      modifies this
      ensures key in old(baselines) ==> baselines == old(baselines) && ids == old(baselines)[key].ids
      ensures key !in old(baselines) ==>
                baselines == old(baselines)[key := Baseline(currentIds, KindUnknown)] && ids == currentIds
    {
      if key in baselines {
        ids := baselines[key].ids;
      } else {
        baselines := baselines[key := Baseline(currentIds, KindUnknown)];
        ids := currentIds;
      }
    }

    /**
     * putBaselineIfAbsent (computeIfAbsent with a kind tag): returns the snapshot that is
     * stored after the call, the existing one if there was one.
     */
    method PutBaselineIfAbsent(key: int, ids: seq<int>, kind: Kind) returns (stored: seq<int>)
      modifies this
      ensures key in old(baselines) ==> baselines == old(baselines) && stored == old(baselines)[key].ids
      ensures key !in old(baselines) ==>
                baselines == old(baselines)[key := Baseline(ids, kind)] && stored == ids
    {
      if key in baselines {
        stored := baselines[key].ids;
      } else {
        baselines := baselines[key := Baseline(ids, kind)];
        stored := ids;
      }
    }

    /** remove: drop the entry for `key`; every other entry is unchanged. */
    method Remove(key: int)
      modifies this
      ensures baselines == old(baselines) - {key}
    {
      baselines := baselines - {key};
    }
  }
}
