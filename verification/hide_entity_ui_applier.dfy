/**
 * HideEntityUiApplier.applyForRefAndReport: the per-entity decision that either writes a
 * filtered UI list computed from the entity's baseline, restores the baseline and drops
 * it, or does nothing.
 *
 * `Apply` states the decision on values; the method `ApplyForRefAndReport` performs it on
 * the store, the baseline cache, the classifier and the config, and is proved to end in
 * the state `Apply` describes. The properties of the decision are `Apply`'s contract and
 * the lemmas below it.
 */
module HideEntityUiApplier {
  import opened Wrappers
  import opened IdLists
  import opened Config
  import opened Host
  import opened EntityUiBaselineCache
  import opened UiComponentListBaselineSupport
  import UiComponentCache
  import UiComponentListFilterSupport

  /**
   * What the host does during one call: whether reading the Player/NPCEntity components
   * throws, whether the list write succeeds, and what ensureCache sees (the asset table,
   * the health stat index, and whether the build throws).
   */
  datatype HostOutcome = HostOutcome(categoryReadFails: bool, writeOk: bool,
                                     assets: Option<UiComponentCache.AssetMap>, healthIndex: int,
                                     classifierFault: bool)

  /** Whether ensureCache returns true, given the classifier's ready flag before it. */
  predicate EnsureOk(ready: bool, host: HostOutcome) {
    ready || (host.assets.Some? && !host.classifierFault)
  }

  /**
   * The category of the entity: a non-null `forceNpc` decides it outright (TRUE: NPC,
   * FALSE: player); otherwise the Player component wins over NPCEntity, and an entity with
   * neither is unknown. None when the component read throws.
   */
  function Category(entity: EntityId, forceNpc: Option<bool>, players: set<EntityId>, npcs: set<EntityId>,
                    readFails: bool): Option<Kind>
  {
    if forceNpc.Some? then Some(if forceNpc.value then KindNpc else KindPlayer)
    else if readFails then None
    else Some(if entity in players then KindPlayer else if entity in npcs then KindNpc else KindUnknown)
  }

  /** The target settings that apply to an entity of this kind (players or npcs). */
  function SettingsFor(kind: Kind, playerSettings: TargetSettings, npcSettings: TargetSettings): TargetSettings {
    if kind == KindPlayer then playerSettings else npcSettings
  }

  /** Neither hide flag is set for this target. */
  predicate HideNone(settings: TargetSettings) {
    !settings.hideDamageNumbers && !settings.hideHealthBar
  }

  /** The live id array of the entity, when it has a list component with ids. */
  function LiveIds(w: UiWorld, entity: EntityId): Option<seq<int>> {
    if entity in w.lists then w.lists[entity].componentIds else None
  }

  /**
   * The call reaches ensureCache: a valid reference to an entity with ids, the feature
   * enabled, and a player or NPC whose target settings hide something.
   */
  predicate ReachesEnsureCache(w: UiWorld, players: set<EntityId>, npcs: set<EntityId>, ref: Ref,
                               forceNpc: Option<bool>, enabled: bool,
                               playerSettings: TargetSettings, npcSettings: TargetSettings, readFails: bool)
  {
    && ref.valid && LiveIds(w, ref.entity).Some? && enabled
    && var kind := Category(ref.entity, forceNpc, players, npcs, readFails);
       kind.Some? && kind.value != KindUnknown && !HideNone(SettingsFor(kind.value, playerSettings, npcSettings))
  }

  /**
   * The classifier's tables after a call that `reached` ensureCache with the classifier's
   * ready flag at `ready`: built from the host's asset table when that call turned a
   * not-ready classifier ready, and otherwise the tables it had before.
   */
  predicate TablesAfter(reached: bool, ready: bool, host: HostOutcome,
                        oldCombat: seq<bool>, oldHealth: seq<bool>, combat: seq<bool>, health: seq<bool>)
  {
    if reached && !ready && EnsureOk(ready, host) then
      combat == UiComponentCache.CombatFlagsOf(host.assets.value)
      && health == UiComponentCache.HealthFlagsOf(host.assets.value, host.healthIndex)
    else
      combat == oldCombat && health == oldHealth
  }

  /**
   * The classifier's ready flag after a call that `reached` ensureCache with the flag at
   * `ready` and then filtered `baseline` with `settings`: ready exactly when ensureCache
   * succeeded and no query fell outside the tables (an out-of-range id marks the tables
   * stale for the next call); a call that never reached ensureCache leaves it as it was.
   */
  predicate ReadyAfter(reached: bool, ready: bool, host: HostOutcome, baseline: seq<int>,
                       settings: TargetSettings, tableLength: nat)
  {
    if reached then
      EnsureOk(ready, host) && !UiComponentListFilterSupport.QueriesOutOfRange(baseline, settings, tableLength)
    else ready
  }

  /**
   * applyForRefAndReport on values, for the entity `ref` points at, whose baseline is
   * cached under `key` (the number entityKey reports for `ref`). `ready`, `combat` and
   * `health` are the classifier's ready flag before the call and the flag arrays it
   * answers from.
   */
  function Apply(w: UiWorld, players: set<EntityId>, npcs: set<EntityId>, ref: Ref, key: int,
                 forceNpc: Option<bool>, enabled: bool,
                 playerSettings: TargetSettings, npcSettings: TargetSettings,
                 host: HostOutcome, ready: bool, combat: seq<bool>, health: seq<bool>): (r: Step)
    // the answer is true exactly when the store's lists changed
    ensures r.changed <==> r.world.lists != w.lists
    // hiding: for a player or NPC whose target hides something, with the classifier
    // ready and the write succeeding, the entity afterwards shows its baseline (the cached
    // one, or the deduplicated live list) filtered with the target's flags
    ensures ReachesEnsureCache(w, players, npcs, ref, forceNpc, enabled, playerSettings, npcSettings,
                               host.categoryReadFails)
            && EnsureOk(ready, host) && host.writeOk ==>
              var s := SettingsFor(Category(ref.entity, forceNpc, players, npcs, host.categoryReadFails).value,
                                   playerSettings, npcSettings);
              Shows(r.world, ref.entity, Desired(BaselineFor(w, key, LiveIds(w, ref.entity).value),
                                                 s.hideDamageNumbers, s.hideHealthBar, combat, health))
    // restoring: with the feature disabled, or for a player or NPC whose target hides
    // nothing, the call is restoreBaselineIfPresent
    ensures ref.valid && LiveIds(w, ref.entity).Some?
            && (|| !enabled
                || var kind := Category(ref.entity, forceNpc, players, npcs, host.categoryReadFails);
                   kind.Some? && kind.value != KindUnknown && HideNone(SettingsFor(kind.value, playerSettings, npcSettings)))
            ==> r == Restore(w, key, ref.entity, LiveIds(w, ref.entity).value, host.writeOk)
    // only the entity's own list and its baseline entry can change; no list appears or vanishes
    ensures r.world.lists.Keys == w.lists.Keys
    ensures r.world.lists - {ref.entity} == w.lists - {ref.entity}
    ensures r.world.baselines - {key} == w.baselines - {key}
    // invalid ref, no list component or null ids: nothing happens
    ensures !ref.valid || LiveIds(w, ref.entity).None? ==> r == Step(w, false)
    // enabled, but the category read throws or the entity is neither player nor NPC: nothing happens
    ensures enabled
            && Category(ref.entity, forceNpc, players, npcs, host.categoryReadFails) != Some(KindPlayer)
            && Category(ref.entity, forceNpc, players, npcs, host.categoryReadFails) != Some(KindNpc)
            ==> r == Step(w, false)
    // an existing baseline is never overwritten
    ensures key in w.baselines && key in r.world.baselines ==> r.world.baselines[key] == w.baselines[key]
    // a baseline is created only when something is to be hidden, as the deduplicated
    // live list, tagged with the entity's category
    ensures key !in w.baselines && key in r.world.baselines ==>
              && enabled && ref.valid && LiveIds(w, ref.entity).Some?
              && var kind := Category(ref.entity, forceNpc, players, npcs, host.categoryReadFails);
                 && kind.Some? && kind.value != KindUnknown
                 && !HideNone(SettingsFor(kind.value, playerSettings, npcSettings))
                 && r.world.baselines[key] == Baseline(Dedup(LiveIds(w, ref.entity).value), kind.value)
    // no growth: when the classifier is ready and writes succeed, an entity that is not
    // changed is not left with a new baseline entry
    ensures !r.changed && EnsureOk(ready, host) && host.writeOk ==> r.world.baselines.Keys <= w.baselines.Keys
    // a restoring write installs exactly the cached baseline and drops the entry
    ensures r.changed && key !in r.world.baselines ==>
              key in w.baselines
              && r.world.lists == w.lists[ref.entity := UiComponentList(Some(w.baselines[key].ids))]
    // a hiding write installs the baseline filtered with the entity's target settings,
    // and needs a ready classifier
    ensures r.changed && key in r.world.baselines ==>
              && EnsureOk(ready, host)
              && var kind := Category(ref.entity, forceNpc, players, npcs, host.categoryReadFails);
                 && kind.Some?
                 && var s := SettingsFor(kind.value, playerSettings, npcSettings);
                    r.world.lists == w.lists[ref.entity := UiComponentList(Some(
                      Desired(r.world.baselines[key].ids, s.hideDamageNumbers, s.hideHealthBar, combat, health)))]
  {
    var live := LiveIds(w, ref.entity);
    if !ref.valid || live.None? then Step(w, false)
    else if !enabled then Restore(w, key, ref.entity, live.value, host.writeOk)
    else
      var kind := Category(ref.entity, forceNpc, players, npcs, host.categoryReadFails);
      if kind.None? || kind.value == KindUnknown then Step(w, false)
      else ApplyToTarget(w, key, ref.entity, live.value, kind.value, SettingsFor(kind.value, playerSettings, npcSettings),
                         host, ready, combat, health)
  }

  /**
   * The enabled branch for a player or NPC showing `live`: restore when its target hides
   * nothing, otherwise hide.
   */
  function ApplyToTarget(w: UiWorld, key: int, entity: EntityId, live: seq<int>, kind: Kind,
                         settings: TargetSettings, host: HostOutcome, ready: bool,
                         combat: seq<bool>, health: seq<bool>): Step
    requires Shows(w, entity, live)
  {
    if HideNone(settings) then Restore(w, key, entity, live, host.writeOk)
    else Hide(w, key, entity, live, kind, settings, host, ready, combat, health)
  }

  /**
   * The hiding branch of applyForRefAndReport for an entity showing `live`: reuse or
   * create the baseline, make the classifier ready, and write the filtered baseline
   * unless it already equals the live list.
   */
  function Hide(w: UiWorld, key: int, entity: EntityId, live: seq<int>, kind: Kind, settings: TargetSettings,
                host: HostOutcome, ready: bool, combat: seq<bool>, health: seq<bool>): (r: Step)
    requires Shows(w, entity, live)
  {
    var w1 := WithBaseline(w, key, live, kind);
    if !EnsureOk(ready, host) then Step(w1, false)
    else
      var desired := Desired(BaselineFor(w, key, live), settings.hideDamageNumbers, settings.hideHealthBar,
                             combat, health);
      WriteStep(w1, key, entity, live, desired, key !in w.baselines, host.writeOk)
  }

  /** The baseline the hiding branch filters: the cached one, or the deduplicated live ids. */
  function BaselineFor(w: UiWorld, key: int, live: seq<int>): seq<int> {
    if key !in w.baselines then Dedup(live) else w.baselines[key].ids
  }

  /** The world after the baseline step: a missing baseline is stored under `key`. */
  function WithBaseline(w: UiWorld, key: int, live: seq<int>, kind: Kind): (r: UiWorld)
    ensures r.lists == w.lists
    ensures key in r.baselines && r.baselines[key] == Baseline(BaselineFor(w, key, live), if key in w.baselines then w.baselines[key].kind else kind)
    ensures r.baselines - {key} == w.baselines - {key}
  {
    if key !in w.baselines then w.(baselines := w.baselines[key := Baseline(Dedup(live), kind)]) else w
  }

  /**
   * The write step of the hiding branch: when the filtered list equals the live one,
   * no write, and a baseline this pass created is dropped again; otherwise the filtered
   * list is written unless the write fails.
   */
  function WriteStep(w1: UiWorld, key: int, entity: EntityId, live: seq<int>, desired: seq<int>,
                     created: bool, writeOk: bool): (r: Step)
    requires Shows(w1, entity, live)
    ensures r.changed <==> r.world.lists != w1.lists
    ensures r.changed <==> desired != live && writeOk
    ensures r.world.baselines == if desired == live && created then w1.baselines - {key} else w1.baselines
  {
    if desired == live then
      Step(if created then w1.(baselines := w1.baselines - {key}) else w1, false)
    else if writeOk then
      var lists := w1.lists[entity := UiComponentList(Some(desired))];
      assert lists[entity] != w1.lists[entity];
      Step(w1.(lists := lists), true)
    else Step(w1, false)
  }

  /**
   * Only removal: a hiding write installs a subsequence of the entity's baseline, in
   * baseline order, and every id it drops is one the target's flags hide.
   */
  lemma ApplyWritesWithinBaseline(w: UiWorld, players: set<EntityId>, npcs: set<EntityId>, ref: Ref, key: int,
                                  forceNpc: Option<bool>, enabled: bool,
                                  playerSettings: TargetSettings, npcSettings: TargetSettings,
                                  host: HostOutcome, ready: bool, combat: seq<bool>, health: seq<bool>, id: int)
    requires var r := Apply(w, players, npcs, ref, key, forceNpc, enabled, playerSettings, npcSettings,
                            host, ready, combat, health);
             r.changed && key in r.world.baselines
    ensures var r := Apply(w, players, npcs, ref, key, forceNpc, enabled, playerSettings, npcSettings,
                           host, ready, combat, health);
            var written := r.world.lists[ref.entity].componentIds.value;
            var baseline := r.world.baselines[key].ids;
            var s := SettingsFor(Category(ref.entity, forceNpc, players, npcs, host.categoryReadFails).value,
                                 playerSettings, npcSettings);
            && IsSubsequence(written, baseline)
            && (id in written <==> id in baseline && Keep(id, s.hideDamageNumbers, s.hideHealthBar, combat, health))
  {
    var r := Apply(w, players, npcs, ref, key, forceNpc, enabled, playerSettings, npcSettings,
                   host, ready, combat, health);
    var kind := Category(ref.entity, forceNpc, players, npcs, host.categoryReadFails);
    var s := SettingsFor(kind.value, playerSettings, npcSettings);
    var baseline := r.world.baselines[key].ids;
    DesiredIsSubsequence(baseline, s.hideDamageNumbers, s.hideHealthBar, combat, health);
    DesiredMembership(baseline, s.hideDamageNumbers, s.hideHealthBar, combat, health, id);
  }

  /**
   * Hide, then disable: an entity whose live list has no duplicates and that had no
   * baseline is back exactly where it started, list and cache alike, after one call with
   * the feature enabled and one with it disabled (writes succeeding).
   */
  lemma {:induction false} HideThenDisableRoundTrip(w: UiWorld, players: set<EntityId>, npcs: set<EntityId>,
                                                    ref: Ref, key: int, forceNpc: Option<bool>,
                                                    playerSettings: TargetSettings, npcSettings: TargetSettings,
                                                    host: HostOutcome, ready: bool,
                                                    combat: seq<bool>, health: seq<bool>)
    requires key !in w.baselines
    requires LiveIds(w, ref.entity).Some? ==> NoDuplicates(LiveIds(w, ref.entity).value)
    requires host.writeOk
    ensures var r1 := Apply(w, players, npcs, ref, key, forceNpc, true, playerSettings, npcSettings,
                            host, ready, combat, health);
            var r2 := Apply(r1.world, players, npcs, ref, key, forceNpc, false, playerSettings, npcSettings,
                            host, ready, combat, health);
            r2.world == w
  {
    var r1 := Apply(w, players, npcs, ref, key, forceNpc, true, playerSettings, npcSettings,
                    host, ready, combat, health);
    var live := LiveIds(w, ref.entity);
    if ref.valid && live.Some? {
      DedupOfDistinct(live.value);
      if key in r1.world.baselines {
        assert r1.world.baselines[key].ids == live.value;
        assert LiveIds(r1.world, ref.entity).Some?;
        if r1.changed {
          assert w.lists[ref.entity] == UiComponentList(Some(live.value));
          assert r1.world.lists[ref.entity := UiComponentList(Some(live.value))] == w.lists;
        } else {
          assert r1.world.lists == w.lists;
        }
      }
    }
  }

  /**
   * Hide, then disable, for any live list (writes succeeding): the cache is back as it
   * was, no other entity changes, and the entity shows either its original list or that
   * list deduplicated. The baseline is stored deduplicated, so a list with repeated ids
   * that was written over comes back without the repeats.
   */
  lemma HideThenDisableGivesDedup(w: UiWorld, players: set<EntityId>, npcs: set<EntityId>,
                                  ref: Ref, key: int, forceNpc: Option<bool>,
                                  playerSettings: TargetSettings, npcSettings: TargetSettings,
                                  host: HostOutcome, ready: bool, combat: seq<bool>, health: seq<bool>)
    requires key !in w.baselines
    requires host.writeOk
    ensures var r1 := Apply(w, players, npcs, ref, key, forceNpc, true, playerSettings, npcSettings,
                            host, ready, combat, health);
            var r2 := Apply(r1.world, players, npcs, ref, key, forceNpc, false, playerSettings, npcSettings,
                            host, ready, combat, health);
            && r2.world.baselines == w.baselines
            && r2.world.lists - {ref.entity} == w.lists - {ref.entity}
            && (LiveIds(w, ref.entity).Some? ==>
                  LiveIds(r2.world, ref.entity) in {LiveIds(w, ref.entity), Some(Dedup(LiveIds(w, ref.entity).value))})
  {
  }

  /**
   * Re-applying the same configuration to the outcome of a call changes nothing more and
   * reports no change.
   */
  lemma ApplyTwiceIsApplyOnce(w: UiWorld, players: set<EntityId>, npcs: set<EntityId>, ref: Ref, key: int,
                              forceNpc: Option<bool>, enabled: bool,
                              playerSettings: TargetSettings, npcSettings: TargetSettings,
                              host: HostOutcome, ready: bool, combat: seq<bool>, health: seq<bool>)
    ensures var r1 := Apply(w, players, npcs, ref, key, forceNpc, enabled, playerSettings, npcSettings,
                            host, ready, combat, health);
            var r2 := Apply(r1.world, players, npcs, ref, key, forceNpc, enabled, playerSettings, npcSettings,
                            host, ready, combat, health);
            r2 == Step(r1.world, false)
  {
    var r1 := Apply(w, players, npcs, ref, key, forceNpc, enabled, playerSettings, npcSettings,
                    host, ready, combat, health);
    if r1.changed && key in r1.world.baselines {
      var s := SettingsFor(Category(ref.entity, forceNpc, players, npcs, host.categoryReadFails).value,
                           playerSettings, npcSettings);
      DesiredIdempotent(r1.world.baselines[key].ids, s.hideDamageNumbers, s.hideHealthBar, combat, health);
    }
  }

  /**
   * applyForRefAndReport on the objects. `key` is the number EntityUiBaselineCache.entityKey
   * reports for `ref` (a host getter or an identity hash). The config's target settings
   * are fetched with getPlayers/getNpcs, which may fill in defaults; the classifier is
   * made ready with ensureCache and queried by computeDesiredIds.
   */
  method ApplyForRefAndReport(ref: Ref, key: int, forceNpc: Option<bool>, cfg: HideEnemyHealthConfig,
                              store: EntityStore, cache: BaselineCache,
                              classifier: UiComponentCache.Classifier, host: HostOutcome)
    returns (changed: bool)
    requires classifier.Valid()
    modifies store`uiLists, cache, classifier, cfg`players, cfg`npcs
    ensures classifier.Valid()
    ensures old(classifier.ready) ==>
              classifier.combatFlags == old(classifier.combatFlags)
              && classifier.healthFlags == old(classifier.healthFlags)
    ensures cfg.PlayersOrDefault() == old(cfg.PlayersOrDefault())
    ensures cfg.NpcsOrDefault() == old(cfg.NpcsOrDefault())
    ensures TablesAfter(ReachesEnsureCache(UiWorld(old(store.uiLists), old(cache.baselines)), store.players, store.npcs,
                                           ref, forceNpc, cfg.enabled, old(cfg.PlayersOrDefault()),
                                           old(cfg.NpcsOrDefault()), host.categoryReadFails),
                        old(classifier.ready), host, old(classifier.combatFlags), old(classifier.healthFlags),
                        classifier.combatFlags, classifier.healthFlags)
    ensures var w := UiWorld(old(store.uiLists), old(cache.baselines));
            var reached := ReachesEnsureCache(w, store.players, store.npcs, ref, forceNpc, cfg.enabled,
                                              old(cfg.PlayersOrDefault()), old(cfg.NpcsOrDefault()),
                                              host.categoryReadFails);
            classifier.ready
            == if reached then
                 var kind := Category(ref.entity, forceNpc, store.players, store.npcs, host.categoryReadFails).value;
                 ReadyAfter(true, old(classifier.ready), host, BaselineFor(w, key, LiveIds(w, ref.entity).value),
                            SettingsFor(kind, old(cfg.PlayersOrDefault()), old(cfg.NpcsOrDefault())),
                            |classifier.combatFlags|)
               else old(classifier.ready)
    ensures var r := Apply(UiWorld(old(store.uiLists), old(cache.baselines)), store.players, store.npcs,
                           ref, key, forceNpc, cfg.enabled, old(cfg.PlayersOrDefault()), old(cfg.NpcsOrDefault()),
                           host, old(classifier.ready), classifier.combatFlags, classifier.healthFlags);
            store.uiLists == r.world.lists && cache.baselines == r.world.baselines && changed == r.changed
  {
    if !ref.valid {
      return false;
    }
    var entity := ref.entity;
    if entity !in store.uiLists {
      return false;
    }
    var list := store.uiLists[entity];
    if list.componentIds.None? {
      return false;
    }
    var currentIds := list.componentIds.value;

    if !cfg.enabled {
      changed := RestoreBaselineIfPresent(key, currentIds, entity, store, cache, host.writeOk);
      return;
    }

    var category := ReadCategory(entity, forceNpc, store, host.categoryReadFails);
    if category.None? {
      // the store threw while reading the components: skip this entity
      return false;
    }
    var kind := category.value;
    if kind == KindUnknown {
      return false;
    }
    changed := ApplyForTarget(key, entity, currentIds, kind, cfg, store, cache, classifier, host);
  }

  /** The enabled branch of applyForRefAndReport on the objects, for a player or an NPC. */
  method ApplyForTarget(key: int, entity: EntityId, currentIds: seq<int>, kind: Kind, cfg: HideEnemyHealthConfig,
                        store: EntityStore, cache: BaselineCache,
                        classifier: UiComponentCache.Classifier, host: HostOutcome)
    returns (changed: bool)
    requires kind != KindUnknown
    requires classifier.Valid()
    requires Shows(UiWorld(store.uiLists, cache.baselines), entity, currentIds)
    modifies store`uiLists, cache, classifier, cfg`players, cfg`npcs
    ensures classifier.Valid()
    ensures old(classifier.ready) ==>
              classifier.combatFlags == old(classifier.combatFlags)
              && classifier.healthFlags == old(classifier.healthFlags)
    ensures cfg.PlayersOrDefault() == old(cfg.PlayersOrDefault())
    ensures cfg.NpcsOrDefault() == old(cfg.NpcsOrDefault())
    ensures TablesAfter(!HideNone(SettingsFor(kind, old(cfg.PlayersOrDefault()), old(cfg.NpcsOrDefault()))),
                        old(classifier.ready), host, old(classifier.combatFlags), old(classifier.healthFlags),
                        classifier.combatFlags, classifier.healthFlags)
    ensures var s := SettingsFor(kind, old(cfg.PlayersOrDefault()), old(cfg.NpcsOrDefault()));
            classifier.ready == ReadyAfter(!HideNone(s), old(classifier.ready), host,
                                           BaselineFor(UiWorld(old(store.uiLists), old(cache.baselines)), key, currentIds),
                                           s, |classifier.combatFlags|)
    ensures var r := ApplyToTarget(UiWorld(old(store.uiLists), old(cache.baselines)), key, entity, currentIds, kind,
                                   SettingsFor(kind, old(cfg.PlayersOrDefault()), old(cfg.NpcsOrDefault())),
                                   host, old(classifier.ready), classifier.combatFlags, classifier.healthFlags);
            store.uiLists == r.world.lists && cache.baselines == r.world.baselines && changed == r.changed
  {
    var settings: TargetSettings;
    if kind == KindPlayer {
      settings := cfg.GetPlayers();
    } else {
      settings := cfg.GetNpcs();
    }

    var hideNone := !settings.hideDamageNumbers && !settings.hideHealthBar;
    if hideNone {
      changed := RestoreBaselineIfPresent(key, currentIds, entity, store, cache, host.writeOk);
      return;
    }

    changed := ApplyHide(key, entity, currentIds, kind, settings, store, cache, classifier, host);
  }

  /**
   * The category read of applyForRefAndReport: `forceNpc` when given, else the Player and
   * NPCEntity components (Player first). None when the read throws.
   */
  method ReadCategory(entity: EntityId, forceNpc: Option<bool>, store: EntityStore, readFails: bool)
    returns (kind: Option<Kind>)
    ensures kind == Category(entity, forceNpc, store.players, store.npcs, readFails)
  {
    var isPlayer, isNpc;
    if forceNpc.Some? {
      isNpc := forceNpc.value;
      isPlayer := !forceNpc.value;
    } else {
      if readFails {
        return None;
      }
      isPlayer := entity in store.players;
      isNpc := entity in store.npcs;
    }
    return Some(if isPlayer then KindPlayer else if isNpc then KindNpc else KindUnknown);
  }

  /** The baseline step of the hiding branch: the cached baseline, or a snapshot of the live list stored now. */
  method AcquireBaseline(key: int, currentIds: seq<int>, kind: Kind, lists: map<EntityId, UiComponentList>,
                         cache: BaselineCache)
    returns (baseline: seq<int>, wasMissing: bool)
    modifies cache
    ensures wasMissing <==> key !in old(cache.baselines)
    ensures baseline == BaselineFor(UiWorld(lists, old(cache.baselines)), key, currentIds)
    ensures cache.baselines == WithBaseline(UiWorld(lists, old(cache.baselines)), key, currentIds, kind).baselines
  {
    var existingBaseline := cache.GetBaseline(key);
    wasMissing := existingBaseline.None?;
    if existingBaseline.Some? {
      baseline := existingBaseline.value;
    } else {
      var snapshot := UiComponentListFilterSupport.BuildBaselineFromCurrent(currentIds);
      baseline := cache.PutBaselineIfAbsent(key, snapshot, kind);
    }
  }

  /** The hiding branch of applyForRefAndReport on the objects. */
  method ApplyHide(key: int, entity: EntityId, currentIds: seq<int>, kind: Kind, settings: TargetSettings,
                   store: EntityStore, cache: BaselineCache, classifier: UiComponentCache.Classifier,
                   host: HostOutcome)
    returns (changed: bool)
    requires classifier.Valid()
    requires Shows(UiWorld(store.uiLists, cache.baselines), entity, currentIds)
    modifies store`uiLists, cache, classifier
    ensures classifier.Valid()
    ensures old(classifier.ready) ==>
              classifier.combatFlags == old(classifier.combatFlags)
              && classifier.healthFlags == old(classifier.healthFlags)
    ensures TablesAfter(true, old(classifier.ready), host, old(classifier.combatFlags), old(classifier.healthFlags),
                        classifier.combatFlags, classifier.healthFlags)
    ensures classifier.ready == ReadyAfter(true, old(classifier.ready), host,
                                           BaselineFor(UiWorld(old(store.uiLists), old(cache.baselines)), key, currentIds),
                                           settings, |classifier.combatFlags|)
    ensures var r := Hide(UiWorld(old(store.uiLists), old(cache.baselines)), key, entity, currentIds, kind,
                          settings, host, old(classifier.ready), classifier.combatFlags, classifier.healthFlags);
            store.uiLists == r.world.lists && cache.baselines == r.world.baselines && changed == r.changed
  {
    var baseline, baselineWasMissing := AcquireBaseline(key, currentIds, kind, store.uiLists, cache);

    var ok, desired := FilterBaseline(baseline, settings, classifier, host);
    if !ok {
      return false;
    }
    changed := WriteDesired(key, entity, currentIds, desired, baselineWasMissing, store, cache, host);
  }

  /**
   * The classifier step of the hiding branch: make the classifier ready (false when it
   * cannot be built), then filter the baseline with the target's flags.
   */
  method FilterBaseline(baseline: seq<int>, settings: TargetSettings, classifier: UiComponentCache.Classifier,
                        host: HostOutcome)
    returns (ok: bool, desired: seq<int>)
    requires classifier.Valid()
    modifies classifier
    ensures classifier.Valid()
    ensures old(classifier.ready) ==>
              classifier.combatFlags == old(classifier.combatFlags)
              && classifier.healthFlags == old(classifier.healthFlags)
    ensures TablesAfter(true, old(classifier.ready), host, old(classifier.combatFlags), old(classifier.healthFlags),
                        classifier.combatFlags, classifier.healthFlags)
    ensures ok == EnsureOk(old(classifier.ready), host)
    ensures classifier.ready == ReadyAfter(true, old(classifier.ready), host, baseline, settings, |classifier.combatFlags|)
    ensures ok ==> desired == Desired(baseline, settings.hideDamageNumbers, settings.hideHealthBar,
                                      classifier.combatFlags, classifier.healthFlags)
  {
    ok := classifier.EnsureCache(host.assets, host.healthIndex, host.classifierFault);
    if !ok {
      return false, [];
    }
    desired := UiComponentListFilterSupport.ComputeDesiredIds(baseline, settings, classifier);
  }

  /**
   * The write step of the hiding branch: nothing to do when the filtered list equals the
   * live one (dropping a baseline this pass created), otherwise write it unless the host
   * write fails.
   */
  method WriteDesired(key: int, entity: EntityId, currentIds: seq<int>, desired: seq<int>, baselineWasMissing: bool,
                      store: EntityStore, cache: BaselineCache, host: HostOutcome)
    returns (changed: bool)
    modifies store`uiLists, cache
    requires Shows(UiWorld(store.uiLists, cache.baselines), entity, currentIds)
    ensures var r := WriteStep(UiWorld(old(store.uiLists), old(cache.baselines)), key, entity, currentIds, desired,
                               baselineWasMissing, host.writeOk);
            store.uiLists == r.world.lists && cache.baselines == r.world.baselines && changed == r.changed
  {
    if currentIds == desired {
      // a baseline created by this call is dropped again, so the cache does not grow
      if baselineWasMissing {
        cache.Remove(key);
      }
      return false;
    }

    if !host.writeOk {
      // the write threw: keep the baseline
      return false;
    }
    store.uiLists := store.uiLists[entity := UiComponentList(Some(desired))];
    return true;
  }
}
