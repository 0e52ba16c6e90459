/**
 * HidePlayerNameplateApplier.applyForRefAndReport: hides a player's nameplate by removing
 * the component (or, where removal is unsupported, by writing an empty nameplate) and
 * puts the saved baseline back when hiding is switched off.
 *
 * `Pass` states one call on values, for the code as written (`asWritten`) and for the
 * corrected baseline capture (see `Recapture`); `Apply` is the corrected call, which the
 * method `ApplyForRefAndReport` performs on the store, the cache and the config.
 */
module HidePlayerNameplateApplier {
  import opened Wrappers
  import opened Host
  import opened Config
  import opened NameplateBaselineCache

  /** The store's nameplates and the baseline cache, as values. */
  datatype NpWorld = NpWorld(nameplates: map<EntityId, Nameplate>, entries: map<int, Entry>)

  /** The state after a call, and the call's "a write or remove was attempted" answer. */
  datatype NpStep = NpStep(world: NpWorld, attempted: bool)

  /**
   * What the host does during one call: whether reading the Player or the Nameplate
   * component throws, whether removing the component succeeds, and whether putting a
   * component succeeds.
   */
  datatype NpHost = NpHost(playerReadFails: bool, nameplateReadFails: bool, removeOk: bool, putOk: bool)

  /** The empty nameplate written when the component cannot be removed. */
  const Placeholder := Nameplate("")

  /** `wantHide`: not a forced restore, the plugin enabled, and players' hideNameplate set. */
  function WantHide(forceRestore: bool, enabled: bool, players: TargetSettings): (b: bool)
    ensures b ==> !forceRestore
  {
    !forceRestore && enabled && players.hideNameplate
  }

  /** The player's nameplate component, or None when it has none. */
  function Current(w: NpWorld, entity: EntityId): Option<Nameplate> {
    if entity in w.nameplates then Some(w.nameplates[entity]) else None
  }

  /** Lines 59-61: while the plugin has not hidden it, the visible nameplate is the baseline. */
  function Refresh(e: Entry, current: Option<Nameplate>): (r: Entry)
    ensures r.hidden == e.hidden
    ensures e.hidden ==> r == e
    ensures !e.hidden && current.Some? ==> r.baseline == current
  {
    if !e.hidden && current.Some? then e.(baseline := current) else e
  }

  /** Lines 65-67 as written: any present nameplate becomes the baseline, even while hidden. */
  function RecaptureAsWritten(e: Entry, current: Option<Nameplate>): (r: Entry)
    ensures r.hidden == e.hidden
    ensures current.Some? ==> r.baseline == current
    ensures current.None? ==> r == e
  {
    if current.Some? then e.(baseline := current) else e
  }

  /**
   * Lines 65-67 corrected: the empty nameplate this code itself wrote while the entry is
   * hidden is not a baseline.
   */
  function Recapture(e: Entry, current: Option<Nameplate>): (r: Entry)
    ensures r.hidden == e.hidden
    ensures e.hidden && current == Some(Placeholder) ==> r == e
    ensures current.Some? && !(e.hidden && current.value == Placeholder) ==> r.baseline == current
    ensures current.None? ==> r == e
  {
    if current.Some? && !(e.hidden && current.value == Placeholder) then e.(baseline := current) else e
  }

  /**
   * One call of applyForRefAndReport for `ref`, whose cache entry is under `key`, with the
   * wantHide decision already taken.
   */
  function Pass(w: NpWorld, players: set<EntityId>, ref: Ref, key: int, wantHide: bool, host: NpHost,
                asWritten: bool): NpStep
  {
    if !ref.valid || host.playerReadFails || ref.entity !in players then NpStep(w, false)
    else
      var entity := ref.entity;
      // getOrCreate happens before the nameplate is read, so a failing read leaves a new entry
      var e0 := if key in w.entries then w.entries[key] else NewEntry;
      if host.nameplateReadFails then NpStep(NpWorld(w.nameplates, w.entries[key := e0]), false)
      else
        var current := Current(w, entity);
        var e1 := Refresh(e0, current);
        if wantHide then
          var e2 := if asWritten then RecaptureAsWritten(e1, current) else Recapture(e1, current);
          if e2.hidden && current.None? then
            // already hidden
            NpStep(NpWorld(w.nameplates, w.entries[key := e2]), false)
          else
            var plates :=
              if host.removeOk then w.nameplates - {entity}
              else if host.putOk then w.nameplates[entity := Placeholder]
              else w.nameplates;
            // marked hidden even when the fallback write fails
            NpStep(NpWorld(plates, w.entries[key := e2.(hidden := true)]), true)
        else if e1.hidden && e1.baseline.Some? then
          if host.putOk then
            NpStep(NpWorld(w.nameplates[entity := e1.baseline.value], w.entries[key := e1.(hidden := false)]), true)
          else
            NpStep(NpWorld(w.nameplates, w.entries[key := e1]), false)
        else if e1.hidden && current.Some? then
          // no baseline, but a nameplate is present: consider it visible again
          NpStep(NpWorld(w.nameplates, w.entries[key := e1.(hidden := false)]), false)
        else
          NpStep(NpWorld(w.nameplates, w.entries[key := e1]), false)
  }

  /** The call as written in lines 28-126. */
  function ApplyAsWritten(w: NpWorld, players: set<EntityId>, ref: Ref, key: int, wantHide: bool,
                          host: NpHost): NpStep
  {
    Pass(w, players, ref, key, wantHide, host, true)
  }

  /** The call with the corrected baseline capture; this is what the model performs. */
  function Apply(w: NpWorld, players: set<EntityId>, ref: Ref, key: int, wantHide: bool, host: NpHost): (r: NpStep)
    // only the player's own nameplate and its own entry can change
    ensures r.world.nameplates - {ref.entity} == w.nameplates - {ref.entity}
    ensures r.world.entries - {key} == w.entries - {key}
    // invalid ref, not a player, or the Player read throws: nothing happens
    ensures !ref.valid || host.playerReadFails || ref.entity !in players ==> r == NpStep(w, false)
    // otherwise the entry exists afterwards
    ensures ref.valid && !host.playerReadFails && ref.entity in players ==> key in r.world.entries
    // the nameplate is only touched by an attempted write
    ensures !r.attempted ==> r.world.nameplates == w.nameplates
    // hiding: an attempt always leaves the entry hidden, the component removed or emptied
    // (or, when both writes fail, untouched)
    ensures wantHide && r.attempted ==>
              && key in r.world.entries && r.world.entries[key].hidden
              && (host.removeOk ==> r.world.nameplates == w.nameplates - {ref.entity})
              && (!host.removeOk && host.putOk ==> r.world.nameplates == w.nameplates[ref.entity := Placeholder])
              && (!host.removeOk && !host.putOk ==> r.world.nameplates == w.nameplates)
    // once both reads succeed, hiding is attempted unless the nameplate is already hidden and absent
    ensures wantHide && ref.valid && !host.playerReadFails && ref.entity in players && !host.nameplateReadFails ==>
              (r.attempted <==> !(key in w.entries && w.entries[key].hidden && ref.entity !in w.nameplates))
    // once both reads succeed, restoring is attempted exactly for a hidden entry with a
    // saved baseline, and succeeds exactly when the put does
    ensures !wantHide && ref.valid && !host.playerReadFails && ref.entity in players && !host.nameplateReadFails ==>
              (r.attempted <==> key in w.entries && w.entries[key].hidden && w.entries[key].baseline.Some? && host.putOk)
    // restoring puts back exactly the saved baseline and clears hidden
    ensures !wantHide && r.attempted ==>
              && key in w.entries && w.entries[key].baseline.Some?
              && r.world.nameplates == w.nameplates[ref.entity := w.entries[key].baseline.value]
              && key in r.world.entries && !r.world.entries[key].hidden
    // a restore whose put fails leaves the entry hidden, for a later attempt
    ensures !wantHide && ref.valid && !host.playerReadFails && ref.entity in players && !host.nameplateReadFails
            && key in w.entries && w.entries[key].hidden && w.entries[key].baseline.Some? && !host.putOk ==>
              key in r.world.entries && r.world.entries[key].hidden
    // a hidden entry with no baseline whose nameplate is present again is taken as visible,
    // without any write
    ensures !wantHide && ref.valid && !host.playerReadFails && ref.entity in players && !host.nameplateReadFails
            && key in w.entries && w.entries[key].hidden && w.entries[key].baseline.None? && ref.entity in w.nameplates ==>
              key in r.world.entries && !r.world.entries[key].hidden && !r.attempted
    // while the entry is visible (or new), a present nameplate becomes its baseline
    ensures ref.valid && !host.playerReadFails && ref.entity in players && !host.nameplateReadFails
            && (key !in w.entries || !w.entries[key].hidden) && ref.entity in w.nameplates ==>
              key in r.world.entries && r.world.entries[key].baseline == Some(w.nameplates[ref.entity])
    // while hidden, the saved baseline never changes, except to a nameplate that is present
    // and is not this code's own empty placeholder
    ensures key in w.entries && w.entries[key].hidden && key in r.world.entries ==>
              r.world.entries[key].baseline == w.entries[key].baseline
              || (Current(w, ref.entity).Some? && Current(w, ref.entity) != Some(Placeholder)
                  && r.world.entries[key].baseline == Current(w, ref.entity))
  {
    Pass(w, players, ref, key, wantHide, host, false)
  }

  // ---------------------------------------------------------------------------
  // Hide, hide again, restore
  // ---------------------------------------------------------------------------

  /** A run of hide passes, one per host outcome, with nobody else touching the nameplate. */
  function HideMany(w: NpWorld, players: set<EntityId>, ref: Ref, key: int, hosts: seq<NpHost>): NpWorld
    decreases |hosts|
  {
    if hosts == [] then w
    else HideMany(Apply(w, players, ref, key, true, hosts[0]).world, players, ref, key, hosts[1..])
  }

  /**
   * The player's original nameplate `n` is recoverable: either it is still shown and the
   * entry (if any) is visible with no other baseline, or the entry is hidden with `n` saved.
   */
  predicate Recoverable(w: NpWorld, entity: EntityId, key: int, n: Nameplate) {
    || (Current(w, entity) == Some(n)
        && (key in w.entries ==> !w.entries[key].hidden && w.entries[key].baseline in {None, Some(n)}))
    || (key in w.entries && w.entries[key].hidden && w.entries[key].baseline == Some(n))
  }

  /** One hide pass keeps the original recoverable, whatever the host does. */
  lemma HidePassKeepsRecoverable(w: NpWorld, players: set<EntityId>, ref: Ref, key: int, host: NpHost, n: Nameplate)
    requires ref.valid && ref.entity in players
    requires Recoverable(w, ref.entity, key, n)
    requires Current(w, ref.entity) in {None, Some(Placeholder), Some(n)}
    ensures var r := Apply(w, players, ref, key, true, host).world;
            Recoverable(r, ref.entity, key, n) && Current(r, ref.entity) in {None, Some(Placeholder), Some(n)}
  {
  }

  lemma {:induction false} HideManyKeepsRecoverable(w: NpWorld, players: set<EntityId>, ref: Ref, key: int,
                                                   hosts: seq<NpHost>, n: Nameplate)
    requires ref.valid && ref.entity in players
    requires Recoverable(w, ref.entity, key, n)
    requires Current(w, ref.entity) in {None, Some(Placeholder), Some(n)}
    ensures var r := HideMany(w, players, ref, key, hosts);
            Recoverable(r, ref.entity, key, n) && Current(r, ref.entity) in {None, Some(Placeholder), Some(n)}
    decreases |hosts|
  {
    if hosts != [] {
      HidePassKeepsRecoverable(w, players, ref, key, hosts[0], n);
      HideManyKeepsRecoverable(Apply(w, players, ref, key, true, hosts[0]).world, players, ref, key, hosts[1..], n);
    }
  }

  /**
   * Hide as often as the host allows, then switch hiding off: once the reads and the put
   * succeed, the player shows the original nameplate again and the entry is visible.
   */
  lemma HideThenRestoreRoundTrip(w: NpWorld, players: set<EntityId>, ref: Ref, key: int,
                                 hosts: seq<NpHost>, restoreHost: NpHost, n: Nameplate)
    requires ref.valid && ref.entity in players
    requires Current(w, ref.entity) == Some(n) && key !in w.entries
    requires !restoreHost.playerReadFails && !restoreHost.nameplateReadFails && restoreHost.putOk
    ensures var r := Apply(HideMany(w, players, ref, key, hosts), players, ref, key, false, restoreHost).world;
            Current(r, ref.entity) == Some(n) && key in r.entries && !r.entries[key].hidden
  {
    HideManyKeepsRecoverable(w, players, ref, key, hosts, n);
  }

  /**
   * As written, two hide passes where removal is unsupported and the empty nameplate is
   * written, followed by a successful restore, leave the player with the empty nameplate:
   * the second pass saved the placeholder over the real baseline.
   */
  lemma AsWrittenLosesBaseline()
    ensures var entity := EntityId(1, 2);
            var ref := Ref(true, entity);
            var w0 := NpWorld(map[entity := Nameplate("Steve")], map[]);
            var fallback := NpHost(false, false, false, true);
            var ok := NpHost(false, false, true, true);
            var w1 := ApplyAsWritten(w0, {entity}, ref, 7, true, fallback).world;
            var w2 := ApplyAsWritten(w1, {entity}, ref, 7, true, fallback).world;
            var w3 := ApplyAsWritten(w2, {entity}, ref, 7, false, ok).world;
            Current(w3, entity) == Some(Placeholder) && Placeholder != Nameplate("Steve")
  {
    var entity := EntityId(1, 2);
    var ref := Ref(true, entity);
    var w0 := NpWorld(map[entity := Nameplate("Steve")], map[]);
    var fallback := NpHost(false, false, false, true);
    var w1 := ApplyAsWritten(w0, {entity}, ref, 7, true, fallback).world;
    assert w1.entries[7] == Entry(Some(Nameplate("Steve")), true);
    assert w1.nameplates[entity] == Placeholder;
    var w2 := ApplyAsWritten(w1, {entity}, ref, 7, true, fallback).world;
    assert w2.entries[7] == Entry(Some(Placeholder), true);
  }

  /** With the corrected capture the same three calls bring the real nameplate back. */
  lemma CorrectedKeepsBaseline()
    ensures var entity := EntityId(1, 2);
            var ref := Ref(true, entity);
            var w0 := NpWorld(map[entity := Nameplate("Steve")], map[]);
            var fallback := NpHost(false, false, false, true);
            var ok := NpHost(false, false, true, true);
            var w2 := HideMany(w0, {entity}, ref, 7, [fallback, fallback]);
            Current(Apply(w2, {entity}, ref, 7, false, ok).world, entity) == Some(Nameplate("Steve"))
  {
    var entity := EntityId(1, 2);
    HideThenRestoreRoundTrip(NpWorld(map[entity := Nameplate("Steve")], map[]), {entity}, Ref(true, entity), 7,
                             [NpHost(false, false, false, true), NpHost(false, false, false, true)],
                             NpHost(false, false, true, true), Nameplate("Steve"));
  }

  /** Once restored, further calls with hiding off change no nameplate and attempt nothing. */
  lemma RestoreIsIdempotent(w: NpWorld, players: set<EntityId>, ref: Ref, key: int, host: NpHost)
    requires key in w.entries && !w.entries[key].hidden
    ensures var r := Apply(w, players, ref, key, false, host);
            !r.attempted && r.world.nameplates == w.nameplates
            && (key in r.world.entries ==> !r.world.entries[key].hidden)
  {
  }

  // ---------------------------------------------------------------------------
  // On the objects
  // ---------------------------------------------------------------------------

  /**
   * applyForRefAndReport on the objects (with the corrected capture). `refIdentity` is the
   * identity hash entityKey falls back to for an invalid reference; getPlayers may fill in
   * the default player settings.
   */
  method ApplyForRefAndReport(ref: Ref, refIdentity: bv32, forceRestore: bool, cfg: HideEnemyHealthConfig,
                              store: EntityStore, cache: NameplateCache, host: NpHost)
    returns (attempted: bool)
    modifies store`nameplates, cache, cfg`players
    ensures cfg.PlayersOrDefault() == old(cfg.PlayersOrDefault())
    ensures var r := Apply(NpWorld(old(store.nameplates), old(cache.entries)), store.players, ref,
                           KeyOf(ref, refIdentity),
                           WantHide(forceRestore, cfg.enabled, old(cfg.PlayersOrDefault())), host);
            store.nameplates == r.world.nameplates && cache.entries == r.world.entries && attempted == r.attempted
  {
    if !ref.valid {
      return false;
    }
    var entity := ref.entity;
    if host.playerReadFails || entity !in store.players {
      return false;
    }
    var wantHide := false;
    if !forceRestore && cfg.enabled {
      var players := cfg.GetPlayers();
      wantHide := players.hideNameplate;
    }
    var key := KeyOf(ref, refIdentity);
    attempted := ApplyToPlayer(entity, key, wantHide, store, cache, host);
  }

  /** The rest of applyForRefAndReport, for a player whose entry is under `key`. */
  method ApplyToPlayer(entity: EntityId, key: int, wantHide: bool, store: EntityStore, cache: NameplateCache,
                       host: NpHost)
    returns (attempted: bool)
    requires entity in store.players && !host.playerReadFails
    modifies store`nameplates, cache
    ensures var r := Pass(NpWorld(old(store.nameplates), old(cache.entries)), store.players, Ref(true, entity),
                          key, wantHide, host, false);
            store.nameplates == r.world.nameplates && cache.entries == r.world.entries && attempted == r.attempted
  {
    var entry := cache.GetOrCreate(key);
    if host.nameplateReadFails {
      return false;
    }
    var current := if entity in store.nameplates then Some(store.nameplates[entity]) else None;

    if !entry.hidden && current.Some? {
      entry := entry.(baseline := current);
      cache.entries := cache.entries[key := entry];
    }

    if wantHide {
      if current.Some? && !(entry.hidden && current.value == Placeholder) {
        entry := entry.(baseline := current);
        cache.entries := cache.entries[key := entry];
      }
      if entry.hidden && current.None? {
        return false;
      }
      if host.removeOk {
        store.nameplates := store.nameplates - {entity};
      } else if host.putOk {
        store.nameplates := store.nameplates[entity := Placeholder];
      }
      entry := entry.(hidden := true);
      cache.entries := cache.entries[key := entry];
      return true;
    }

    if entry.hidden {
      if entry.baseline.Some? {
        if host.putOk {
          store.nameplates := store.nameplates[entity := entry.baseline.value];
          entry := entry.(hidden := false);
          cache.entries := cache.entries[key := entry];
          return true;
        }
        return false;
      }
      if current.Some? {
        entry := entry.(hidden := false);
        cache.entries := cache.entries[key := entry];
      }
    }
    return false;
  }
}
