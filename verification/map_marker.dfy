/**
 * PlayerMapMarkerController: hides player icons on the world map by replacing the marker
 * provider registered under "playerIcons" with a no-op provider, and undoes that by
 * putting back the provider it found there before the first override (or removing the
 * key when there was none).
 *
 * The controller's static maps are the fields of one `PlayerMapMarkerController` object;
 * each world's map manager is a `WorldMapManager` object holding its provider table.
 * `Markers` states the same operations on values, for the lemmas.
 */
module WorldMapMarkers {
  import opened Wrappers
  import opened Config

  /** PLAYER_ICONS_KEY. */
  const PlayerIconsKey := "playerIcons"

  /** A marker provider: the plugin's no-op provider or one the server (or another plugin) installed. */
  datatype MarkerProvider = NoopPlayerIcons | HostProvider(id: int)

  /** A world, by identity. */
  type WorldId = int

  /** The part of a world's WorldMapManager the controller touches: its provider table. */
  class WorldMapManager {
    var providers: map<string, MarkerProvider>

    constructor (providers: map<string, MarkerProvider>)
      ensures this.providers == providers
    {
      this.providers := providers;
    }
  }

  /** The provider registered under "playerIcons", or None (null). */
  function PlayerIcons(providers: map<string, MarkerProvider>): Option<MarkerProvider> {
    if PlayerIconsKey in providers then Some(providers[PlayerIconsKey]) else None
  }

  /** `providers` with "playerIcons" set to `p`, or removed when `p` is None. */
  function WithPlayerIcons(providers: map<string, MarkerProvider>, p: Option<MarkerProvider>): (r: map<string, MarkerProvider>)
    ensures PlayerIcons(r) == p
    ensures r - {PlayerIconsKey} == providers - {PlayerIconsKey}
  {
    if p.Some? then providers[PlayerIconsKey := p.value] else providers - {PlayerIconsKey}
  }

  /**
   * `hide` of applyToWorld: a config is given, it is enabled, it has map settings, and
   * those hide player markers.
   */
  predicate HideFlag(cfg: HideEnemyHealthConfig?)
    reads cfg
  {
    cfg != null && cfg.enabled && cfg.mapSettings.Some? && cfg.mapSettings.value.hidePlayerMarkers
  }

  // ---------------------------------------------------------------------------
  // On values
  // ---------------------------------------------------------------------------

  /**
   * One world's provider table and the controller's memory: ORIGINAL_PROVIDERS (a present
   * key mapped to None is a captured null) and ORIGINAL_CAPTURED.
   */
  datatype Markers = Markers(providers: map<string, MarkerProvider>,
                             originals: map<WorldId, Option<MarkerProvider>>, captured: set<WorldId>)

  /** captureOriginalIfNeeded: remember the world's current "playerIcons" provider, the first time only. */
  function Capture(m: Markers, world: WorldId): (r: Markers)
    ensures r.providers == m.providers
    ensures world in r.captured
    ensures world in m.captured ==> r == m
    ensures world !in m.captured ==>
              r.captured == m.captured + {world} && r.originals == m.originals[world := PlayerIcons(m.providers)]
  {
    if world in m.captured then m
    else m.(captured := m.captured + {world}, originals := m.originals[world := PlayerIcons(m.providers)])
  }

  /** restoreOnWorldThread: for a captured world, put the remembered provider back (or remove the key). */
  function Restore(m: Markers, world: WorldId): (r: Markers)
    ensures r.originals == m.originals && r.captured == m.captured
    ensures world !in m.captured ==> r == m
    ensures world in m.captured ==>
              PlayerIcons(r.providers) == (if world in m.originals then m.originals[world] else None)
    ensures r.providers - {PlayerIconsKey} == m.providers - {PlayerIconsKey}
  {
    if world !in m.captured then m
    else
      var original := if world in m.originals then m.originals[world] else None;
      m.(providers := WithPlayerIcons(m.providers, original))
  }

  /** applyOnWorldThread: capture, then install the no-op provider or restore. */
  function ApplyOnWorld(m: Markers, world: WorldId, hideMarkers: bool): (r: Markers)
    ensures world in r.captured
    ensures world in m.captured ==> r.originals == m.originals && r.captured == m.captured
    ensures world !in m.captured ==> Remembers(r, world, PlayerIcons(m.providers))
    ensures hideMarkers ==> PlayerIcons(r.providers) == Some(NoopPlayerIcons)
    ensures !hideMarkers && world in r.originals ==> PlayerIcons(r.providers) == r.originals[world]
    ensures r.providers - {PlayerIconsKey} == m.providers - {PlayerIconsKey}
  {
    var c := Capture(m, world);
    if hideMarkers then Markers(WithPlayerIcons(c.providers, Some(NoopPlayerIcons)), c.originals, c.captured)
    else Restore(c, world)
  }

  /** A run of applies to one world, with nobody else touching its provider table. */
  function ApplyMany(m: Markers, world: WorldId, hides: seq<bool>): (r: Markers)
    ensures hides != [] ==> world in r.captured
    ensures r.providers - {PlayerIconsKey} == m.providers - {PlayerIconsKey}
    decreases |hides|
  {
    if hides == [] then m else ApplyMany(ApplyOnWorld(m, world, hides[0]), world, hides[1..])
  }

  /** The world's remembered provider is `orig`. */
  predicate Remembers(m: Markers, world: WorldId, orig: Option<MarkerProvider>) {
    world in m.captured && world in m.originals && m.originals[world] == orig
  }

  /** Once remembered, later applies never overwrite the remembered provider. */
  lemma {:induction false} ApplyManyKeepsOriginal(m: Markers, world: WorldId, hides: seq<bool>, orig: Option<MarkerProvider>)
    requires Remembers(m, world, orig)
    ensures Remembers(ApplyMany(m, world, hides), world, orig)
    decreases |hides|
  {
    if hides != [] {
      ApplyManyKeepsOriginal(ApplyOnWorld(m, world, hides[0]), world, hides[1..], orig);
    }
  }

  /**
   * Round trip: whatever sequence of applies starts from a world the controller has never
   * seen, the first one remembers the provider then present; an apply with hiding off
   * afterwards (or, once the world was captured, a restore) leaves the provider table
   * exactly as it was before the first apply.
   */
  lemma HideThenUnhideRoundTrip(m: Markers, world: WorldId, hides: seq<bool>)
    requires world !in m.captured
    ensures ApplyOnWorld(ApplyMany(m, world, hides), world, false).providers == m.providers
    ensures hides != [] ==> Restore(ApplyMany(m, world, hides), world).providers == m.providers
  {
    var orig := PlayerIcons(m.providers);
    var before := ApplyMany(m, world, hides);
    if hides != [] {
      var m1 := ApplyOnWorld(m, world, hides[0]);
      ApplyManyKeepsOriginal(m1, world, hides[1..], orig);
      assert Remembers(before, world, orig);
      ProviderTablesAgree(Restore(before, world).providers, m.providers);
    }
    var after := ApplyOnWorld(before, world, false);
    assert Remembers(after, world, orig);
    ProviderTablesAgree(after.providers, m.providers);
  }

  /** Two tables with the same "playerIcons" entry and the same other entries are equal. */
  lemma ProviderTablesAgree(a: map<string, MarkerProvider>, b: map<string, MarkerProvider>)
    ensures PlayerIcons(a) == PlayerIcons(b) && a - {PlayerIconsKey} == b - {PlayerIconsKey} ==> a == b
  {
    if PlayerIcons(a) == PlayerIcons(b) && a - {PlayerIconsKey} == b - {PlayerIconsKey} {
      forall k ensures k in a <==> k in b {
        if k != PlayerIconsKey {
          assert k in a <==> k in a - {PlayerIconsKey};
          assert k in b <==> k in b - {PlayerIconsKey};
        }
      }
      forall k | k in a ensures a[k] == b[k] {
        if k != PlayerIconsKey {
          assert (a - {PlayerIconsKey})[k] == (b - {PlayerIconsKey})[k];
        }
      }
    }
  }

  // ---------------------------------------------------------------------------
  // On the objects
  // ---------------------------------------------------------------------------

  class PlayerMapMarkerController {
    /** ORIGINAL_PROVIDERS. */
    var originals: map<WorldId, Option<MarkerProvider>>
    /** ORIGINAL_CAPTURED. */
    var captured: set<WorldId>

    constructor ()
      ensures originals == map[] && captured == {}
    {
      originals := map[];
      captured := {};
    }

    /**
     * applyToWorld: take `hide` from the config now, then run the world-thread step (here
     * at once). `manager` is null when the world's map manager cannot be obtained.
     */
    method ApplyToWorld(world: WorldId, cfg: HideEnemyHealthConfig?, manager: WorldMapManager?)
      modifies this, manager
      ensures manager == null ==> originals == old(originals) && captured == old(captured)
      ensures manager != null ==>
                var r := ApplyOnWorld(Markers(old(manager.providers), old(originals), old(captured)), world, old(HideFlag(cfg)));
                manager.providers == r.providers && originals == r.originals && captured == r.captured
    {
      var hideMarkers := cfg != null && cfg.enabled && cfg.mapSettings.Some? && cfg.mapSettings.value.hidePlayerMarkers;
      ApplyOnWorldThread(world, hideMarkers, manager);
    }

    /** applyOnWorldThread. */
    method ApplyOnWorldThread(world: WorldId, hideMarkers: bool, manager: WorldMapManager?)
      modifies this, manager
      ensures manager == null ==> originals == old(originals) && captured == old(captured)
      ensures manager != null ==>
                var r := ApplyOnWorld(Markers(old(manager.providers), old(originals), old(captured)), world, hideMarkers);
                manager.providers == r.providers && originals == r.originals && captured == r.captured
    {
      if manager == null {
        return;
      }
      CaptureOriginalIfNeeded(world, manager);
      if hideMarkers {
        manager.providers := manager.providers[PlayerIconsKey := NoopPlayerIcons];
      } else {
        RestoreOnWorldThread(world, manager);
      }
    }

    /** captureOriginalIfNeeded. */
    method CaptureOriginalIfNeeded(world: WorldId, manager: WorldMapManager)
      modifies this
      ensures var r := Capture(Markers(manager.providers, old(originals), old(captured)), world);
              originals == r.originals && captured == r.captured
    {
      if world in captured {
        return;
      }
      captured := captured + {world};
      var current := if PlayerIconsKey in manager.providers then Some(manager.providers[PlayerIconsKey]) else None;
      originals := originals[world := current];
    }

    /** restoreOnWorldThread. */
    method RestoreOnWorldThread(world: WorldId, manager: WorldMapManager?)
      modifies manager
      ensures manager != null ==>
                manager.providers == Restore(Markers(old(manager.providers), originals, captured), world).providers
    {
      if manager == null {
        return;
      }
      var wasCaptured := world in captured;
      var original := if world in originals then originals[world] else None;
      if !wasCaptured {
        return;
      }
      if original.Some? {
        manager.providers := manager.providers[PlayerIconsKey := original.value];
      } else {
        manager.providers := manager.providers - {PlayerIconsKey};
      }
    }
  }
}
