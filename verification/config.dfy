/**
 * HideEnemyHealthConfig: the runtime configuration tree with lazily defaulted
 * nested settings. Target settings are only assigned when they are created, so
 * they are values; the config object itself is updated in place by the lazy getters
 * and by `Normalize`.
 */
module Config {
  import opened Wrappers

  /** Per-target settings (players or NPCs). `hideNameplate` is read for players only. */
  datatype TargetSettings = TargetSettings(hideHealthBar: bool, hideDamageNumbers: bool, hideNameplate: bool)

  /** World-map settings. */
  datatype MapSettings = MapSettings(hidePlayerMarkers: bool)

  /** Default settings for players: hide the health bar, keep damage numbers and nameplates. */
  function DefaultsForPlayers(): (s: TargetSettings)
    ensures s.hideHealthBar && !s.hideDamageNumbers && !s.hideNameplate
  {
    TargetSettings(true, false, false)
  }

  /** Default settings for NPCs: hide the health bar, keep damage numbers. */
  function DefaultsForNpcs(): (s: TargetSettings)
    ensures s.hideHealthBar && !s.hideDamageNumbers && !s.hideNameplate
  {
    TargetSettings(true, false, false)
  }

  class HideEnemyHealthConfig {
    /** Global on/off switch. */
    var enabled: bool
    /** Settings for player entities; None stands for a null field (e.g. absent in the file). */
    var players: Option<TargetSettings>
    /** Settings for NPC entities. */
    var npcs: Option<TargetSettings>
    /** World-map settings (`map` in the file); read by the map-marker controller, which tolerates None. */
    var mapSettings: Option<MapSettings>

    /** A freshly constructed config holds the defaults. */
    constructor ()
      ensures enabled
      ensures players == Some(DefaultsForPlayers()) && npcs == Some(DefaultsForNpcs())
      ensures mapSettings == Some(MapSettings(false))
    {
      enabled := true;
      players := Some(DefaultsForPlayers());
      npcs := Some(DefaultsForNpcs());
      mapSettings := Some(MapSettings(false));
    }

    /** The player settings a reader sees: the stored ones, or the defaults when null. */
    function PlayersOrDefault(): TargetSettings
      reads this
    {
      players.GetOr(DefaultsForPlayers())
    }

    /** The NPC settings a reader sees: the stored ones, or the defaults when null. */
    function NpcsOrDefault(): TargetSettings
      reads this
    {
      npcs.GetOr(DefaultsForNpcs())
    }

    /** Both nested settings objects are present. */
    predicate Normalized()
      reads this
    {
      players.Some? && npcs.Some?
    }

    /** getPlayers: never null; a null field is replaced by the defaults, an existing one is kept. */
    method GetPlayers() returns (s: TargetSettings)
      modifies this`players
      ensures old(players).Some? ==> players == old(players) && s == old(players).value
      ensures old(players).None? ==> players == Some(DefaultsForPlayers()) && s == DefaultsForPlayers()
      ensures s == old(PlayersOrDefault()) && players == Some(s)
    {
      if players.None? {
        players := Some(DefaultsForPlayers());
      }
      s := players.value;
    }

    /** getNpcs: never null; a null field is replaced by the defaults, an existing one is kept. */
    method GetNpcs() returns (s: TargetSettings)
      modifies this`npcs
      ensures old(npcs).Some? ==> npcs == old(npcs) && s == old(npcs).value
      ensures old(npcs).None? ==> npcs == Some(DefaultsForNpcs()) && s == DefaultsForNpcs()
      ensures s == old(NpcsOrDefault()) && npcs == Some(s)
    {
      if npcs.None? {
        npcs := Some(DefaultsForNpcs());
      }
      s := npcs.value;
    }

    /**
     * normalize: fill absent nested objects with defaults. Present objects, `enabled`
     * and `mapSettings` are untouched, so a second call changes nothing.
     */
    method Normalize()
      modifies this`players, this`npcs
      ensures Normalized()
      ensures players == Some(old(PlayersOrDefault())) && npcs == Some(old(NpcsOrDefault()))
      ensures old(Normalized()) ==> players == old(players) && npcs == old(npcs)
    {
      if players.None? {
        players := Some(DefaultsForPlayers());
      }
      if npcs.None? {
        npcs := Some(DefaultsForNpcs());
      }
    }
  }

  /** Normalizing twice leaves the config exactly as normalizing once. */
  method NormalizeTwice(cfg: HideEnemyHealthConfig)
    modifies cfg
    ensures cfg.Normalized()
    ensures cfg.players == Some(old(cfg.PlayersOrDefault())) && cfg.npcs == Some(old(cfg.NpcsOrDefault()))
    ensures cfg.enabled == old(cfg.enabled) && cfg.mapSettings == old(cfg.mapSettings)
  {
    cfg.Normalize();
    ghost var once := (cfg.players, cfg.npcs);
    cfg.Normalize();
    assert (cfg.players, cfg.npcs) == once;
  }
}
