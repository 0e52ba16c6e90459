# Hide Enemy Health: a verified model of the override engine

Hide Enemy Health is a server plugin. It hides the floating health bars and damage numbers above players and NPCs, players' nameplates, and player icons on the world map. It works by overriding per-entity state on the server and keeping enough of the original state to put it back exactly.

This project models that override engine in Dafny and proves what it promises:

- **UI-id filtering** (`UiComponentListFilterSupport`, pure lemmas in `IdLists`).
  - `computeDesiredIds` removes combat-text and health-stat ids from a baseline list.
  - `buildBaselineFromCurrent` deduplicates a list, keeping the first occurrence of each id.
  - Both are loops over a buffer, proved against the functions `Desired` and `Dedup`.
  - The lemmas state subsequence, membership, no-duplicates, first-occurrence order and idempotence.
- **UI-list applier** (`HideEntityUiApplier`, `UiComponentListBaselineSupport`). This is the per-entity decision. It does one of three things:
  - writes the filtered baseline;
  - restores the baseline and drops its cache entry;
  - does nothing.

  `Apply` states the decision on values. The method `ApplyForRefAndReport` performs it on the store, the baseline cache, the classifier and the config, and is proved to end in the state `Apply` describes. The classifier's tables and its `ready` flag afterwards are stated alongside.
- **Asset classifier** (`UiComponentCache`). The combat and health flag tables are built from the host's asset table. Out-of-range queries clear `ready`.
- **Caches**:
  - `EntityUiBaselineCache` and `NameplateBaselineCache` are key→entry maps.
  - The nameplate key packs the store identity and the entity index into one 64-bit value (`EntityKeys`).
- **Primitive hash sets** (`IntHashSets`, `LongHashSets` over `OpenAddressing`). These are open-addressing tables with linear probing and doubling rehash, kept as arrays updated in place.
- **Nameplate applier** (`HidePlayerNameplateApplier`). A state machine over the entry `{baseline, hidden}`:
  - it hides by removing the component, with an empty nameplate written as the fallback;
  - it restores by putting the saved baseline back.
- **World-map markers** (`WorldMapMarkers`). For each world, the provider under `"playerIcons"` is captured once. The no-op provider is installed while hidden, and the captured provider is put back (or the key removed) when unhidden.
- **Config** (`Config`): defaults and lazy normalisation of the nested settings.

Host behaviour the plugin cannot control appears as explicit boolean inputs:

- a component read that throws;
- a write or remove that fails;
- a classifier build that faults.

The store's maps are fields of an `EntityStore` object.

## Model

| member | source | states |
|---|---|---|
| Config.DefaultsForPlayers | src/main/java/com/example/hideenemyhealth/config/HideEnemyHealthConfig.java:74-79 | player defaults hide the health bar and keep damage numbers |
| Config.DefaultsForNpcs | src/main/java/com/example/hideenemyhealth/config/HideEnemyHealthConfig.java:85-90 | NPC defaults hide the health bar and keep damage numbers |
| Config.HideEnemyHealthConfig.constructor | src/main/java/com/example/hideenemyhealth/config/HideEnemyHealthConfig.java:16-24 | a new config is enabled and holds the player and NPC defaults |
| Config.HideEnemyHealthConfig.GetPlayers | src/main/java/com/example/hideenemyhealth/config/HideEnemyHealthConfig.java:29-33 | never null: an existing object is returned unchanged; a null field is replaced by the defaults, which are returned |
| Config.HideEnemyHealthConfig.GetNpcs | src/main/java/com/example/hideenemyhealth/config/HideEnemyHealthConfig.java:38-42 | same as GetPlayers, for NPCs |
| Config.HideEnemyHealthConfig.Normalize | src/main/java/com/example/hideenemyhealth/config/HideEnemyHealthConfig.java:47-50 | afterwards both nested objects are present; present ones and all other fields are untouched |
| Config.NormalizeTwice | src/main/java/com/example/hideenemyhealth/config/HideEnemyHealthConfig.java:47-50 | normalize is idempotent and never changes `enabled` or the map settings |
| EntityKeys.KeyHigh | src/main/java/com/example/hideenemyhealth/systems/hidenameplate/NameplateBaselineCache.java:33-35 | the high 32 bits of the packed key are the store identity |
| EntityKeys.KeyLow | src/main/java/com/example/hideenemyhealth/systems/hidenameplate/NameplateBaselineCache.java:33-35 | the low 32 bits of the packed key are the entity index, whatever the sign of the store identity |
| EntityKeys.KeyRoundTrip | src/main/java/com/example/hideenemyhealth/systems/hidenameplate/NameplateBaselineCache.java:33-35 | store identity and index are recovered exactly from the key |
| EntityKeys.KeyInjective | src/main/java/com/example/hideenemyhealth/systems/hidenameplate/NameplateBaselineCache.java:33-35 | distinct (store, index) pairs give distinct keys |
| NameplateBaselineCache.KeyOfSeparatesEntities | src/main/java/com/example/hideenemyhealth/systems/hidenameplate/NameplateBaselineCache.java:30-39 | two valid references to different entities, in stores with different identity hashes, never share a cache entry |
| NameplateBaselineCache.InvalidKeyCanCollide | src/main/java/com/example/hideenemyhealth/systems/hidenameplate/NameplateBaselineCache.java:30-35 | an invalid reference's identity-hash key can equal the packed key of a valid reference |
| NameplateBaselineCache.NameplateCache.GetOrCreate | src/main/java/com/example/hideenemyhealth/systems/hidenameplate/NameplateBaselineCache.java:42-44 | returns the existing entry unchanged, or stores and returns a new one (no baseline, not hidden) |
| NameplateBaselineCache.NameplateCache.Get | src/main/java/com/example/hideenemyhealth/systems/hidenameplate/NameplateBaselineCache.java:46-49 | present exactly when the key has an entry, and then that entry; never creates one |
| NameplateBaselineCache.NameplateCache.Remove | src/main/java/com/example/hideenemyhealth/systems/hidenameplate/NameplateBaselineCache.java:51-53 | drops only that key's entry |
| NameplateBaselineCache.NameplateCache.RemoveRef | src/main/java/com/example/hideenemyhealth/systems/hidenameplate/NameplateBaselineCache.java:55-57 | drops only the entry under the reference's key |
| NameplateBaselineCache.NameplateCache.ClearAll | src/main/java/com/example/hideenemyhealth/systems/hidenameplate/NameplateBaselineCache.java:59-61 | the map is empty afterwards |
| EntityUiBaselineCache.BaselineCache.GetBaseline | src/main/java/com/example/hideenemyhealth/systems/hideentityui/EntityUiBaselineCache.java:39-41 | the stored snapshot when present, otherwise None; reading changes nothing |
| EntityUiBaselineCache.BaselineCache.GetOrCreateBaseline | src/main/java/com/example/hideenemyhealth/systems/hideentityui/EntityUiBaselineCache.java:35-37 | an existing snapshot is returned and never overwritten; otherwise the current ids are stored and returned |
| EntityUiBaselineCache.BaselineCache.PutBaselineIfAbsent | src/main/java/com/example/hideenemyhealth/systems/hideentityui/HideEntityUiApplier.java:129-131 | put-if-absent with a kind tag; returns the snapshot stored after the call |
| EntityUiBaselineCache.BaselineCache.Remove | src/main/java/com/example/hideenemyhealth/systems/hideentityui/EntityUiBaselineCache.java:43-45 | drops only that key; every other entry is unchanged |
| UiComponentCache.CombatFlagsOf | src/main/java/com/example/hideenemyhealth/systems/hideentityui/UiComponentCache.java:72-91 | one flag per index below `max(0, nextIndex)`; set exactly for CombatText assets |
| UiComponentCache.HealthFlagsOf | src/main/java/com/example/hideenemyhealth/systems/hideentityui/UiComponentCache.java:72-91 | one flag per index; set exactly for EntityStat assets showing the health stat |
| UiComponentCache.NeverBoth | src/main/java/com/example/hideenemyhealth/systems/hideentityui/UiComponentCache.java:85-91 | no id is marked both combat text and health stat |
| UiComponentCache.Classifier.constructor | src/main/java/com/example/hideenemyhealth/systems/hideentityui/UiComponentCache.java:30-36 | initially not ready, with empty tables |
| UiComponentCache.Classifier.ResetCache | src/main/java/com/example/hideenemyhealth/systems/hideentityui/UiComponentCache.java:44-50 | not ready, both tables empty, so every query answers false |
| UiComponentCache.Classifier.EnsureCache | src/main/java/com/example/hideenemyhealth/systems/hideentityui/UiComponentCache.java:57-110 | see note (a) below |
| UiComponentCache.Classifier.IsCombatTextId | src/main/java/com/example/hideenemyhealth/systems/hideentityui/UiComponentCache.java:115-123 | an in-range id gives its flag and leaves `ready` alone; an out-of-range id gives false and clears `ready` |
| UiComponentCache.Classifier.IsHealthStatId | src/main/java/com/example/hideenemyhealth/systems/hideentityui/UiComponentCache.java:128-135 | same as IsCombatTextId, for the health table |
| UiComponentCache.RebuildAnswersAlike | src/main/java/com/example/hideenemyhealth/systems/hideentityui/UiComponentCache.java:44-123 | a reset and a rebuild from the same asset table give the same combat-text answer and the same health-stat answer as before, both equal to the flags built from that table |
| IdLists.DesiredIsSubsequence | src/main/java/com/example/hideenemyhealth/systems/hideentityui/UiComponentListFilterSupport.java:29-36 | the filtered list is a subsequence of the baseline, in baseline order |
| IdLists.DesiredMembership | src/main/java/com/example/hideenemyhealth/systems/hideentityui/UiComponentListFilterSupport.java:32-36 | an id is in the output iff it is in the baseline and no set flag hides it (see note (b)) |
| IdLists.OutOfRangeIdsKept | src/main/java/com/example/hideenemyhealth/systems/hideentityui/UiComponentListFilterSupport.java:33-34 | baseline ids outside the classifier's tables are always kept |
| IdLists.DesiredHideNothing | src/main/java/com/example/hideenemyhealth/systems/hideentityui/UiComponentListFilterSupport.java:29-39 | with both flags off, the output equals the baseline |
| IdLists.DesiredIdempotent | src/main/java/com/example/hideenemyhealth/systems/hideentityui/UiComponentListFilterSupport.java:23-40 | filtering the filtered list again changes nothing |
| IdLists.DesiredKeepsNoDuplicates | src/main/java/com/example/hideenemyhealth/systems/hideentityui/UiComponentListFilterSupport.java:23-40 | filtering a duplicate-free baseline gives a duplicate-free list |
| IdLists.DedupMembership | src/main/java/com/example/hideenemyhealth/systems/hideentityui/UiComponentListFilterSupport.java:49-57 | the output holds exactly the input's ids |
| IdLists.DedupNoDuplicates | src/main/java/com/example/hideenemyhealth/systems/hideentityui/UiComponentListFilterSupport.java:49-57 | the output has no duplicates |
| IdLists.DedupFirstOccurrenceOrder | src/main/java/com/example/hideenemyhealth/systems/hideentityui/UiComponentListFilterSupport.java:49-57 | output order is the order of first occurrence in the input |
| IdLists.DedupOfDistinct | src/main/java/com/example/hideenemyhealth/systems/hideentityui/UiComponentListFilterSupport.java:46-61 | a list without duplicates (including one of length at most 1) is returned unchanged |
| IdLists.DedupIdempotent | src/main/java/com/example/hideenemyhealth/systems/hideentityui/UiComponentListFilterSupport.java:46-61 | deduplicating twice equals deduplicating once |
| UiComponentListFilterSupport.ComputeDesiredIds | src/main/java/com/example/hideenemyhealth/systems/hideentityui/UiComponentListFilterSupport.java:23-40 | the output is `Desired` of the baseline under the classifier's tables; `ready` is cleared exactly when a set flag causes an out-of-range id to be queried |
| UiComponentListFilterSupport.BuildBaselineFromCurrent | src/main/java/com/example/hideenemyhealth/systems/hideentityui/UiComponentListFilterSupport.java:46-61 | the output is `Dedup` of the input, with the Dedup lemmas above |
| UiComponentListBaselineSupport.Restore | src/main/java/com/example/hideenemyhealth/systems/hideentityui/UiComponentListBaselineSupport.java:29-54 | see note (c) below |
| UiComponentListBaselineSupport.RestoreBaselineIfPresent | src/main/java/com/example/hideenemyhealth/systems/hideentityui/UiComponentListBaselineSupport.java:29-54 | store and cache end in the state `Restore` gives, and the result is its answer |
| HideEntityUiApplier.Apply | src/main/java/com/example/hideenemyhealth/systems/hideentityui/HideEntityUiApplier.java:70-153 | see note (d) below |
| HideEntityUiApplier.WithBaseline | src/main/java/com/example/hideenemyhealth/systems/hideentityui/HideEntityUiApplier.java:127-131 | the key then holds the cached baseline, or the deduplicated live list with the entity's kind; other keys and the lists are unchanged |
| HideEntityUiApplier.WriteStep | src/main/java/com/example/hideenemyhealth/systems/hideentityui/HideEntityUiApplier.java:135-152 | a change happens iff the desired list differs from the live one and the write succeeds; a baseline created this pass is dropped again when nothing needs writing |
| HideEntityUiApplier.ApplyWritesWithinBaseline | src/main/java/com/example/hideenemyhealth/systems/hideentityui/HideEntityUiApplier.java:135-148 | a hiding write is a subsequence of the baseline; it keeps exactly the baseline ids that the target's flags do not hide |
| HideEntityUiApplier.HideThenDisableRoundTrip | src/main/java/com/example/hideenemyhealth/systems/hideentityui/HideEntityUiApplier.java:88-152 | see note (e) below |
| HideEntityUiApplier.HideThenDisableGivesDedup | src/main/java/com/example/hideenemyhealth/systems/hideentityui/HideEntityUiApplier.java:88-152 | for any live list (duplicates allowed), an enabled call then a disabled one bring the cache back exactly, leave every other entity's list alone, and leave the entity showing either its original list or that list deduplicated |
| HideEntityUiApplier.ApplyTwiceIsApplyOnce | src/main/java/com/example/hideenemyhealth/systems/hideentityui/HideEntityUiApplier.java:70-153 | a second call with the same configuration changes nothing and reports false |
| HideEntityUiApplier.ApplyForRefAndReport | src/main/java/com/example/hideenemyhealth/systems/hideentityui/HideEntityUiApplier.java:70-153 | store, cache and result are those `Apply` gives; the settings the config yields are unchanged; when the call reaches ensureCache with a classifier that was not ready and the build succeeds, the tables are exactly the flags built from the host's asset table, and otherwise they are unchanged; `ready` is then true exactly when ensureCache succeeded and no baseline id was queried out of range, and a call that never reaches ensureCache leaves it as it was |
| HideEntityUiApplier.ApplyForTarget | src/main/java/com/example/hideenemyhealth/systems/hideentityui/HideEntityUiApplier.java:112-152 | the enabled branch for a player or NPC: restore when the target hides nothing, otherwise hide; the tables are rebuilt from the host's asset table only when hiding makes a not-ready classifier ready; when hiding, `ready` ends true exactly when ensureCache succeeded and no baseline id was queried out of range, and a restore leaves it alone |
| HideEntityUiApplier.ReadCategory | src/main/java/com/example/hideenemyhealth/systems/hideentityui/HideEntityUiApplier.java:95-110 | `forceNpc` decides the kind (true: NPC, false: player); otherwise Player wins over NPCEntity; a throwing read gives None |
| HideEntityUiApplier.AcquireBaseline | src/main/java/com/example/hideenemyhealth/systems/hideentityui/HideEntityUiApplier.java:127-131 | reuses the cached baseline or stores the deduplicated live list, and reports which |
| HideEntityUiApplier.FilterBaseline | src/main/java/com/example/hideenemyhealth/systems/hideentityui/HideEntityUiApplier.java:133-135 | succeeds exactly when ensureCache does; then the list is the baseline filtered with the built tables; a not-ready classifier that becomes ready holds exactly the flags built from the host's asset table; `ready` ends true exactly when ensureCache succeeded and no baseline id was queried out of range |
| HideEntityUiApplier.WriteDesired | src/main/java/com/example/hideenemyhealth/systems/hideentityui/HideEntityUiApplier.java:136-152 | store and cache end as `WriteStep` states |
| HideEntityUiApplier.ApplyHide | src/main/java/com/example/hideenemyhealth/systems/hideentityui/HideEntityUiApplier.java:125-152 | the hiding branch on the objects ends in the state the value-level hiding branch gives; a ready classifier keeps its tables, a not-ready one that is made ready holds exactly the flags built from the host's asset table; `ready` ends true exactly when ensureCache succeeded and no baseline id was queried out of range |
| OpenAddressing.CapacityFor | src/main/java/com/example/hideenemyhealth/systems/hideentityui/IntHashSet.java:14-15 | the capacity is a power of two, at least 1, at least the request, and halving it would fall below the request |
| OpenAddressing.CapacityIsLeast | src/main/java/com/example/hideenemyhealth/systems/hideentityui/IntHashSet.java:14-15 | that capacity is the least power of two covering the request |
| OpenAddressing.ProbeMiss | src/main/java/com/example/hideenemyhealth/systems/hideentityui/LongHashSet.java:33-38 | a probe that reaches an unused slot proves the key absent |
| OpenAddressing.InsertAt | src/main/java/com/example/hideenemyhealth/systems/hideentityui/IntHashSet.java:33-35 | see note (f) below |
| IntHashSets.IntHashSet.constructor | src/main/java/com/example/hideenemyhealth/systems/hideentityui/IntHashSet.java:13-20 | an empty table whose length is the least power of two covering the request; `mask` is that length minus 1 |
| IntHashSets.IntHashSet.Add | src/main/java/com/example/hideenemyhealth/systems/hideentityui/IntHashSet.java:22-36 | see note (g) below |
| IntHashSets.IntHashSet.Probe | src/main/java/com/example/hideenemyhealth/systems/hideentityui/IntHashSet.java:28-32 | the probe stops at the slot holding v exactly when v is an element; otherwise at an unused slot |
| IntHashSets.IntHashSet.Place | src/main/java/com/example/hideenemyhealth/systems/hideentityui/IntHashSet.java:28-35 | inserting v gives elements plus {v}; count grows only for a new value |
| IntHashSets.IntHashSet.Occupy | src/main/java/com/example/hideenemyhealth/systems/hideentityui/IntHashSet.java:33-35 | taking the slot where the probe stopped adds v, counted once, and keeps the table invariant |
| IntHashSets.IntHashSet.Rehash | src/main/java/com/example/hideenemyhealth/systems/hideentityui/IntHashSet.java:58-72 | the element set and count are kept exactly, in fresh arrays of the new length |
| IntHashSets.IntHashSet.ReaddAll | src/main/java/com/example/hideenemyhealth/systems/hideentityui/IntHashSet.java:67-71 | re-adding every used old slot yields exactly the old contents; add's own load check never fires |
| IntHashSets.IntHashSet.ReaddSlot | src/main/java/com/example/hideenemyhealth/systems/hideentityui/IntHashSet.java:68-70 | one iteration extends the re-added prefix by one old slot |
| IntHashSets.IntHashSet.IsEmpty | src/main/java/com/example/hideenemyhealth/systems/hideentityui/IntHashSet.java:38-40 | true iff nothing was added |
| IntHashSets.IntHashSet.Capacity | src/main/java/com/example/hideenemyhealth/systems/hideentityui/IntHashSet.java:42-44 | the table length: a power of two, at least twice the element count |
| IntHashSets.IntHashSet.Count | src/main/java/com/example/hideenemyhealth/systems/hideentityui/IntHashSet.java:46-48 | the number of distinct values added |
| IntHashSets.IntHashSet.IsUsedAt | src/main/java/com/example/hideenemyhealth/systems/hideentityui/IntHashSet.java:54-56 | a used slot holds an element |
| IntHashSets.IntHashSet.GetValueAt | src/main/java/com/example/hideenemyhealth/systems/hideentityui/IntHashSet.java:50-52 | a used slot's value is an element |
| IntHashSets.IntHashSet.Enumerates | src/main/java/com/example/hideenemyhealth/systems/hideentityui/IntHashSet.java:42-56 | scanning slots 0..capacity with isUsedAt/getValueAt yields exactly the elements |
| LongHashSets.LongHashSet.constructor | src/main/java/com/example/hideenemyhealth/systems/hideentityui/LongHashSet.java:12-17 | an empty table whose length is the least power of two covering the request |
| LongHashSets.LongHashSet.Add | src/main/java/com/example/hideenemyhealth/systems/hideentityui/LongHashSet.java:19-29 | see note (h) below |
| LongHashSets.LongHashSet.Probe | src/main/java/com/example/hideenemyhealth/systems/hideentityui/LongHashSet.java:21-25 | the probe stops at the key's slot exactly when it is an element; otherwise at an unused slot |
| LongHashSets.LongHashSet.Contains | src/main/java/com/example/hideenemyhealth/systems/hideentityui/LongHashSet.java:31-39 | true iff the key was added; the set is not modified |
| LongHashSets.LongHashSet.Place | src/main/java/com/example/hideenemyhealth/systems/hideentityui/LongHashSet.java:21-28 | inserting a key gives elements plus {key}; size grows only for a new key |
| LongHashSets.LongHashSet.Occupy | src/main/java/com/example/hideenemyhealth/systems/hideentityui/LongHashSet.java:26-28 | taking the slot where the probe stopped adds the key once |
| LongHashSets.LongHashSet.Rehash | src/main/java/com/example/hideenemyhealth/systems/hideentityui/LongHashSet.java:41-50 | membership and size are kept, in fresh arrays of the new length |
| LongHashSets.LongHashSet.ReaddAll | src/main/java/com/example/hideenemyhealth/systems/hideentityui/LongHashSet.java:47-49 | re-adding every used old slot yields exactly the old contents |
| LongHashSets.LongHashSet.ReaddSlot | src/main/java/com/example/hideenemyhealth/systems/hideentityui/LongHashSet.java:48 | one iteration extends the re-added prefix by one old slot |
| HidePlayerNameplateApplier.WantHide | src/main/java/com/example/hideenemyhealth/systems/hidenameplate/HidePlayerNameplateApplier.java:45 | a forced restore never hides |
| HidePlayerNameplateApplier.Refresh | src/main/java/com/example/hideenemyhealth/systems/hidenameplate/HidePlayerNameplateApplier.java:59-61 | while not hidden, a present nameplate becomes the baseline; a hidden entry is untouched |
| HidePlayerNameplateApplier.RecaptureAsWritten | src/main/java/com/example/hideenemyhealth/systems/hidenameplate/HidePlayerNameplateApplier.java:65-67 | as written: any present nameplate becomes the baseline, hidden or not |
| HidePlayerNameplateApplier.Recapture | src/main/java/com/example/hideenemyhealth/systems/hidenameplate/HidePlayerNameplateApplier.java:65-67 | corrected: as written, except the code's own empty placeholder is not captured while hidden |
| HidePlayerNameplateApplier.Apply | src/main/java/com/example/hideenemyhealth/systems/hidenameplate/HidePlayerNameplateApplier.java:28-126 | see note (i) below |
| HidePlayerNameplateApplier.HidePassKeepsRecoverable | src/main/java/com/example/hideenemyhealth/systems/hidenameplate/HidePlayerNameplateApplier.java:63-97 | one hide pass, however the host's remove and put behave, keeps the original nameplate recoverable |
| HidePlayerNameplateApplier.HideManyKeepsRecoverable | src/main/java/com/example/hideenemyhealth/systems/hidenameplate/HidePlayerNameplateApplier.java:63-97 | any run of hide passes keeps the original recoverable |
| HidePlayerNameplateApplier.HideThenRestoreRoundTrip | src/main/java/com/example/hideenemyhealth/systems/hidenameplate/HidePlayerNameplateApplier.java:28-126 | after any number of hide passes, a successful restore shows the original nameplate again, with the entry visible |
| HidePlayerNameplateApplier.AsWrittenLosesBaseline | src/main/java/com/example/hideenemyhealth/systems/hidenameplate/HidePlayerNameplateApplier.java:65-67 | counterexample for the code as written: two fallback hides and a restore leave the empty nameplate |
| HidePlayerNameplateApplier.CorrectedKeepsBaseline | src/main/java/com/example/hideenemyhealth/systems/hidenameplate/HidePlayerNameplateApplier.java:65-67 | with the corrected capture, the same calls bring the real nameplate back |
| HidePlayerNameplateApplier.RestoreIsIdempotent | src/main/java/com/example/hideenemyhealth/systems/hidenameplate/HidePlayerNameplateApplier.java:100-123 | with hiding off and the entry visible, a call attempts nothing, changes no nameplate, and the entry stays visible |
| HidePlayerNameplateApplier.ApplyForRefAndReport | src/main/java/com/example/hideenemyhealth/systems/hidenameplate/HidePlayerNameplateApplier.java:28-126 | store, cache and result are those `Apply` gives for the reference's packed key and `wantHide` |
| HidePlayerNameplateApplier.ApplyToPlayer | src/main/java/com/example/hideenemyhealth/systems/hidenameplate/HidePlayerNameplateApplier.java:47-125 | the part after the player check ends in the state the corrected pass describes |
| WorldMapMarkers.WithPlayerIcons | src/main/java/com/example/hideenemyhealth/worldmap/PlayerMapMarkerController.java:158-162 | "playerIcons" is then the given provider, or absent for None; other keys are unchanged |
| WorldMapMarkers.Capture | src/main/java/com/example/hideenemyhealth/worldmap/PlayerMapMarkerController.java:123-131 | the first capture of a world remembers its current provider (possibly none); later captures change nothing |
| WorldMapMarkers.Restore | src/main/java/com/example/hideenemyhealth/worldmap/PlayerMapMarkerController.java:136-163 | a never-captured world is untouched; a captured one gets its remembered provider back, or the key removed; other keys are unchanged |
| WorldMapMarkers.ApplyOnWorld | src/main/java/com/example/hideenemyhealth/worldmap/PlayerMapMarkerController.java:99-118 | see note (j) below |
| WorldMapMarkers.ApplyMany | src/main/java/com/example/hideenemyhealth/worldmap/PlayerMapMarkerController.java:99-118 | a run of applies captures the world and touches no other key |
| WorldMapMarkers.ApplyManyKeepsOriginal | src/main/java/com/example/hideenemyhealth/worldmap/PlayerMapMarkerController.java:126-130 | once remembered, the original provider is never overwritten by later applies |
| WorldMapMarkers.HideThenUnhideRoundTrip | src/main/java/com/example/hideenemyhealth/worldmap/PlayerMapMarkerController.java:110-162 | starting from an uncaptured world, any run of applies followed by an unhide (or a restore) leaves the provider table exactly as before |
| WorldMapMarkers.PlayerMapMarkerController.ApplyToWorld | src/main/java/com/example/hideenemyhealth/worldmap/PlayerMapMarkerController.java:86-94 | see note (k) below |
| WorldMapMarkers.PlayerMapMarkerController.ApplyOnWorldThread | src/main/java/com/example/hideenemyhealth/worldmap/PlayerMapMarkerController.java:99-118 | see note (l) below |
| WorldMapMarkers.PlayerMapMarkerController.CaptureOriginalIfNeeded | src/main/java/com/example/hideenemyhealth/worldmap/PlayerMapMarkerController.java:123-131 | the controller's maps become those `Capture` gives |
| WorldMapMarkers.PlayerMapMarkerController.RestoreOnWorldThread | src/main/java/com/example/hideenemyhealth/worldmap/PlayerMapMarkerController.java:136-163 | the manager's table becomes the one `Restore` gives; a null manager is left alone |

Notes on the longer contracts:

- **(a) `UiComponentCache.Classifier.EnsureCache`**
  - When already ready, it returns true and changes nothing.
  - A missing table or a host fault returns false and publishes nothing.
  - Otherwise it publishes exactly the two flag tables and becomes ready.
- **(b) `IdLists.DesiredMembership`**: the flags are `hideDamageNumbers` for combat text and `hideHealthBar` for health stats.
- **(c) `UiComponentListBaselineSupport.Restore`**
  - With no baseline, nothing happens.
  - A baseline equal to the live ids is dropped without a write.
  - Otherwise exactly that baseline is written to the entity and dropped.
  - A baseline that differs from the live ids is always written back when the write succeeds.
  - A failed write keeps the entry and changes nothing.
  - The answer is true exactly when the lists changed.
- **(d) `HideEntityUiApplier.Apply`**
  - An invalid reference, or a missing list or ids, changes nothing.
  - With the feature enabled, a failed category read, or an entity that is neither player nor NPC, changes nothing.
  - Only the entity's list and its baseline entry can change.
  - An existing baseline is never overwritten.
  - A new baseline is created only when something is to be hidden. It is the deduplicated live list, tagged with the entity's kind.
  - No growth: with the classifier ready and writes succeeding, an unchanged entity gets no new entry.
  - A restoring write installs the cached baseline.
  - A hiding write installs the baseline filtered with the target's flags.
  - Hiding takes effect: for a valid player or NPC with live ids, the feature enabled and a target that hides something, a classifier that is or becomes ready and a successful write leave the entity showing its baseline (cached, or the deduplicated live list) filtered with the target's flags.
  - Restoring takes effect: for a valid entity with live ids, when the feature is disabled or the target hides nothing, the call is exactly `Restore` of the entity's cached baseline.
  - The answer is true exactly when the lists changed.
- **(e) `HideEntityUiApplier.HideThenDisableRoundTrip`**: an entity with no baseline and a duplicate-free list returns to exactly its original list and cache after two calls, one enabled and then one disabled.
- **(f) `OpenAddressing.InsertAt`**: writing a key absent from the table at the unused slot where its probe stopped keeps the table well formed. The contents gain exactly that key and the used count grows by one.
- **(g) `IntHashSets.IntHashSet.Add`**
  - Afterwards the elements are the old ones plus v.
  - Adding a present value changes no count.
  - The table doubles exactly when the load check fires.
  - The table stays at most half full, so it is never full.
- **(h) `LongHashSets.LongHashSet.Add`**
  - Afterwards the elements are the old ones plus the key.
  - Adding a present key changes no size.
  - The table stays at most half full.
- **(i) `HidePlayerNameplateApplier.Apply`**
  - An invalid reference, a non-player, or a throwing Player read changes nothing.
  - Otherwise the entry exists afterwards.
  - A hide attempt marks the entry hidden and removes the component. If the remove fails it writes the empty nameplate, and if that also fails it leaves the component alone.
  - A hide is attempted unless the entry is already hidden with no component.
  - A restore is attempted exactly for a hidden entry with a baseline, and succeeds iff the put does. It writes that baseline and clears `hidden`.
  - A restore whose put fails leaves the entry hidden, so a later call tries again.
  - A hidden entry with no baseline, whose nameplate is present again, becomes visible without any write.
  - While the entry is visible or new, a present nameplate becomes its baseline.
  - Only this player's nameplate and entry change.
- **(j) `WorldMapMarkers.ApplyOnWorld`**
  - The world is captured afterwards, with its provider from before the first apply remembered.
  - Hiding installs the no-op provider.
  - Unhiding installs the remembered provider, or removes the key.
  - Other keys are unchanged.
- **(k) `WorldMapMarkers.PlayerMapMarkerController.ApplyToWorld`**
  - `hide` holds iff the config is non-null, enabled, has map settings, and those hide player markers.
  - The controller and manager then end as `ApplyOnWorld` gives.
  - A null manager leaves the controller's maps alone.
- **(l) `WorldMapMarkers.PlayerMapMarkerController.ApplyOnWorldThread`**: the controller's maps and the manager's table become those `ApplyOnWorld` gives. A null manager leaves the maps alone.

## Left out

- Reflection shims are not modelled: the field accessor, clone/copy of UI lists and nameplates, remove support, the world-map provider accessor, and the NPC/player/world-store access helpers.
  - A copy is modelled as an equal value; lists and nameplates are immutable values here, so aliasing and "fresh array" identity are not represented.
  - A remove, put or write on the entity store (UI lists, nameplates) is modelled as a boolean success input. The world-map provider accessor is not: its reads and writes are assumed exact (see below).
- `EntityUiBaselineCache.entityKey` probes host getters reflectively. That probing is not modelled: the UI applier receives the entity's key as a number the host supplies.
- The nameplate key for a reference whose store read throws (NameplateBaselineCache.java:36-37) is not distinguished: `KeyOf` uses the packed key for every valid reference.
- Concurrency is not modelled, because the model is sequential:
  - volatile and atomic fields;
  - `synchronized` blocks;
  - `ConcurrentHashMap`;
  - `WeakHashMap` collection of unloaded worlds (plain maps here).
- Deferred `CommandBuffer` writes are treated as immediate store writes. A hop to the world thread runs at once.
- `PlayerMapMarkerController.applyToAllLoadedWorlds` and `restoreAllLoadedWorlds` (PlayerMapMarkerController.java:60-81) only iterate the host's world list and call the per-world operations modelled above.
- A world whose `getWorldMapManager` throws is modelled like a null manager.
- WorldMapMarkers.ApplyOnWorld assumes the world-map provider accessor is exact. In the source, getProvider answers null when its reflective lookup fails (WorldMapProviderAccessor.java:62-75), and set and remove can silently do nothing (WorldMapProviderAccessor.java:81-119). A failed read would be captured as "no original", and a write that does nothing would leave the provider table as it was.
- WorldMapMarkers.HideThenUnhideRoundTrip rests on the same exact-accessor assumption. If the capturing read failed, unhide would remove the "playerIcons" key instead of putting the original provider back, so the round trip is not promised then.
- NameplateBaselineCache.KeyOfSeparatesEntities keys an entity by its store's identity hash and index. Two stores whose identity hashes collide share keys, which the model does not represent: store identities are assumed distinct. An invalid reference is keyed by its own identity hash, which can equal a valid reference's packed key (`InvalidKeyCanCollide` gives one such pair).
- File I/O of the config, the dashboard UI, commands, plugin lifecycle, the ECS systems and refresh passes, the baseline GC pass, logging, timing and the one-shot warning flags are not modelled. None of them decides override state.
- The config's `map` (with `hidePlayerMarkers`) and the players' `hideNameplate` flag are read by the controller and the nameplate applier, but `HideEnemyHealthConfig.java` as given does not declare them. They are modelled as plain fields (`mapSettings`, `TargetSettings.hideNameplate`), defaulting to false.
- The applier calls `putBaselineIfAbsent`, `remove(long)` and the `KIND_*` tags, which `EntityUiBaselineCache.java` as given does not define.
  - They are modelled after their call sites as put-if-absent returning the stored value, removal by key, and an opaque kind stored with the entry.
  - `GetOrCreateBaseline`, which carries no kind, tags its entries unknown.
- UI applier order: the code creates the baseline before `ensureCache`. A classifier failure therefore leaves a new baseline behind, and `Apply`'s no-growth clause is stated only for a ready classifier and a successful write.
- HideEntityUiApplier's private copies of `computeDesiredIds`, `buildBaselineFromCurrent` and `restoreBaselineIfPresent` (HideEntityUiApplier.java:191-216, 310-348) have the same bodies as the support classes. The model has one definition of each.
- `HideEntityUiApplier.Hide`: the hiding branch has no contract of its own. Its properties are stated on `Apply` and the step functions `WithBaseline` and `WriteStep`.
- The hash mixers `mix32`/`mix64To32` are written out on bit-vectors. Set correctness does not depend on them, and nothing is proved about their distribution.
- Java `int`/`long` set elements are unbounded integers, hashed by their 32/64-bit patterns.
- `IntHashSets.IntHashSet.constructor`: requires a capacity request of at most 2^30. Larger requests make the Java `cap <<= 1` loop overflow `int` and never terminate.
- `LongHashSets.LongHashSet.constructor`: has the same limit as the IntHashSet constructor.
- Both hash sets assume their doubling never pushes the length past 2^31. Java array lengths are not bounded in the model.
- A `UiComponentCache` build failure part-way through is one `hostFault` input. The model publishes nothing in that case, as the code does.

## Findings

| source | as written | input that shows it | evidently intended | confidence | as-written member | corrected member |
|---|---|---|---|---|---|---|
| src/main/java/com/example/hideenemyhealth/systems/hidenameplate/HidePlayerNameplateApplier.java:65-67 | Every hide pass copies any present nameplate into `entry.baseline`, even while the entry is hidden. When the remove failed and the empty fallback nameplate was written, the next hide pass captures that empty nameplate over the real baseline. | Player EntityId(1,2), key 7, nameplate "Steve". Two hide passes where remove fails and put succeeds, then a restore pass. The player ends with the empty nameplate. | Keep the real baseline: do not capture the plugin's own placeholder while hidden, so the restore puts "Steve" back | medium; not executed | HidePlayerNameplateApplier.AsWrittenLosesBaseline | HidePlayerNameplateApplier.HideThenRestoreRoundTrip |
