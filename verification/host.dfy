/**
 * The host ECS state the appliers read and write, reduced to what they touch:
 * per-entity components keyed by entity, and the two marker components that
 * tell players from NPCs. A reference is its validity and the entity it points at,
 * which is its store's identity hash and its index in that store.
 */
module Host {
  import opened Wrappers

  /** An entity: the identity hash of its store and its index there. */
  datatype EntityId = EntityId(storeId: bv32, index: bv32)

  /** An entity reference: `isValid()` and the entity it points at. */
  datatype Ref = Ref(valid: bool, entity: EntityId)

  /** The UI-component-list component; `componentIds` None stands for a null id array. */
  datatype UiComponentList = UiComponentList(componentIds: Option<seq<int>>)

  /** The nameplate component: the text shown above a player's head. */
  datatype Nameplate = Nameplate(text: string)

  class EntityStore {
    /** UIComponentList per entity (absent: the entity has no such component). */
    var uiLists: map<EntityId, UiComponentList>
    /** Nameplate per entity. */
    var nameplates: map<EntityId, Nameplate>
    /** Entities carrying the Player component. */
    var players: set<EntityId>
    /** Entities carrying the NPCEntity component. */
    var npcs: set<EntityId>

    constructor (uiLists: map<EntityId, UiComponentList>, nameplates: map<EntityId, Nameplate>,
                 players: set<EntityId>, npcs: set<EntityId>)
      ensures this.uiLists == uiLists && this.nameplates == nameplates
      ensures this.players == players && this.npcs == npcs
    {
      this.uiLists := uiLists;
      this.nameplates := nameplates;
      this.players := players;
      this.npcs := npcs;
    }
  }
}
