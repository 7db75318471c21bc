/** The per-item state registry of traylib/item_state.py: one shared
    dictionary, class name -> item id -> state object. Constructing a state
    for an item that already has one of the same class hands back the
    existing object untouched; otherwise the new object registers itself.
    Item ids are strings. `Get` takes the empty string as the falsy id that
    asks for every state of the class; construction and `destroy` key the
    dictionary by the id as given, so the source's `None` id, a key of its
    own there, is not modelled. The
    state objects are also attribute stores (`Config`); that side is
    modelled in ConfigStore and not repeated here. */
module ItemStates {
  import opened Base

  type ItemId = string

  /** An `ItemState` object: the class it was made as and its item's id. */
  class ItemState {
    const className: string
    const item: ItemId

    constructor (className: string, item: ItemId)
      ensures this.className == className && this.item == item
    {
      this.className := className;
      this.item := item;
    }
  }

  type Registry = map<string, map<ItemId, ItemState>>

  /** `__states.get(cls, {})` */
  function ClassStates(states: Registry, cls: string): (r: map<ItemId, ItemState>)
    ensures cls !in states ==> r == map[]
  {
    if cls in states then states[cls] else map[]
  }

  /** `__states.get(cls, {}).get(item_id)` */
  function Find(states: Registry, cls: string, id: ItemId): (r: Option<ItemState>)
    ensures r.Some? <==> cls in states && id in states[cls]
    ensures r.Some? ==> r.value == states[cls][id]
  {
    var m := ClassStates(states, cls);
    if id in m then Some(m[id]) else None
  }

  /** `__states.setdefault(cls, {})[item_id] = state` */
  function Registered(states: Registry, cls: string, id: ItemId, s: ItemState): Registry {
    states[cls := ClassStates(states, cls)[id := s]]
  }

  /** `del __states.get(cls, {})[item_id]`, for a registered pair. */
  function Unregistered(states: Registry, cls: string, id: ItemId): Registry
    requires Find(states, cls, id).Some?
  {
    states[cls := states[cls] - {id}]
  }

  /** Registering a state makes exactly that (class, id) pair find it; every
      other pair, in particular every other class, finds what it found. */
  lemma RegisteredFind(states: Registry, cls: string, id: ItemId, s: ItemState, c: string, i: ItemId)
    ensures Find(Registered(states, cls, id, s), c, i) ==
      if c == cls && i == id then Some(s) else Find(states, c, i)
  {
  }

  /** Unregistering a pair makes it find nothing and leaves every other pair
      as it was. */
  lemma UnregisteredFind(states: Registry, cls: string, id: ItemId, c: string, i: ItemId)
    requires Find(states, cls, id).Some?
    ensures Find(Unregistered(states, cls, id), c, i) ==
      if c == cls && i == id then None else Find(states, c, i)
  {
  }

  /** What `get` returns: with an id, the state found (or None); with a
      falsy id, every (id, state) pair of the class. */
  datatype Lookup = One(state: Option<ItemState>) | All(pairs: map<ItemId, ItemState>)

  /** The class-level `__states` dictionary, shared by every subclass. */
  class StateRegistry {
    var states: Registry

    constructor ()
      ensures states == map[]
    {
      states := map[];
    }

    /** `cls.get(item_id)` */
    method Get(cls: string, id: ItemId) returns (r: Lookup)
      ensures id != "" ==> r == One(Find(states, cls, id))
      ensures id == "" ==> r == All(ClassStates(states, cls))
    {
      if id != "" {
        var m := ClassStates(states, cls);
        if id in m {
          return One(Some(m[id]));
        }
        return One(None);
      }
      return All(ClassStates(states, cls));
    }

    /** `cls(item)`: `__new__` looks the item up and returns a registered
        state as it is, and `__init__` then stops at once because the state
        is already registered under the id; otherwise a new object is made
        and registers itself. */
    method New(cls: string, id: ItemId) returns (s: ItemState)
      modifies this
      ensures Find(old(states), cls, id).Some? ==> s == Find(old(states), cls, id).value && states == old(states)
      ensures Find(old(states), cls, id).None? ==>
        fresh(s) && s.className == cls && s.item == id && states == Registered(old(states), cls, id, s)
      ensures Find(states, cls, id) == Some(s)
      ensures forall c, i | c != cls || i != id :: Find(states, c, i) == Find(old(states), c, i)
    {
      var found := Find(states, cls, id);
      if found.Some? {
        return found.value;
      }
      s := new ItemState(cls, id);
      RegisteredFind(states, cls, id, s, cls, id);
      forall c, i | c != cls || i != id
        ensures Find(Registered(states, cls, id, s), c, i) == Find(states, c, i)
      {
        RegisteredFind(states, cls, id, s, c, i);
      }
      states := Registered(states, cls, id, s);
    }

    /** `state.destroy()`: the entry of the state's class and item id goes
        (a missing entry is a KeyError the source does not catch). */
    method Destroy(s: ItemState)
      requires Find(states, s.className, s.item).Some?
      modifies this
      ensures states == Unregistered(old(states), s.className, s.item)
      ensures Find(states, s.className, s.item).None?
      ensures forall c, i | c != s.className || i != s.item :: Find(states, c, i) == Find(old(states), c, i)
    {
      forall c, i | c != s.className || i != s.item
        ensures Find(Unregistered(states, s.className, s.item), c, i) == Find(states, c, i)
      {
        UnregisteredFind(states, s.className, s.item, c, i);
      }
      states := Unregistered(states, s.className, s.item);
    }
  }

  /** Constructing the state of an item twice, as the same class, yields the
      same object and registers nothing new the second time. */
  lemma NewTwiceSame(states: Registry, cls: string, id: ItemId, s: ItemState)
    requires Find(states, cls, id) == Some(s)
    ensures Registered(states, cls, id, s) == states
  {
    assert ClassStates(states, cls)[id := s] == states[cls];
  }
}
