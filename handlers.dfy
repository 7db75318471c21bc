/** The item bookkeeping of traylib/handlers.py: which handlers each item
    id has, and the watchers told about items and handlers coming and going.
    The watchers are a set, so they are told in an order the model leaves
    open: each notification round is stated as "in some enumeration of the
    watchers, each one once". The handlers of an item are kept as the set of
    handlers the search found. */
module HandlerSets {
  import opened Base
  import opened ItemStates
  import opened HandlerCore

  type WatcherId = nat

  /** What a watcher is told, and the states the handlers are asked to
      clear. */
  datatype WatchEvent =
    | ItemAdded(watcher: WatcherId, item: ItemId, handlers: set<HandlerId>)
    | ItemRemoved(watcher: WatcherId, item: ItemId)
    | HandlersAdded(watcher: WatcherId, item: ItemId, handlers: set<HandlerId>)
    | HandlersRemoved(watcher: WatcherId, item: ItemId, handlers: set<HandlerId>)
    | StateCleared(handler: HandlerId, item: ItemId)

  /** What one notification round tells every watcher. */
  datatype Note = AddedNote(hs: set<HandlerId>) | RemovedNote | UpdateNote(added: set<HandlerId>, removed: set<HandlerId>)

  /** The calls one watcher receives in a round. */
  function NoteFor(w: WatcherId, id: ItemId, note: Note): seq<WatchEvent> {
    match note
    case AddedNote(hs) => [ItemAdded(w, id, hs)]
    case RemovedNote => [ItemRemoved(w, id)]
    case UpdateNote(added, removed) => [HandlersAdded(w, id, added), HandlersRemoved(w, id, removed)]
  }

  /** A round that visits the watchers in `order`. */
  function Notes(order: seq<WatcherId>, id: ItemId, note: Note): seq<WatchEvent> {
    if order == [] then []
    else
      var n := |order| - 1;
      Notes(order[..n], id, note) + NoteFor(order[n], id, note)
  }

  /** The `_clear_state` calls for the handlers in `order`. */
  function Clears(order: seq<HandlerId>, id: ItemId): (r: seq<WatchEvent>)
    ensures |r| == |order| && forall i | 0 <= i < |order| :: r[i] == StateCleared(order[i], id)
  {
    seq(|order|, i requires 0 <= i < |order| => StateCleared(order[i], id))
  }

  /** `add_watcher`'s replay: one `item_added` for each id in `ids`. */
  function Replay(w: WatcherId, ids: seq<ItemId>, m: map<ItemId, set<HandlerId>>): (r: seq<WatchEvent>)
    requires forall i | i in ids :: i in m
    ensures |r| == |ids| && forall k | 0 <= k < |ids| :: r[k] == ItemAdded(w, ids[k], m[ids[k]])
  {
    seq(|ids|, k requires 0 <= k < |ids| => ItemAdded(w, ids[k], m[ids[k]]))
  }

  /** `order` lists every element of `s` exactly once. */
  ghost predicate Enumerates<T(!new)>(order: seq<T>, s: set<T>) {
    Distinct(order) && forall x :: x in order <==> x in s
  }

  /** Picking one more element of a set extends an enumeration. */
  lemma EnumeratesSnoc<T(!new)>(order: seq<T>, done: set<T>, x: T)
    requires Enumerates(order, done) && x !in done
    ensures Enumerates(order + [x], done + {x})
  {
    var o := order + [x];
    forall i, j | 0 <= i < j < |o| ensures o[i] != o[j] {
      if j == |order| {
        assert o[i] in order;
      } else {
        assert o[i] == order[i] && o[j] == order[j];
      }
    }
  }

  /** The handlers `_update_handlers` reports: those gained and those lost.
      Together they turn the old set into the new one. */
  function HandlerDiff(before: set<HandlerId>, after: set<HandlerId>): (r: (set<HandlerId>, set<HandlerId>))
    ensures r.0 <= after && r.0 !! before
    ensures r.1 <= before && r.1 !! after
    ensures (before - r.1) + r.0 == after
  {
    (after - before, before - after)
  }

  /** The reported differences are the only ones that fit: anything else
      that turns the old set into the new one is the same pair. */
  lemma HandlerDiffUnique(before: set<HandlerId>, after: set<HandlerId>, added: set<HandlerId>, removed: set<HandlerId>)
    requires added <= after && added !! before && removed <= before && removed !! after
    requires (before - removed) + added == after
    ensures (added, removed) == HandlerDiff(before, after)
  {
    forall e ensures e in added <==> e in after - before {
      if e in after && e !in before {
        assert e !in before - removed;
      }
    }
    forall e ensures e in removed <==> e in before - after {
      if e in before && e !in after {
        assert e !in before - removed;
      }
    }
    assert added == after - before;
    assert removed == before - after;
  }

  /** The `_clear_state` loop of `_remove_item`: each handler of `hs`
      clears the item's state, in the set's order. */
  method ClearStates(id: ItemId, hs: set<HandlerId>) returns (clears: seq<WatchEvent>)
    ensures exists cleared | Enumerates(cleared, hs) :: clears == Clears(cleared, id)
  {
    var rest := hs;
    ghost var cleared: seq<HandlerId> := [];
    clears := [];
    while rest != {}
      invariant rest <= hs
      invariant Enumerates(cleared, hs - rest)
      invariant clears == Clears(cleared, id)
      decreases rest
    {
      var h :| h in rest;
      EnumeratesSnoc(cleared, hs - rest, h);
      clears := clears + [StateCleared(h, id)];
      cleared := cleared + [h];
      assert hs - (rest - {h}) == (hs - rest) + {h};
      rest := rest - {h};
    }
    assert hs - rest == hs;
  }

  class Handlers {
    /** `__handlers`: the handlers recorded for each item id. */
    var handlers: map<ItemId, set<HandlerId>>
    /** `__watchers` */
    var watchers: set<WatcherId>
    /** The calls made on watchers and handlers, in order. */
    var events: seq<WatchEvent>

    /** Only truthy ids are recorded, each with some handler. */
    predicate Valid()
      reads this
    {
      forall id | id in handlers :: id != "" && handlers[id] != {}
    }

    constructor ()
      ensures Valid()
      ensures handlers == map[] && watchers == {} && events == []
    {
      handlers := map[];
      watchers := {};
      events := [];
    }

    /** Constructing the same subclass again, as written: `Handler.__new__`
        hands back this registered instance and `Handler.__init__` returns
        at once, but `Handlers.__init__` goes on and resets the item record
        and the watchers of the shared instance. */
    method ReconstructAsWritten()
      modifies this
      ensures Valid()
      ensures handlers == map[] && watchers == {} && events == old(events)
    {
      handlers := map[];
      watchers := {};
    }

    /** Constructing the same subclass again as `Handler.__init__`'s early
        return intends: the registered instance comes back with its record
        and its watchers. */
    method Reconstruct()
      ensures handlers == old(handlers) && watchers == old(watchers) && events == old(events)
    {
    }

    /** One notification round: every watcher is told `note`, each once, in
        the set's order. */
    method Broadcast(id: ItemId, note: Note) returns (log: seq<WatchEvent>)
      ensures exists order | Enumerates(order, watchers) :: log == Notes(order, id, note)
    {
      var rest := watchers;
      ghost var order: seq<WatcherId> := [];
      log := [];
      while rest != {}
        invariant rest <= watchers
        invariant Enumerates(order, watchers - rest)
        invariant log == Notes(order, id, note)
        decreases rest
      {
        var w :| w in rest;
        EnumeratesSnoc(order, watchers - rest, w);
        assert (order + [w])[..|order|] == order;
        log := log + NoteFor(w, id, note);
        order := order + [w];
        assert watchers - (rest - {w}) == (watchers - rest) + {w};
        rest := rest - {w};
      }
      assert watchers - rest == watchers;
    }

    /** `add_watcher`'s replay loop: the watcher is told about every
        recorded item, in the dictionary's order. */
    method ReplayTo(w: WatcherId) returns (log: seq<WatchEvent>)
      ensures exists ids | Enumerates(ids, handlers.Keys) :: log == Replay(w, ids, handlers)
    {
      var rest := handlers.Keys;
      ghost var ids: seq<ItemId> := [];
      log := [];
      while rest != {}
        invariant rest <= handlers.Keys
        invariant Enumerates(ids, handlers.Keys - rest)
        invariant log == Replay(w, ids, handlers)
        decreases rest
      {
        var id :| id in rest;
        EnumeratesSnoc(ids, handlers.Keys - rest, id);
        log := log + [ItemAdded(w, id, handlers[id])];
        ids := ids + [id];
        assert handlers.Keys - (rest - {id}) == (handlers.Keys - rest) + {id};
        rest := rest - {id};
      }
      assert handlers.Keys - rest == handlers.Keys;
    }

    /** `add_watcher(watcher)`: the watcher joins and is told about every
        recorded item. */
    method AddWatcher(w: WatcherId)
      modifies this
      ensures watchers == old(watchers) + {w} && handlers == old(handlers)
      ensures exists ids | Enumerates(ids, handlers.Keys) :: events == old(events) + Replay(w, ids, handlers)
    {
      watchers := watchers + {w};
      var log := ReplayTo(w);
      events := events + log;
    }

    /** `remove_watcher(watcher)`: the watcher leaves; an absent watcher is
        the KeyError of `set.remove`, with nothing changed. */
    method RemoveWatcher(w: WatcherId) returns (err: Option<PyError>)
      modifies this
      ensures err.Some? <==> w !in old(watchers)
      ensures err.Some? ==> err.value == KeyError
      ensures watchers == old(watchers) - {w}
      ensures handlers == old(handlers) && events == old(events)
    {
      if w !in watchers {
        return Some(KeyError);
      }
      watchers := watchers - {w};
      return None;
    }

    /** `_add_item(item_id)`, where `t` is the handler tree as the new item
        sees it: a falsy id, or an item no handler takes, gives None and
        changes nothing; otherwise the handlers found are recorded and every
        watcher is told. */
    method AddItem(id: ItemId, t: HandlerTree) returns (r: Option<ItemId>)
      requires Valid()
      modifies this
      ensures Valid()
      ensures r.None? <==> id == "" || PreOrder(t) == []
      ensures r.None? ==> handlers == old(handlers) && events == old(events)
      ensures r.Some? ==>
        && r.value == id
        && handlers == old(handlers)[id := Accepting(t)]
        && exists order | Enumerates(order, watchers) ::
             events == old(events) + Notes(order, id, AddedNote(Accepting(t)))
      ensures watchers == old(watchers)
    {
      if id == "" {
        return None;
      }
      var found := GetHandlersFor(t);
      if found == [] {
        return None;
      }
      PreOrderMembers(t);
      var hs := set h | h in found;
      assert hs == Accepting(t);
      assert found[0] in hs;
      handlers := handlers[id := hs];
      var log := Broadcast(id, AddedNote(hs));
      events := events + log;
      return Some(id);
    }

    /** `_remove_item(item_id)`: a falsy or unrecorded id is ignored;
        otherwise every watcher is told, each recorded handler clears the
        item's state, and the record goes. */
    method RemoveItem(id: ItemId)
      requires Valid()
      modifies this
      ensures Valid()
      ensures id == "" || id !in old(handlers) ==> handlers == old(handlers) && events == old(events)
      ensures id != "" && id in old(handlers) ==>
        && handlers == old(handlers) - {id}
        && exists order, cleared | Enumerates(order, watchers) && Enumerates(cleared, old(handlers)[id]) ::
             events == old(events) + Notes(order, id, RemovedNote) + Clears(cleared, id)
      ensures id !in handlers && watchers == old(watchers)
    {
      if id == "" || id !in handlers {
        return;
      }
      var log := Broadcast(id, RemovedNote);
      var clears := ClearStates(id, handlers[id]);
      handlers := handlers - {id};
      events := events + log + clears;
    }

    /** `_update_handlers(item)`, where `t` is the handler tree as the item
        sees it now; the item must be recorded (the assertion on entry).
        With handlers found, the new set replaces the old and every watcher
        is told which were gained and which lost; with none, the record goes
        and every watcher is told the item is gone. */
    method UpdateHandlers(id: ItemId, t: HandlerTree)
      requires Valid() && id in handlers
      modifies this
      ensures Valid()
      ensures PreOrder(t) != [] ==>
        var d := HandlerDiff(old(handlers)[id], Accepting(t));
        && handlers == old(handlers)[id := Accepting(t)]
        && exists order | Enumerates(order, watchers) ::
             events == old(events) + Notes(order, id, UpdateNote(d.0, d.1))
      ensures PreOrder(t) == [] ==>
        && handlers == old(handlers) - {id}
        && exists order | Enumerates(order, watchers) ::
             events == old(events) + Notes(order, id, RemovedNote)
      ensures watchers == old(watchers)
    {
      var found := GetHandlersFor(t);
      if id in handlers {
        if found != [] {
          PreOrderMembers(t);
          var hs := set h | h in found;
          assert hs == Accepting(t);
          assert found[0] in hs;
          var d := HandlerDiff(handlers[id], hs);
          handlers := handlers[id := hs];
          var log := Broadcast(id, UpdateNote(d.0, d.1));
          events := events + log;
        } else {
          handlers := handlers - {id};
          var log := Broadcast(id, RemovedNote);
          events := events + log;
        }
      } else {
        // Lines 68-71 of the source: the assertion on entry rules this out.
        assert false;
      }
    }
  }

  /** A watcher added before the subclass is constructed again: forgotten
      as written, still there under the intended re-construction. */
  method ReconstructionForgetsWatcher(w: WatcherId) returns (asWritten: set<WatcherId>, intended: set<WatcherId>)
    ensures w !in asWritten && w in intended
  {
    var h := new Handlers();
    h.AddWatcher(w);
    h.Reconstruct();
    intended := h.watchers;
    h.ReconstructAsWritten();
    asWritten := h.watchers;
  }

  /** A round tells each watcher exactly once: every watcher of the set has
      one place, and only one, in the order the round visits them. */
  lemma WatchersToldOnce(order: seq<WatcherId>, watchers: set<WatcherId>, w: WatcherId)
    requires Enumerates(order, watchers) && w in watchers
    ensures exists k | 0 <= k < |order| ::
      (order[k] == w && forall j | 0 <= j < |order| && j != k :: order[j] != w)
  {
    var k :| 0 <= k < |order| && order[k] == w;
    assert forall j | 0 <= j < |order| && j != k :: order[j] != w;
  }
}
