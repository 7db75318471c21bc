/** The `Tray` of traylib/tray.py: an ordered list of item boxes changed in
    place, a dictionary from each box to the handlers connected on it, and
    the signals the tray emits. Adding a box connects its "destroyed" signal
    to `remove_box`, so destroying a box removes it from the tray; `destroy`
    iterates the very list those removals shrink. */
module Trays {
  import opened Base
  import opened ItemBoxes
  import opened Items

  /** The handlers `add_box` connects on a box, one per signal it forwards
      or reacts to. A handler id is represented by the signal it serves. */
  datatype Handler = OnItemAdded | OnItemRemoved | OnDestroyed

  /** The handler list `add_box` records for a box, in connection order. */
  const BoxHandlers: seq<Handler> := [OnItemAdded, OnItemRemoved, OnDestroyed]

  /** What the tray does observably: the signals it emits, and the
      disconnection of a handler from a box. */
  datatype TrayEvent =
    | BoxAdded(box: ItemBox)
    | BoxRemoved(box: ItemBox)
    | BoxReordered(box: ItemBox, position: int)
    | ItemAddedTo(box: ItemBox, item: Item)
    | ItemRemovedFrom(box: ItemBox, item: Item)
    | TrayDestroyed
    | Disconnected(box: ItemBox, handler: Handler)

  /** The disconnection of each handler in a list, in order. */
  function Disconnects(b: ItemBox, hs: seq<Handler>): (r: seq<TrayEvent>)
    ensures |r| == |hs|
    ensures forall i | 0 <= i < |hs| :: r[i] == Disconnected(b, hs[i])
  {
    if hs == [] then [] else [Disconnected(b, hs[0])] + Disconnects(b, hs[1..])
  }

  /** What `remove_box` does observably once it has popped a box's
      handler list: each handler is disconnected, then "box-removed" is
      emitted. */
  function RemovalEvents(b: ItemBox, hs: seq<Handler>): seq<TrayEvent> {
    Disconnects(b, hs) + [BoxRemoved(b)]
  }

  /** The removal events of several boxes, in order. */
  function BoxRemovals(bs: seq<ItemBox>): (r: seq<TrayEvent>)
    ensures |r| == 4 * |bs|
  {
    if bs == [] then [] else BoxRemovals(bs[..|bs|-1]) + RemovalEvents(bs[|bs|-1], BoxHandlers)
  }

  lemma BoxRemovalsStep(log: seq<TrayEvent>, bs: seq<ItemBox>, b: ItemBox)
    ensures log + BoxRemovals(bs) + RemovalEvents(b, BoxHandlers) == log + BoxRemovals(bs + [b])
  {
    assert (bs + [b])[..|bs|] == bs;
  }

  /** The tray's invariant: no box is listed twice, the handler dictionary
      has an entry for exactly the listed boxes, and each entry is the
      handler list `add_box` records. */
  predicate Consistent(boxes: seq<ItemBox>, handlers: map<ItemBox, seq<Handler>>) {
    && Distinct(boxes)
    && (forall b | b in handlers :: b in boxes)
    && (forall i | 0 <= i < |boxes| :: boxes[i] in handlers)
    && (forall b | b in handlers :: handlers[b] == BoxHandlers)
  }

  /** Adding a box to a consistent tray keeps it consistent exactly when the
      box is not there yet: a second `add_box` of the same box lists it
      twice under one dictionary entry. */
  lemma AddConsistent(boxes: seq<ItemBox>, handlers: map<ItemBox, seq<Handler>>, b: ItemBox)
    requires Consistent(boxes, handlers)
    ensures Consistent(boxes + [b], handlers[b := BoxHandlers]) <==> b !in boxes
  {
    var n := boxes + [b];
    if b in boxes {
      var k := IndexOf(boxes, b);
      assert n[k] == n[|boxes|];
    } else {
      forall p, q | 0 <= p < q < |n| ensures n[p] != n[q] {
        if q == |boxes| {
          assert n[p] == boxes[p];
        }
      }
    }
  }

  /** Removing a listed box from a consistent tray, with its dictionary
      entry, keeps it consistent; the entry is there to pop. */
  lemma RemoveConsistent(boxes: seq<ItemBox>, handlers: map<ItemBox, seq<Handler>>, b: ItemBox)
    requires Consistent(boxes, handlers) && b in boxes
    ensures b in handlers
    ensures Consistent(RemoveFirst(boxes, b), handlers - {b})
  {
    var k := IndexOf(boxes, b);
    assert RemoveFirst(boxes, b) == boxes[..k] + boxes[k+1..];
    DistinctDelete(boxes, k);
    DeleteMembers(boxes, k);
  }

  /** Reordering a listed box keeps a consistent tray consistent. */
  lemma ReorderConsistent(boxes: seq<ItemBox>, handlers: map<ItemBox, seq<Handler>>, b: ItemBox, position: int)
    requires Consistent(boxes, handlers) && b in boxes
    ensures Consistent(MoveTo(boxes, b, position), handlers)
  {
    RemoveConsistent(boxes, handlers, b);
    InsertConsistent(RemoveFirst(boxes, b), handlers - {b}, b, position);
    assert (handlers - {b})[b := BoxHandlers] == handlers;
  }

  /** Inserting a box that is not in a consistent tray, with its handler
      list, anywhere in the list keeps the tray consistent. */
  lemma InsertConsistent(boxes: seq<ItemBox>, handlers: map<ItemBox, seq<Handler>>, b: ItemBox, position: int)
    requires Consistent(boxes, handlers) && b !in handlers
    ensures Consistent(Insert(boxes, position, b), handlers[b := BoxHandlers])
  {
    var j := InsertIndex(|boxes|, position);
    var n := boxes[..j] + [b] + boxes[j..];
    assert Insert(boxes, position, b) == n;
    assert b !in boxes;
    InsertDistinct(boxes, j, b);
    forall i | 0 <= i < |n| ensures n[i] in handlers[b := BoxHandlers] {
      assert n[i] in n;
    }
  }

  /** A consistent tray without boxes has no handler entries. */
  lemma EmptyConsistent(handlers: map<ItemBox, seq<Handler>>)
    requires Consistent([], handlers)
    ensures handlers == map[]
  {
  }

  class Tray {
    /** `__boxes`, in display order. */
    var boxes: seq<ItemBox>
    /** `__box_handlers`: the handlers connected on each box. */
    var handlers: map<ItemBox, seq<Handler>>
    /** The signals emitted and the handlers disconnected, in order. */
    var events: seq<TrayEvent>

    predicate Valid()
      reads this
    {
      Consistent(boxes, handlers)
    }

    constructor ()
      ensures boxes == [] && handlers == map[] && events == []
      ensures Valid()
    {
      boxes := [];
      handlers := map[];
      events := [];
    }

    /** `add_box`: appended, its handlers recorded, "box-added" emitted. */
    method AddBox(b: ItemBox)
      modifies this
      ensures boxes == old(boxes) + [b]
      ensures handlers == old(handlers)[b := BoxHandlers]
      ensures events == old(events) + [BoxAdded(b)]
    {
      boxes := boxes + [b];
      handlers := handlers[b := BoxHandlers];
      events := events + [BoxAdded(b)];
    }

    /** The handler forwarding a box's "item-added". */
    method BoxItemAdded(b: ItemBox, it: Item)
      modifies this
      ensures boxes == old(boxes) && handlers == old(handlers)
      ensures events == old(events) + [ItemAddedTo(b, it)]
    {
      events := events + [ItemAddedTo(b, it)];
    }

    /** The handler forwarding a box's "item-removed". */
    method BoxItemRemoved(b: ItemBox, it: Item)
      modifies this
      ensures boxes == old(boxes) && handlers == old(handlers)
      ensures events == old(events) + [ItemRemovedFrom(b, it)]
    {
      events := events + [ItemRemovedFrom(b, it)];
    }

    /** `remove_box`: `list.remove` raises `ValueError`, before anything
        changes, unless the box is listed; the box leaves the list first,
        then popping its dictionary entry raises `KeyError` if there is
        none; otherwise each of its handlers is disconnected and
        "box-removed" emitted. */
    method RemoveBox(b: ItemBox) returns (err: Option<PyError>)
      modifies this
      ensures b !in old(boxes) ==>
        err == Some(ValueError) && boxes == old(boxes) && handlers == old(handlers) && events == old(events)
      ensures b in old(boxes) ==> boxes == RemoveFirst(old(boxes), b)
      ensures b in old(boxes) && b in old(handlers) ==>
        && err == None
        && handlers == old(handlers) - {b}
        && events == old(events) + RemovalEvents(b, old(handlers)[b])
      ensures b in old(boxes) && b !in old(handlers) ==>
        err == Some(KeyError) && handlers == old(handlers) && events == old(events)
    {
      if b !in boxes {
        return Some(ValueError);
      }
      boxes := RemoveFirst(boxes, b);
      if b !in handlers {
        return Some(KeyError);
      }
      var hs := handlers[b];
      handlers := handlers - {b};
      var log := [];
      for i := 0 to |hs|
        invariant log == Disconnects(b, hs[..i])
        invariant boxes == RemoveFirst(old(boxes), b) && handlers == old(handlers) - {b}
        invariant events == old(events)
      {
        assert hs[..i+1] == hs[..i] + [hs[i]];
        DisconnectsSnoc(b, hs[..i], hs[i]);
        log := log + [Disconnected(b, hs[i])];
      }
      assert hs[..|hs|] == hs;
      events := events + (log + [BoxRemoved(b)]);
      return None;
    }

    /** The list operations of `reorder_box` on a listed box. */
    method Reorder(b: ItemBox, position: int)
      requires b in boxes
      modifies this
      ensures boxes == MoveTo(old(boxes), b, position)
      ensures 0 <= position < |boxes| ==>
        boxes[position] == b && multiset(boxes) == multiset(old(boxes))
        && boxes[..position] + boxes[position+1..] == RemoveFirst(old(boxes), b)
      ensures handlers == old(handlers)
      ensures events == old(events) + [BoxReordered(b, position)]
    {
      if 0 <= position < |boxes| {
        MoveToPlaces(boxes, b, position);
      }
      boxes := MoveTo(boxes, b, position);
      events := events + [BoxReordered(b, position)];
    }

    /** `reorder_box`: removed, then inserted at the position; `ValueError`,
        before anything changes, when the box is not listed. */
    method ReorderBox(b: ItemBox, position: int) returns (err: Option<PyError>)
      modifies this
      ensures b in old(boxes) ==>
        && err == None
        && boxes == MoveTo(old(boxes), b, position)
        && events == old(events) + [BoxReordered(b, position)]
      ensures b in old(boxes) && 0 <= position < |old(boxes)| ==>
        boxes[position] == b && multiset(boxes) == multiset(old(boxes))
        && boxes[..position] + boxes[position+1..] == RemoveFirst(old(boxes), b)
      ensures b !in old(boxes) ==> err == Some(ValueError) && boxes == old(boxes) && events == old(events)
      ensures handlers == old(handlers)
    {
      if b !in boxes {
        return Some(ValueError);
      }
      Reorder(b, position);
      return None;
    }

    /** `get_box`: the first box with the identifier, or `None`. */
    method GetBox(boxId: string) returns (r: Option<ItemBox>)
      ensures r.None? <==> forall i | 0 <= i < |boxes| :: boxes[i].id != boxId
      ensures r.Some? ==> exists i | 0 <= i < |boxes| ::
        && boxes[i] == r.value && r.value.id == boxId
        && forall j | 0 <= j < i :: boxes[j].id != boxId
    {
      var i := 0;
      while i < |boxes|
        invariant 0 <= i <= |boxes|
        invariant forall j | 0 <= j < i :: boxes[j].id != boxId
      {
        if boxes[i].id == boxId {
          return Some(boxes[i]);
        }
        i := i + 1;
      }
      return None;
    }

    /** `destroy` as written: `for box in self.__boxes: box.destroy()`. Every
        box's "destroyed" signal runs `remove_box`, which shrinks the list
        under the iterator, so the box after each destroyed one is skipped.
        The result is the boxes whose `destroy` was called, in order. */
    method Destroy() returns (destroyed: seq<ItemBox>)
      requires Valid()
      modifies this
      ensures boxes == Visit(old(boxes), {}).0
      ensures destroyed == Visit(old(boxes), {}).1
      ensures Valid()
      ensures events == old(events) + BoxRemovals(destroyed) + [TrayDestroyed]
    {
      ghost var goal := Visit(boxes, {});
      destroyed := [];
      var i := 0;
      VisitStart(boxes, {});
      while i < |boxes|
        invariant VisitInv(boxes, i, {}, destroyed, goal)
        invariant Valid()
        invariant events == old(events) + BoxRemovals(destroyed)
        decreases |boxes| + 1 - i
      {
        var b := boxes[i];
        VisitTurn(boxes, i, {}, destroyed, goal);
        RemoveConsistent(boxes, handlers, b);
        assert handlers[b] == BoxHandlers;
        var _ := RemoveBox(b);
        BoxRemovalsStep(old(events), destroyed, b);
        destroyed := destroyed + [b];
        i := i + 1;
      }
      VisitEnd(boxes, i, {}, destroyed, goal);
      events := events + [TrayDestroyed];
    }

    /** `destroy` as intended: iterating over a copy of the list destroys
        every box, and the tray ends empty. */
    method DestroyAll() returns (destroyed: seq<ItemBox>)
      requires Valid()
      modifies this
      ensures destroyed == old(boxes)
      ensures boxes == [] && handlers == map[]
      ensures events == old(events) + BoxRemovals(destroyed) + [TrayDestroyed]
    {
      var copy := boxes;
      destroyed := [];
      for i := 0 to |copy|
        invariant boxes == copy[i..] && destroyed == copy[..i]
        invariant Valid()
        invariant events == old(events) + BoxRemovals(destroyed)
      {
        var b := copy[i];
        RemoveConsistent(boxes, handlers, b);
        assert handlers[b] == BoxHandlers;
        RemoveFirstOfSuffix(copy, i);
        TakeSnoc(copy, i);
        var _ := RemoveBox(b);
        BoxRemovalsStep(old(events), destroyed, b);
        destroyed := destroyed + [b];
      }
      assert destroyed == copy;
      EmptyConsistent(handlers);
      events := events + [TrayDestroyed];
    }
  }

  lemma DisconnectsSnoc(b: ItemBox, hs: seq<Handler>, h: Handler)
    ensures Disconnects(b, hs + [h]) == Disconnects(b, hs) + [Disconnected(b, h)]
  {
  }
}
