/** The `ItemBox` of traylib/item_box.py: an identifier fixed at
    construction and an ordered list of items changed in place, with the
    signals each change emits. Adding an item connects its "destroyed"
    signal to `remove_item`, so destroying an item removes it from the box;
    `destroy` iterates the very list those removals shrink. */
module ItemBoxes {
  import opened Base
  import opened Items

  /** A signal the box emits. */
  datatype BoxSignal =
    | ItemAdded(item: Item)
    | ItemRemoved(item: Item)
    | ItemReordered(item: Item, position: int)
    | BoxDestroyed

  /** One "item-removed" signal per item, in order. */
  function Removals(items: seq<Item>): (r: seq<BoxSignal>)
    ensures |r| == |items|
  {
    if items == [] then [] else Removals(items[..|items|-1]) + [ItemRemoved(items[|items|-1])]
  }

  // ---- Iterating a list that each visit shrinks -----------------------------

  /** `for x in s: x.destroy()` where destroying an element that is not yet
      destroyed (`done` holds those that are) removes it from `s` while the
      loop runs. Python's list iterator keeps its index, so the element after
      a removed one slides under the index and is never visited. The result
      is the list that remains and the elements destroyed, in order. */
  function Visit<T(==)>(s: seq<T>, done: set<T>): (r: (seq<T>, seq<T>))
    ensures |r.0| + |r.1| == |s|
    decreases |s|
  {
    if s == [] then ([], [])
    else if s[0] in done then
      var r := Visit(s[1..], done);
      ([s[0]] + r.0, r.1)
    else if |s| == 1 then ([], [s[0]])
    else
      var r := Visit(s[2..], done);
      ([s[1]] + r.0, [s[0]] + r.1)
  }

  /** One visit of an element already destroyed: it stays, and the index moves on. */
  lemma VisitSkip<T>(s: seq<T>, i: nat, d: set<T>)
    requires i < |s| && s[i] in d
    ensures s[..i+1] + Visit(s[i+1..], d).0 == s[..i] + Visit(s[i..], d).0
    ensures Visit(s[i+1..], d).1 == Visit(s[i..], d).1
  {
    assert s[i..][1..] == s[i+1..];
    assert s[..i+1] == s[..i] + [s[i]];
  }

  /** One visit of an element not yet destroyed: it goes, the next element
      slides under the index, and the index moves on past it. */
  lemma VisitRemove<T>(s: seq<T>, i: nat, d: set<T>)
    requires i < |s| && s[i] !in d && s[i] !in s[..i]
    ensures RemoveFirst(s, s[i]) == s[..i] + s[i+1..]
    ensures var n := s[..i] + s[i+1..];
      && (i + 1 <= |n| ==> n[..i+1] + Visit(n[i+1..], d).0 == s[..i] + Visit(s[i..], d).0)
      && (i + 1 > |n| ==> n == s[..i] + Visit(s[i..], d).0)
      && (i + 1 <= |n| ==> [s[i]] + Visit(n[i+1..], d).1 == Visit(s[i..], d).1)
      && (i + 1 > |n| ==> [s[i]] == Visit(s[i..], d).1)
  {
    assert s == s[..i] + [s[i]] + s[i+1..];
    RemoveFirstAt(s[..i], s[i], s[i+1..]);
    var n := s[..i] + s[i+1..];
    if i + 1 < |s| {
      assert s[i..][2..] == s[i+2..];
      assert n[..i+1] == s[..i] + [s[i+1]];
      assert n[i+1..] == s[i+2..];
    }
  }

  /** The elements at odd positions, and those at even positions. */
  function Odds<T>(s: seq<T>): seq<T> {
    if |s| < 2 then [] else [s[1]] + Odds(s[2..])
  }

  function Evens<T>(s: seq<T>): seq<T> {
    if |s| < 2 then s else [s[0]] + Evens(s[2..])
  }

  /** `Odds` takes every second element starting at index 1, `Evens` every
      second element starting at index 0; together they hold all elements. */
  lemma {:induction false} OddsEvensPositions<T>(s: seq<T>)
    ensures |Odds(s)| == |s| / 2 && |Evens(s)| == |s| - |s| / 2
    ensures forall k | 0 <= k < |Odds(s)| :: Odds(s)[k] == s[2 * k + 1]
    ensures forall k | 0 <= k < |Evens(s)| :: Evens(s)[k] == s[2 * k]
    decreases |s|
  {
    if |s| >= 2 {
      var t := s[2..];
      OddsEvensPositions(t);
      forall k | 1 <= k < |Odds(s)| ensures Odds(s)[k] == s[2 * k + 1] {
        assert Odds(s)[k] == Odds(t)[k - 1] == t[2 * (k - 1) + 1];
      }
      forall k | 1 <= k < |Evens(s)| ensures Evens(s)[k] == s[2 * k] {
        assert Evens(s)[k] == Evens(t)[k - 1] == t[2 * (k - 1)];
      }
    }
  }

  /** When none of the elements is destroyed beforehand, the loop destroys
      the elements at even positions only and leaves every other element
      (those at odd positions) alive in the list. */
  lemma {:induction false} VisitSkipsEveryOther<T>(s: seq<T>, done: set<T>)
    requires forall x | x in s :: x !in done
    ensures Visit(s, done) == (Odds(s), Evens(s))
    decreases |s|
  {
    if |s| == 1 {
      assert s[0] in s;
      assert Evens(s) == [s[0]];
    } else if |s| >= 2 {
      assert s[0] in s;
      assert forall x | x in s[2..] :: x in s;
      VisitSkipsEveryOther(s[2..], done);
      assert Visit(s, done) == ([s[1]] + Visit(s[2..], done).0, [s[0]] + Visit(s[2..], done).1);
    }
  }

  /** The smallest case: with two fresh items, the second survives. */
  lemma TwoItemsOneSurvives<T>(a: T, b: T)
    requires a != b
    ensures Visit([a, b], {}) == ([b], [a])
  {
    VisitSkipsEveryOther([a, b], {});
    assert [a, b][2..] == [];
    assert Odds([a, b]) == [b];
    assert Evens([a, b]) == [a];
  }

  /** The elements of `s` that are in `d`, in order. */
  function Kept<T(==)>(s: seq<T>, d: set<T>): (r: seq<T>)
    ensures |r| <= |s|
  {
    if s == [] then [] else Kept(s[..|s|-1], d) + (if s[|s|-1] in d then [s[|s|-1]] else [])
  }

  /** The elements of `s` that are not in `d`, in order. */
  function Fresh<T(==)>(s: seq<T>, d: set<T>): (r: seq<T>)
    ensures |r| <= |s|
  {
    if s == [] then [] else Fresh(s[..|s|-1], d) + (if s[|s|-1] !in d then [s[|s|-1]] else [])
  }

  lemma {:induction false} KeptOnly<T>(s: seq<T>, d: set<T>)
    ensures forall x | x in Kept(s, d) :: x in d
  {
    if s != [] {
      KeptOnly(s[..|s|-1], d);
    }
  }

  lemma {:induction false} FreshOnly<T>(s: seq<T>, d: set<T>)
    ensures forall x | x in Fresh(s, d) :: x !in d
  {
    if s != [] {
      FreshOnly(s[..|s|-1], d);
    }
  }

  /** Every element is either kept or fresh: the intended destroy leaves in
      the box exactly the items destroyed before, and destroys all others. */
  lemma {:induction false} KeptFreshPartition<T>(s: seq<T>, d: set<T>)
    ensures |Kept(s, d)| + |Fresh(s, d)| == |s|
    ensures forall x | x in s :: (x in Kept(s, d) <==> x in d) && (x in Fresh(s, d) <==> x !in d)
  {
    if s != [] {
      var p := s[..|s|-1];
      var y := s[|s|-1];
      KeptFreshPartition(p, d);
      KeptOnly(p, d);
      FreshOnly(p, d);
      assert s == p + [y];
      KeptFreshSnoc(p, y, d);
      forall x | x in s
        ensures (x in Kept(s, d) <==> x in d) && (x in Fresh(s, d) <==> x !in d)
      {
        if x != y {
          assert x in p;
        }
      }
    }
  }

  /** When no element was destroyed beforehand, none is kept and all are
      destroyed, in order. */
  lemma {:induction false} NothingDone<T>(s: seq<T>)
    ensures Kept(s, {}) == [] && Fresh(s, {}) == s
  {
    if s != [] {
      NothingDone(s[..|s|-1]);
      assert s == s[..|s|-1] + [s[|s|-1]];
    }
  }

  lemma KeptFreshSnoc<T>(s: seq<T>, x: T, d: set<T>)
    ensures Kept(s + [x], d) == Kept(s, d) + (if x in d then [x] else [])
    ensures Fresh(s + [x], d) == Fresh(s, d) + (if x !in d then [x] else [])
  {
    assert (s + [x])[..|s|] == s;
  }

  lemma RemovalsSnoc(items: seq<Item>, x: Item)
    ensures Removals(items + [x]) == Removals(items) + [ItemRemoved(x)]
  {
    assert (items + [x])[..|items|] == items;
  }

  /** The signal log of a loop after one more removal. */
  lemma RemovalsStep(log: seq<BoxSignal>, items: seq<Item>, x: Item)
    ensures log + Removals(items) + [ItemRemoved(x)] == log + Removals(items + [x])
  {
    RemovalsSnoc(items, x);
  }

  // ---- The loops of `destroy`, turn by turn ---------------------------------

  /** The state of the loop of `destroy` before visiting index `i`: the list
      so far followed by what the rest of the loop leaves is the final list,
      and likewise for the elements destroyed. Once a removal at the last
      index has run, the index is one past the end. */
  ghost predicate VisitInv<T>(s: seq<T>, i: int, done: set<T>, destroyed: seq<T>, goal: (seq<T>, seq<T>)) {
    && 0 <= i <= |s| + 1
    && Distinct(s)
    && (i <= |s| ==>
          && s[..i] + Visit(s[i..], done).0 == goal.0
          && destroyed + Visit(s[i..], done).1 == goal.1)
    && (i == |s| + 1 ==> s == goal.0 && destroyed == goal.1)
  }

  lemma VisitStart<T>(s: seq<T>, done: set<T>)
    requires Distinct(s)
    ensures VisitInv(s, 0, done, [], Visit(s, done))
  {
    assert s[..0] == [] && s[0..] == s;
  }

  lemma VisitEnd<T>(s: seq<T>, i: int, done: set<T>, destroyed: seq<T>, goal: (seq<T>, seq<T>))
    requires VisitInv(s, i, done, destroyed, goal) && i >= |s|
    ensures s == goal.0 && destroyed == goal.1
  {
    if i == |s| {
      assert s[..i] == s && s[i..] == [];
    }
  }

  /** One turn: an element already destroyed stays; any other is removed
      (the first occurrence is the one at the index) and recorded. */
  lemma VisitTurn<T>(s: seq<T>, i: int, done: set<T>, destroyed: seq<T>, goal: (seq<T>, seq<T>))
    requires VisitInv(s, i, done, destroyed, goal) && i < |s|
    ensures s[i] in done ==> VisitInv(s, i + 1, done, destroyed, goal)
    ensures s[i] !in done ==>
      && s[i] in s
      && RemoveFirst(s, s[i]) == s[..i] + s[i+1..]
      && VisitInv(s[..i] + s[i+1..], i + 1, done, destroyed + [s[i]], goal)
  {
    var x := s[i];
    if x in done {
      VisitSkip(s, i, done);
    } else {
      DistinctDelete(s, i);
      assert x !in s[..i];
      VisitRemove(s, i, done);
      var n := s[..i] + s[i+1..];
      if i + 1 <= |n| {
        var rest := Visit(n[i+1..], done).1;
        assert destroyed + [x] + rest == destroyed + ([x] + rest);
      }
    }
  }

  /** The state of the loop over a copy before index `i`: the items kept so
      far followed by those not yet visited, and the items destroyed so far. */
  ghost predicate CopyInv<T>(copy: seq<T>, i: int, done: set<T>, items: seq<T>, destroyed: seq<T>) {
    && 0 <= i <= |copy|
    && items == Kept(copy[..i], done) + copy[i..]
    && destroyed == Fresh(copy[..i], done)
  }

  lemma CopyStart<T>(copy: seq<T>, done: set<T>)
    ensures CopyInv(copy, 0, done, copy, [])
  {
    assert copy[..0] == [] && copy[0..] == copy;
  }

  lemma CopyEnd<T>(copy: seq<T>, i: int, done: set<T>, items: seq<T>, destroyed: seq<T>)
    requires CopyInv(copy, i, done, items, destroyed) && i >= |copy|
    ensures items == Kept(copy, done) && destroyed == Fresh(copy, done)
  {
    assert copy[..i] == copy;
  }

  /** One turn of the loop over a copy, at an item destroyed before: it stays. */
  lemma CopyKeep<T>(copy: seq<T>, i: int, done: set<T>, items: seq<T>, destroyed: seq<T>)
    requires CopyInv(copy, i, done, items, destroyed) && i < |copy| && copy[i] in done
    ensures CopyInv(copy, i + 1, done, items, destroyed)
  {
    var x := copy[i];
    assert copy[..i+1] == copy[..i] + [x];
    KeptFreshSnoc(copy[..i], x, done);
    assert copy[i..] == [x] + copy[i+1..];
  }

  /** One turn of the loop over a copy, at any other item: it is removed
      from the list (its first occurrence is the one after the kept items)
      and recorded as destroyed. */
  lemma CopyRemove<T>(copy: seq<T>, i: int, done: set<T>, items: seq<T>, destroyed: seq<T>)
    requires CopyInv(copy, i, done, items, destroyed) && i < |copy| && copy[i] !in done
    ensures copy[i] in items
    ensures CopyInv(copy, i + 1, done, RemoveFirst(items, copy[i]), destroyed + [copy[i]])
  {
    var x := copy[i];
    var kept := Kept(copy[..i], done);
    var rest := copy[i+1..];
    assert copy[i..] == [x] + rest;
    assert items == kept + [x] + rest;
    KeptOnly(copy[..i], done);
    RemoveFirstAt(kept, x, rest);
    assert copy[..i+1] == copy[..i] + [x];
    KeptFreshSnoc(copy[..i], x, done);
  }

  class ItemBox {
    /** `__box_id`, fixed at construction. */
    const id: string
    /** `__items`, in display order. */
    var items: seq<Item>
    /** The signals emitted so far. */
    var signals: seq<BoxSignal>

    constructor (boxId: string)
      ensures id == boxId && items == [] && signals == []
    {
      id := boxId;
      items := [];
      signals := [];
    }

    /** `add_item`: appended at the end, duplicates allowed. */
    method AddItem(it: Item)
      modifies this
      ensures items == old(items) + [it]
      ensures signals == old(signals) + [ItemAdded(it)]
    {
      items := items + [it];
      signals := signals + [ItemAdded(it)];
    }

    /** `remove_item`: the first occurrence is removed and "item-removed"
        emitted; `list.remove` raises `ValueError`, before anything changes,
        when the item is not in the box. */
    method RemoveItem(it: Item) returns (err: Option<PyError>)
      modifies this
      ensures it in old(items) ==>
        && err == None
        && items == RemoveFirst(old(items), it)
        && signals == old(signals) + [ItemRemoved(it)]
      ensures it !in old(items) ==> err == Some(ValueError) && items == old(items) && signals == old(signals)
    {
      if it !in items {
        return Some(ValueError);
      }
      items := RemoveFirst(items, it);
      signals := signals + [ItemRemoved(it)];
      return None;
    }

    /** `reorder_item`: removed, then inserted at the position; `ValueError`,
        before anything changes, when the item is not in the box. */
    method ReorderItem(it: Item, position: int) returns (err: Option<PyError>)
      modifies this
      ensures it in old(items) ==>
        && err == None
        && items == MoveTo(old(items), it, position)
        && signals == old(signals) + [ItemReordered(it, position)]
      ensures it in old(items) && 0 <= position < |items| ==>
        items[position] == it && multiset(items) == multiset(old(items))
        && items[..position] + items[position+1..] == RemoveFirst(old(items), it)
      ensures it !in old(items) ==> err == Some(ValueError) && items == old(items) && signals == old(signals)
    {
      if it !in items {
        return Some(ValueError);
      }
      if 0 <= position < |items| {
        MoveToPlaces(items, it, position);
      }
      items := MoveTo(items, it, position);
      signals := signals + [ItemReordered(it, position)];
      return None;
    }

    /** `destroy` as written. `done` holds the items whose `destroy` has
        already run; every other item visited is destroyed, and its
        "destroyed" signal removes it from the list being iterated. The
        result lists the items destroyed, in order. The items are taken to
        be distinct, each connected to this box once. */
    method Destroy(done: set<Item>) returns (destroyed: seq<Item>)
      requires Distinct(items)
      modifies this
      ensures items == Visit(old(items), done).0
      ensures destroyed == Visit(old(items), done).1
      ensures signals == old(signals) + Removals(destroyed) + [BoxDestroyed]
    {
      ghost var goal := Visit(items, done);
      destroyed := [];
      var i := 0;
      VisitStart(items, done);
      while i < |items|
        invariant VisitInv(items, i, done, destroyed, goal)
        invariant signals == old(signals) + Removals(destroyed)
        decreases |items| + 1 - i
      {
        var x := items[i];
        VisitTurn(items, i, done, destroyed, goal);
        if x !in done {
          var _ := RemoveItem(x);
          RemovalsStep(old(signals), destroyed, x);
          destroyed := destroyed + [x];
        }
        i := i + 1;
      }
      VisitEnd(items, i, done, destroyed, goal);
      signals := signals + [BoxDestroyed];
    }

    /** `destroy` iterating a copy of the list, as evidently intended: every
        item not yet destroyed is destroyed and removed, so only items that
        were destroyed before stay. */
    method DestroyAll(done: set<Item>) returns (destroyed: seq<Item>)
      modifies this
      ensures items == Kept(old(items), done)
      ensures destroyed == Fresh(old(items), done)
      ensures signals == old(signals) + Removals(destroyed) + [BoxDestroyed]
    {
      var copy := items;
      destroyed := [];
      CopyStart(copy, done);
      for i := 0 to |copy|
        invariant CopyInv(copy, i, done, items, destroyed)
        invariant signals == old(signals) + Removals(destroyed)
      {
        var x := copy[i];
        if x in done {
          CopyKeep(copy, i, done, items, destroyed);
        } else {
          CopyRemove(copy, i, done, items, destroyed);
          var _ := RemoveItem(x);
          RemovalsStep(old(signals), destroyed, x);
          destroyed := destroyed + [x];
        }
      }
      CopyEnd(copy, |copy|, done, items, destroyed);
      signals := signals + [BoxDestroyed];
    }
  }
}
