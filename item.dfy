/** The `Item` base class of traylib/item.py: a destroy flag flipped once,
    the signals it emits, the default answers of its predicates, and the
    first-match searches over its icon loaders. A loader is represented by
    what it answers (a picture's dimensions, a path, an icon name). */
module Items {
  import opened Base
  import opened PixbufHelper

  /** A signal an item emits: "changed" with the set of property names, or
      "destroyed". */
  datatype ItemSignal = ChangedSignal(props: set<string>) | DestroyedSignal

  /** How many "destroyed" signals a log holds. */
  function DestroyedCount(log: seq<ItemSignal>): nat {
    if log == [] then 0
    else DestroyedCount(log[..|log|-1]) + (if log[|log|-1] == DestroyedSignal then 1 else 0)
  }

  /** Appending a signal adds one to the count exactly when it is "destroyed". */
  lemma DestroyedCountAppend(log: seq<ItemSignal>, e: ItemSignal)
    ensures DestroyedCount(log + [e]) == DestroyedCount(log) + if e == DestroyedSignal then 1 else 0
  {
    assert (log + [e])[..|log|] == log;
  }

  /** The answers of the overridable predicates of an item. */
  datatype Flags = Flags(
    visible: bool, greyedOut: bool, blinking: bool, arrowBlinking: bool,
    minimized: bool, active: bool, name: string)

  /** The defaults of the base class: visible, every other flag off, no name. */
  const BaseFlags := Flags(true, false, false, false, false, false, "")

  class Item {
    /** `__is_destroyed` */
    var destroyed: bool
    /** Whether the icon-theme "changed" handler is still connected. */
    var themeConnected: bool
    /** The signals emitted so far, in order. */
    var signals: seq<ItemSignal>

    /** The theme handler stays connected exactly until the item is
        destroyed, and "destroyed" has been emitted once if the item is
        destroyed and never otherwise. */
    predicate Valid()
      reads this
    {
      && themeConnected == !destroyed
      && DestroyedCount(signals) == (if destroyed then 1 else 0)
    }

    constructor ()
      ensures Valid() && !destroyed && signals == []
    {
      destroyed := false;
      themeConnected := true;
      signals := [];
    }

    /** `changed(*props)`: one "changed" signal carrying exactly the names given. */
    method Changed(props: seq<string>)
      requires Valid()
      modifies this
      ensures Valid() && destroyed == old(destroyed)
      ensures signals == old(signals) + [ChangedSignal(set p | p in props)]
      ensures forall p :: p in signals[|signals|-1].props <==> p in props
    {
      DestroyedCountAppend(signals, ChangedSignal(set p | p in props));
      signals := signals + [ChangedSignal(set p | p in props)];
    }

    /** `destroy()`: the first call disconnects the theme handler and emits
        "destroyed"; every later call does nothing. */
    method Destroy()
      requires Valid()
      modifies this
      ensures Valid() && destroyed
      ensures old(destroyed) ==> signals == old(signals) && themeConnected == old(themeConnected)
      ensures !old(destroyed) ==> signals == old(signals) + [DestroyedSignal] && !themeConnected
    {
      if destroyed {
        return;
      }
      destroyed := true;
      themeConnected := false;
      DestroyedCountAppend(signals, DestroyedSignal);
      signals := signals + [DestroyedSignal];
    }
  }

  /** Two calls of `destroy` in a row emit "destroyed" once. */
  method DestroyTwice(it: Item)
    requires it.Valid() && !it.destroyed
    modifies it
    ensures it.signals == old(it.signals) + [DestroyedSignal]
    ensures DestroyedCount(it.signals) == 1
  {
    it.Destroy();
    it.Destroy();
  }

  /** `get_icon(size)`: the first picture a loader yields, scaled to the
      size (up or down); `None` when every loader yields nothing. */
  method GetIcon(loaded: seq<Option<Dims>>, size: int) returns (r: Option<Dims>)
    requires forall i | 0 <= i < |loaded| && loaded[i].Some? :: Positive(loaded[i].value)
    ensures r.None? <==> FirstSome(loaded).None?
    ensures r.Some? ==> r.value == ScaleToSize(FirstSome(loaded).value, size as real, true)
  {
    var i := 0;
    while i < |loaded|
      invariant 0 <= i <= |loaded|
      invariant forall j | 0 <= j < i :: loaded[j].None?
    {
      if loaded[i].Some? {
        return Some(ScaleToSize(loaded[i].value, size as real, true));
      }
      i := i + 1;
    }
    return None;
  }

  /** `find_icon_path()`: the first path a loader yields at size 48. */
  method FindIconPath(paths: seq<Option<string>>) returns (r: Option<string>)
    ensures r == FirstSome(paths)
  {
    var i := 0;
    while i < |paths|
      invariant 0 <= i <= |paths|
      invariant forall j | 0 <= j < i :: paths[j].None?
    {
      if paths[i].Some? {
        return paths[i];
      }
      i := i + 1;
    }
    return None;
  }

  /** `find_icon_name()`: the first loader's icon name that the theme knows;
      loaders without an icon name are skipped, and the empty name stands
      for no match. */
  method FindIconName(names: seq<Option<string>>, theme: set<string>) returns (r: string)
    ensures (exists i | 0 <= i < |names| :: names[i].Some? && names[i].value in theme) ==>
      exists i | 0 <= i < |names| :: names[i] == Some(r) && r in theme
        && forall j | 0 <= j < i :: names[j].None? || names[j].value !in theme
    ensures (forall i | 0 <= i < |names| :: names[i].None? || names[i].value !in theme) ==> r == ""
  {
    var i := 0;
    while i < |names|
      invariant 0 <= i <= |names|
      invariant forall j | 0 <= j < i :: names[j].None? || names[j].value !in theme
    {
      if names[i].Some? && names[i].value in theme {
        return names[i].value;
      }
      i := i + 1;
    }
    return "";
  }
}
