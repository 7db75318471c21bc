/** The icon of one item, from traylib/item_icon.py: the list of the
    item's handlers kept in priority order, the icon updaters attached to
    handler states, the answers folded over the handlers (name, icon path,
    emblem, icon names, window filter, click), and the per-class registry
    of icons. A handler's answers about the item's state come in as lists,
    one entry per handler in list order; calls into handlers and states are
    recorded in an event log. */
module ItemIcons {
  import opened Base
  import opened HandlerCore

  /** A handler as the icon sees it: its identity, its priority, and whether
      it has a state class and an icon-updater class. */
  datatype HandlerInfo = HandlerInfo(id: HandlerId, priority: int, hasStateClass: bool, hasUpdaterClass: bool)

  type UpdaterId = nat

  /** The icon refreshes that adding or removing a handler runs. */
  datatype Refresh = NameRefresh | TooltipRefresh | VisibilityRefresh | EmblemRefresh | IconRefresh | DropTargetRefresh

  datatype IconEvent =
    | StateObtained(handler: HandlerId)
    | UpdaterAttached(handler: HandlerId, updater: UpdaterId)
    | RemovedCalled(handler: HandlerId)
    | UpdaterDetached(handler: HandlerId, updater: UpdaterId)
    | StateDestroyed(handler: HandlerId)
    | Refreshed(refresh: Refresh)

  /** The refreshes at the end of `add_handler` and `remove_handler`, in
      order. */
  const HandlerRefreshes: seq<IconEvent> :=
    [Refreshed(NameRefresh), Refreshed(TooltipRefresh), Refreshed(VisibilityRefresh),
     Refreshed(EmblemRefresh), Refreshed(IconRefresh), Refreshed(DropTargetRefresh)]

  /** Priorities never increase along the list. */
  predicate ByPriority(hs: seq<HandlerInfo>) {
    forall i, j | 0 <= i < j < |hs| :: hs[i].priority >= hs[j].priority
  }

  /** The first position whose handler has a strictly lower priority than
      `p`, or the length when there is none. */
  function FirstLower(hs: seq<HandlerInfo>, p: int): (k: nat)
    ensures k <= |hs|
    ensures forall j | 0 <= j < k :: hs[j].priority >= p
    ensures k < |hs| ==> hs[k].priority < p
  {
    if hs == [] then 0
    else if hs[0].priority < p then 0
    else 1 + FirstLower(hs[1..], p)
  }

  /** Where `add_handler` puts a new handler: before the first handler of
      strictly lower priority, else at the end. */
  function InsertByPriority(hs: seq<HandlerInfo>, h: HandlerInfo): seq<HandlerInfo> {
    var k := FirstLower(hs, h.priority);
    hs[..k] + [h] + hs[k..]
  }

  /** Where each element ends up: the new handler at the first position of
      strictly lower priority, the handlers before it in place, the rest one
      further on. */
  lemma InsertIndexing(hs: seq<HandlerInfo>, h: HandlerInfo)
    ensures var r := InsertByPriority(hs, h); var k := FirstLower(hs, h.priority);
      && |r| == |hs| + 1 && r[k] == h
      && (forall j | 0 <= j < k :: r[j] == hs[j])
      && (forall j | k < j < |r| :: r[j] == hs[j - 1])
  {
  }

  /** Inserting adds exactly the new handler and keeps the others in their
      order. */
  lemma InsertByPriorityShape(hs: seq<HandlerInfo>, h: HandlerInfo)
    ensures var r := InsertByPriority(hs, h); var k := FirstLower(hs, h.priority);
      && multiset(r) == multiset(hs) + multiset{h}
      && r[..k] + r[k+1..] == hs
  {
    var k := FirstLower(hs, h.priority);
    var r := InsertByPriority(hs, h);
    assert hs == hs[..k] + hs[k..];
    assert r[..k] == hs[..k] && r[k+1..] == hs[k..];
  }

  /** In a list in priority order the new handler goes after every handler
      of equal or higher priority and before every lower one, and the list
      stays in priority order. */
  lemma InsertByPriorityOrdered(hs: seq<HandlerInfo>, h: HandlerInfo)
    requires ByPriority(hs)
    ensures var r := InsertByPriority(hs, h); var k := FirstLower(hs, h.priority);
      && (forall j | 0 <= j < k :: r[j].priority >= h.priority)
      && (forall j | k < j < |r| :: r[j].priority < h.priority)
      && ByPriority(r)
  {
    var k := FirstLower(hs, h.priority);
    var r := InsertByPriority(hs, h);
    InsertIndexing(hs, h);
    forall j | k < j < |r| ensures r[j].priority < h.priority {
      assert r[j] == hs[j - 1];
      assert hs[j - 1].priority <= hs[k].priority;
    }
    forall i, j | 0 <= i < j < |r| ensures r[i].priority >= r[j].priority {
      if j < k {
        assert r[i] == hs[i] && r[j] == hs[j];
      } else if j == k {
        assert r[i] == hs[i];
      } else if i < k {
        assert r[i] == hs[i] && r[j] == hs[j - 1];
      } else if i > k {
        assert r[i] == hs[i - 1] && r[j] == hs[j - 1];
      }
    }
  }

  /** Removing a handler right after adding it gives back the list. */
  lemma RemoveAfterInsert(hs: seq<HandlerInfo>, h: HandlerInfo)
    requires h !in hs
    ensures h in InsertByPriority(hs, h)
    ensures RemoveFirst(InsertByPriority(hs, h), h) == hs
  {
    var k := FirstLower(hs, h.priority);
    assert h !in hs[..k];
    RemoveFirstAt(hs[..k], h, hs[k..]);
    assert hs[..k] + hs[k..] == hs;
  }

  /** `make_name`'s result for the non-empty names, in order: the names
      joined by newlines. */
  function JoinLines(xs: seq<string>): string {
    if |xs| == 0 then ""
    else if |xs| == 1 then xs[0]
    else JoinLines(xs[..|xs| - 1]) + "\n" + xs[|xs| - 1]
  }

  /** The non-empty strings of a list, in order. */
  function NonEmpty(xs: seq<string>): (r: seq<string>)
    ensures forall s | s in r :: s != ""
    ensures r == [] <==> forall i | 0 <= i < |xs| :: xs[i] == ""
  {
    if xs == [] then []
    else
      var n := |xs| - 1;
      NonEmpty(xs[..n]) + (if xs[n] == "" then [] else [xs[n]])
  }

  /** Non-empty parts join to the empty string only when there are none. */
  lemma {:induction false} JoinLinesEmpty(xs: seq<string>)
    requires forall s | s in xs :: s != ""
    ensures JoinLines(xs) == "" <==> xs == []
  {
    if |xs| > 1 {
      assert xs[|xs| - 1] in xs;
    } else if |xs| == 1 {
      assert xs[0] in xs;
    }
  }

  /** `make_name`, where `names[i]` is what the i-th handler's `make_name`
      answers ("" for None): the non-empty names joined by newlines, in
      handler order. */
  method MakeName(names: seq<string>) returns (r: string)
    ensures r == JoinLines(NonEmpty(names))
    ensures r == "" <==> forall i | 0 <= i < |names| :: names[i] == ""
  {
    var any := false;
    r := "";
    for i := 0 to |names|
      invariant r == JoinLines(NonEmpty(names[..i]))
      invariant any <==> NonEmpty(names[..i]) != []
    {
      assert names[..i+1][..i] == names[..i];
      if names[i] != "" {
        var xs := NonEmpty(names[..i]);
        assert NonEmpty(names[..i+1]) == xs + [names[i]];
        assert (xs + [names[i]])[..|xs|] == xs;
        if !any {
          assert xs + [names[i]] == [names[i]];
          r := names[i];
        } else {
          assert JoinLines(xs + [names[i]]) == JoinLines(xs) + "\n" + names[i];
          r := r + "\n" + names[i];
        }
        any := true;
      } else {
        assert NonEmpty(names[..i+1]) == NonEmpty(names[..i]) + [];
        assert NonEmpty(names[..i]) + [] == NonEmpty(names[..i]);
      }
    }
    assert names[..|names|] == names;
    JoinLinesEmpty(NonEmpty(names));
  }

  /** The lists one after another. */
  function Flatten<T>(ls: seq<seq<T>>): seq<T> {
    if ls == [] then []
    else Flatten(ls[..|ls| - 1]) + ls[|ls| - 1]
  }

  /** An element is in the flattened list exactly when it is in one of the
      lists. */
  lemma {:induction false} FlattenMembers<T>(ls: seq<seq<T>>, x: T)
    ensures x in Flatten(ls) <==> exists i | 0 <= i < |ls| :: x in ls[i]
  {
    if ls != [] {
      var n := |ls| - 1;
      FlattenMembers(ls[..n], x);
      if x in Flatten(ls[..n]) {
        var i :| 0 <= i < n && x in ls[..n][i];
        assert x in ls[i];
      }
      if exists i | 0 <= i < |ls| :: x in ls[i] {
        var i :| 0 <= i < |ls| && x in ls[i];
        if i < n {
          assert x in ls[..n][i];
        }
      }
    }
  }

  /** `get_icon_names`, where `lists[i]` is the i-th handler's answer: all
      the names, handler after handler. */
  method GetIconNames(lists: seq<seq<string>>) returns (r: seq<string>)
    ensures r == Flatten(lists)
  {
    r := [];
    for i := 0 to |lists|
      invariant r == Flatten(lists[..i])
    {
      assert lists[..i+1][..i] == lists[..i];
      if lists[i] != [] {
        r := r + lists[i];
      }
    }
    assert lists[..|lists|] == lists;
  }

  /** `get_icon_path`, where `paths[i]` is the i-th handler's answer ("" for
      None): the first non-empty path, or None. */
  method GetIconPath(paths: seq<string>) returns (r: Option<string>)
    ensures r.None? <==> forall i | 0 <= i < |paths| :: paths[i] == ""
    ensures r.Some? ==> exists i | 0 <= i < |paths| ::
      paths[i] == r.value && r.value != "" && forall j | 0 <= j < i :: paths[j] == ""
  {
    for i := 0 to |paths|
      invariant forall j | 0 <= j < i :: paths[j] == ""
    {
      if paths[i] != "" {
        return Some(paths[i]);
      }
    }
    return None;
  }

  /** `make_emblem`, where `emblems[i]` is the i-th handler's answer: the
      first emblem given, or None. */
  method MakeEmblem<T>(emblems: seq<Option<T>>) returns (r: Option<T>)
    ensures r == FirstSome(emblems)
  {
    for i := 0 to |emblems|
      invariant forall j | 0 <= j < i :: emblems[j].None?
      invariant FirstSome(emblems) == FirstSome(emblems[i..])
    {
      if emblems[i].Some? {
        return emblems[i];
      }
      assert emblems[i..][1..] == emblems[i+1..];
    }
    return None;
  }

  /** `should_have_window`, where `accepts[i]` is the i-th handler's
      answer: some handler accepts the window. */
  method ShouldHaveWindow(accepts: seq<bool>) returns (b: bool)
    ensures b <==> exists i | 0 <= i < |accepts| :: accepts[i]
  {
    for i := 0 to |accepts|
      invariant forall j | 0 <= j < i :: !accepts[j]
    {
      if accepts[i] {
        return true;
      }
    }
    return false;
  }

  /** `click`, where `menus[i]` is the i-th handler's menu items: the last
      item of the first handler that has any is activated (None: nothing
      is). */
  method Click<T>(menus: seq<seq<T>>) returns (r: Option<T>)
    ensures r.None? <==> forall i | 0 <= i < |menus| :: menus[i] == []
    ensures r.Some? ==> exists i | 0 <= i < |menus| ::
      menus[i] != [] && r.value == menus[i][|menus[i]| - 1] && forall j | 0 <= j < i :: menus[j] == []
  {
    var items: seq<T> := [];
    for i := 0 to |menus|
      invariant items == []
      invariant forall j | 0 <= j < i :: menus[j] == []
    {
      items := menus[i] + items;
      if items != [] {
        return Some(items[|items| - 1]);
      }
    }
    return None;
  }

  /** What removing a handler does to its state: nothing without a state
      class; otherwise the state is obtained, the handler's `removed` hook
      runs, the handler's updater (if any) is detached, and the state is
      destroyed. */
  function ReleaseEvents(h: HandlerInfo, updaters: map<HandlerInfo, UpdaterId>): seq<IconEvent> {
    if !h.hasStateClass then []
    else
      [StateObtained(h.id), RemovedCalled(h.id)]
      + (if h in updaters then [UpdaterDetached(h.id, updaters[h])] else [])
      + [StateDestroyed(h.id)]
  }

  class ItemIcon {
    /** `__handlers`, highest priority first. */
    var handlers: seq<HandlerInfo>
    /** `__updaters`: the updater attached for each handler that has one. */
    var updaters: map<HandlerInfo, UpdaterId>
    /** The next updater object to be made. */
    var nextUpdater: nat
    /** Calls on handlers, states and the icon itself, in order. */
    var events: seq<IconEvent>

    /** No handler twice, priorities never increase, and only present
        handlers with a state and an updater class have an updater. */
    predicate Valid()
      reads this
    {
      && Distinct(handlers) && ByPriority(handlers)
      && (forall h | h in updaters :: h in handlers && h.hasStateClass && h.hasUpdaterClass)
      && (forall h | h in updaters :: updaters[h] < nextUpdater)
    }

    constructor ()
      ensures Valid()
      ensures handlers == [] && updaters == map[] && nextUpdater == 0 && events == []
    {
      handlers := [];
      updaters := map[];
      nextUpdater := 0;
      events := [];
    }

    /** `get_handler_and_state(handler_class)`, where `kinds` holds the
        handlers that are instances of the class: the first such handler in
        priority order, or None. */
    method FirstHandlerOf(kinds: set<HandlerId>) returns (r: Option<HandlerInfo>)
      ensures r.None? <==> forall i | 0 <= i < |handlers| :: handlers[i].id !in kinds
      ensures r.Some? ==> exists i | 0 <= i < |handlers| ::
        handlers[i] == r.value && r.value.id in kinds && forall j | 0 <= j < i :: handlers[j].id !in kinds
    {
      for i := 0 to |handlers|
        invariant forall j | 0 <= j < i :: handlers[j].id !in kinds
      {
        if handlers[i].id in kinds {
          return Some(handlers[i]);
        }
      }
      return None;
    }

    /** The position search of `add_handler` on the list `hs`. */
    static method Placed(hs: seq<HandlerInfo>, h: HandlerInfo) returns (r: seq<HandlerInfo>)
      ensures r == InsertByPriority(hs, h)
    {
      if |hs| == 0 {
        return [h];
      }
      r := hs;
      var i := 0;
      var last := |hs| - 1;
      while i < |r|
        decreases |hs| + 1 - i
        invariant
          || (r == hs && 0 <= i <= last && forall j | 0 <= j < i :: hs[j].priority >= h.priority)
          || (r == hs + [h] && |hs| <= i <= |hs| + 1 && forall j | 0 <= j < |hs| :: hs[j].priority >= h.priority)
      {
        if h.priority > r[i].priority {
          r := r[..i] + [h] + r[i..];
          break;
        } else if i == last {
          r := r + [h];
        }
        i := i + 1;
      }
      assert hs[..|hs|] == hs;
    }

    /** `add_handler(handler)`: a present handler is ignored; otherwise it
        is placed by priority, a handler with a state class gets the item's
        state, and one with an updater class too gets a new updater
        attached to that state; then the icon is refreshed. */
    method AddHandler(h: HandlerInfo)
      requires Valid()
      modifies this
      ensures Valid()
      ensures h in old(handlers) ==>
        handlers == old(handlers) && updaters == old(updaters) && events == old(events)
      ensures h !in old(handlers) ==>
        && handlers == InsertByPriority(old(handlers), h)
        && (h.hasStateClass && h.hasUpdaterClass ==>
              && updaters == old(updaters)[h := old(nextUpdater)]
              && events == old(events) + [StateObtained(h.id), UpdaterAttached(h.id, old(nextUpdater))] + HandlerRefreshes)
        && (h.hasStateClass && !h.hasUpdaterClass ==>
              updaters == old(updaters) && events == old(events) + [StateObtained(h.id)] + HandlerRefreshes)
        && (!h.hasStateClass ==> updaters == old(updaters) && events == old(events) + HandlerRefreshes)
      ensures h in handlers
    {
      if h in handlers {
        return;
      }
      var placed := Placed(handlers, h);
      InsertByPriorityOrdered(handlers, h);
      InsertDistinct(handlers, FirstLower(handlers, h.priority), h);
      handlers := placed;
      if h.hasStateClass {
        events := events + [StateObtained(h.id)];
        if h.hasUpdaterClass {
          var u := nextUpdater;
          nextUpdater := nextUpdater + 1;
          events := events + [UpdaterAttached(h.id, u)];
          updaters := updaters[h := u];
        }
      }
      events := events + HandlerRefreshes;
    }

    /** `remove_handler(handler)` as written: for a handler with a state
        class the `removed` hook runs, then the updater entry is deleted and
        line 97 names `updater`, which is unbound there (NameError); without
        an updater, line 98 calls `remove` on the state, which item states
        do not have (AttributeError). Either way the handler stays. Only a
        handler without a state class is removed. */
    method RemoveHandlerAsWritten(h: HandlerInfo) returns (err: Option<PyError>)
      requires Valid()
      modifies this
      ensures Valid()
      ensures h !in old(handlers) ==>
        err.None? && handlers == old(handlers) && updaters == old(updaters) && events == old(events)
      ensures h in old(handlers) && h.hasStateClass ==>
        && handlers == old(handlers)
        && updaters == old(updaters) - {h}
        && events == old(events) + [StateObtained(h.id), RemovedCalled(h.id)]
        && err == Some(if h in old(updaters) then NameError else AttributeError)
      ensures h in old(handlers) && !h.hasStateClass ==>
        err.None? && handlers == RemoveFirst(old(handlers), h) && updaters == old(updaters)
        && events == old(events) + HandlerRefreshes
    {
      if h !in handlers {
        return None;
      }
      if h.hasStateClass {
        events := events + [StateObtained(h.id), RemovedCalled(h.id)];
        if h in updaters {
          updaters := updaters - {h};
          return Some(NameError);
        }
        return Some(AttributeError);
      }
      RemoveHandlerKeepsOrder(handlers, h);
      handlers := RemoveFirst(handlers, h);
      events := events + HandlerRefreshes;
      return None;
    }

    /** `remove_handler(handler)` as evidently intended: an absent handler
        is ignored; otherwise the `removed` hook runs, its updater (if any)
        is detached from the state and forgotten, the state is destroyed as
        `Handler._clear_state` does, the handler leaves the list, and the
        icon is refreshed. */
    method RemoveHandler(h: HandlerInfo)
      requires Valid()
      modifies this
      ensures Valid()
      ensures h !in old(handlers) ==>
        handlers == old(handlers) && updaters == old(updaters) && events == old(events)
      ensures h in old(handlers) ==>
        && handlers == RemoveFirst(old(handlers), h)
        && updaters == old(updaters) - {h}
        && events == old(events) + ReleaseEvents(h, old(updaters)) + HandlerRefreshes
      ensures h !in handlers && h !in updaters
      ensures forall x | x != h :: x in handlers <==> x in old(handlers)
    {
      if h !in handlers {
        return;
      }
      var release: seq<IconEvent> := [];
      if h.hasStateClass {
        release := [StateObtained(h.id), RemovedCalled(h.id)];
        if h in updaters {
          release := release + [UpdaterDetached(h.id, updaters[h])];
        }
        release := release + [StateDestroyed(h.id)];
      }
      RemoveHandlerKeepsOrder(handlers, h);
      handlers := RemoveFirst(handlers, h);
      updaters := updaters - {h};
      events := events + release + HandlerRefreshes;
    }
  }

  /** A stateful handler without an updater class, added and then removed
      by `remove_handler` as written: the removal raises AttributeError and
      the handler stays on the icon. */
  method StatefulHandlerStays() returns (err: Option<PyError>, stays: bool)
    ensures err == Some(AttributeError) && stays
  {
    var icon := new ItemIcon();
    var h := HandlerInfo(1, 0, true, false);
    icon.AddHandler(h);
    err := icon.RemoveHandlerAsWritten(h);
    stays := h in icon.handlers;
  }

  /** Removing a handler keeps the list without repetitions and in
      priority order, and takes out exactly that handler. */
  lemma RemoveHandlerKeepsOrder(hs: seq<HandlerInfo>, h: HandlerInfo)
    requires Distinct(hs) && ByPriority(hs) && h in hs
    ensures Distinct(RemoveFirst(hs, h)) && ByPriority(RemoveFirst(hs, h))
    ensures forall x :: x in RemoveFirst(hs, h) <==> x in hs && x != h
  {
    var k := IndexOf(hs, h);
    RemoveDistinct(hs, h);
    DeleteIndex(hs, k);
  }

  type IconId = nat

  /** The class-level `ItemIcon.__icons`: the icons made of each class, in
      order of making. */
  class IconRegistry {
    var icons: map<string, seq<IconId>>

    constructor ()
      ensures icons == map[]
    {
      icons := map[];
    }

    /** `__new__`: the new icon is appended to its class's list. */
    method Register(cls: string, icon: IconId)
      modifies this
      ensures icons == old(icons)[cls := (if cls in old(icons) then old(icons)[cls] else []) + [icon]]
      ensures icon in icons[cls]
    {
      var list := if cls in icons then icons[cls] else [];
      icons := icons[cls := list + [icon]];
    }

    /** `__destroy`: the icon leaves its class's list (a missing class or
        icon is an error the source does not catch). */
    method Unregister(cls: string, icon: IconId)
      requires cls in icons && icon in icons[cls]
      modifies this
      ensures icons == old(icons)[cls := RemoveFirst(old(icons)[cls], icon)]
      ensures multiset(icons[cls]) == multiset(old(icons)[cls]) - multiset{icon}
    {
      icons := icons[cls := RemoveFirst(icons[cls], icon)];
    }
  }
}
