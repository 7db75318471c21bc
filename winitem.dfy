/** The window items of traylib/winitem.py. A `WindowItem` shows one window:
    its name decorated with the window's state, its visibility, greyed-out
    state and zoom, and what a click does. A `WindowsItem` groups the items
    of several windows of one application in a list changed in place, keeps
    a dictionary of the handlers connected on each item, and answers for
    the group from the items that are visible. `get_filer_window_path` cuts
    a ROX-Filer window title down to the directory it shows. */
module WinItems {
  import opened Base
  import opened Wnck

  /** A window item: the window it shows, whether it is a
      `DirectoryWindowItem`, and whether its menu offers "kill". */
  datatype WinItem = WinItem(window: WinId, directory: bool, menuHasKill: bool)

  // ----- get_filer_window_path -----

  /** The characters that end the path part of a filer window title. */
  predicate IsPathMark(c: char) {
    c == '(' || c == '+'
  }

  /** `get_filer_window_path(name)`: scans the title from its last character
      down to its second; at the first '(' or '+' found, at index k, it
      returns the title without that character and the one before it. */
  method FilerWindowPath(name: string) returns (path: string)
    ensures path <= name
    ensures (forall k | 1 <= k < |name| :: !IsPathMark(name[k])) ==> path == name
    ensures forall k | 1 <= k < |name| && IsPathMark(name[k]) && (forall m | k < m < |name| :: !IsPathMark(name[m])) ::
      path == name[..k-1]
  {
    var i := 1 - |name|;
    while i < 0
      invariant 1 - |name| <= i <= (if |name| == 0 then 1 else 0)
      invariant forall m | -i < m < |name| :: !IsPathMark(name[m])
    {
      if name[-i] == '(' || name[-i] == '+' {
        path := name[..-(i+1)];
        return;
      }
      i := i + 1;
    }
    path := name;
  }

  // ----- WindowItem -----

  /** The decoration `get_name` adds around a window's base name: "[ … ]"
      when minimized, then "= … =" when shaded, then "!! … !!" when the
      window needs attention. */
  function Decorated(base: string, s: WindowState): (r: string)
    ensures |r| == |base| + (if s.minimized then 4 else 0) + (if s.shaded then 4 else 0)
      + (if s.needsAttention then 6 else 0)
  {
    var a := if s.minimized then "[ " + base + " ]" else base;
    var b := if s.shaded then "= " + a + " =" else a;
    if s.needsAttention then "!! " + b + " !!" else b
  }

  /** `replace('_', '__')`: every underscore doubled, so that a menu label
      shows it instead of taking it for a mnemonic mark. */
  function Escaped(s: string): (r: string)
    ensures |r| >= |s|
  {
    if s == [] then [] else (if s[0] == '_' then "__" else [s[0]]) + Escaped(s[1..])
  }

  /** What a GTK mnemonic label shows for a text: "__" shows as "_", and a
      single "_" marks the next character and is not shown. */
  function Shown(s: string): string
    decreases |s|
  {
    if s == [] then []
    else if s[0] == '_' && |s| >= 2 && s[1] == '_' then "_" + Shown(s[2..])
    else if s[0] == '_' then Shown(s[1..])
    else [s[0]] + Shown(s[1..])
  }

  /** A label with doubled underscores shows the original text. */
  lemma {:induction false} ShownEscaped(s: string)
    ensures Shown(Escaped(s)) == s
  {
    if s != [] {
      var e := Escaped(s[1..]);
      if s[0] == '_' {
        assert Escaped(s) == "__" + e;
        assert ("__" + e)[2..] == e;
      } else {
        assert Escaped(s) == [s[0]] + e;
        assert ([s[0]] + e)[1..] == e;
      }
      ShownEscaped(s[1..]);
    }
  }

  /** Removes `k` characters from each end of a text long enough for it. */
  function Trimmed(x: string, k: nat): string {
    if |x| >= 2 * k then x[k..|x|-k] else x
  }

  /** Removes the decoration a window's state puts around a name. */
  function Undecorated(name: string, s: WindowState): string {
    var b := if s.needsAttention then Trimmed(name, 3) else name;
    var a := if s.shaded then Trimmed(b, 2) else b;
    if s.minimized then Trimmed(a, 2) else a
  }

  lemma TrimmedWrapped(p: string, x: string, q: string)
    requires |p| == |q|
    ensures Trimmed(p + x + q, |p|) == x
  {
    assert (p + x + q)[|p|..|p| + |x|] == x;
  }

  /** The decoration is undone by the window's state: the base name can be
      read back from a decorated name. */
  lemma UndecoratedDecorated(base: string, s: WindowState)
    ensures Undecorated(Decorated(base, s), s) == base
  {
    var a := if s.minimized then "[ " + base + " ]" else base;
    var b := if s.shaded then "= " + a + " =" else a;
    if s.needsAttention { TrimmedWrapped("!! ", b, " !!"); }
    if s.shaded { TrimmedWrapped("= ", a, " ="); }
    if s.minimized { TrimmedWrapped("[ ", base, " ]"); }
  }

  /** `WindowItem.get_name`, given the base name (the window title for a
      plain item, the directory for a `DirectoryWindowItem`). */
  function ItemName(base: string, s: WindowState): (r: string)
    ensures Undecorated(Shown(r), s) == base
  {
    ShownEscaped(Decorated(base, s));
    UndecoratedDecorated(base, s);
    Escaped(Decorated(base, s))
  }

  /** `is_on_active_workspace`: the window is on the shown workspace, or on
      all of them. */
  predicate OnActiveWorkspace(d: Desktop, w: WinId) {
    var s := d.window(w);
    s.workspace == d.activeWorkspace || s.pinned || s.sticky
  }

  /** `WindowItem.is_greyed_out`. */
  predicate ItemGreyedOut(d: Desktop, w: WinId) {
    !OnActiveWorkspace(d, w) && !d.window(w).needsAttention
  }

  /** `WindowItem.is_visible`: listed in task lists and on a shown workspace
      (any workspace counts when `all_workspaces` is set), or asking for
      attention. */
  predicate ItemVisible(d: Desktop, allWorkspaces: bool, w: WinId) {
    (!d.window(w).skipTasklist && (allWorkspaces || OnActiveWorkspace(d, w)))
    || d.window(w).needsAttention
  }

  /** `WindowItem.is_blinking`. */
  predicate ItemBlinking(d: Desktop, w: WinId) {
    d.window(w).needsAttention
  }

  /** A window asking for attention is shown, blinking and not greyed out;
      a greyed-out item is shown only when every workspace's windows are,
      and only if the window is listed in task lists. */
  lemma VisibilityAndGreying(d: Desktop, allWorkspaces: bool, w: WinId)
    ensures ItemBlinking(d, w) ==> ItemVisible(d, allWorkspaces, w) && !ItemGreyedOut(d, w)
    ensures ItemGreyedOut(d, w) && ItemVisible(d, allWorkspaces, w) ==>
      allWorkspaces && !d.window(w).skipTasklist
  {
  }

  /** `WindowItem.get_zoom`. */
  function ItemZoom(d: Desktop, w: WinId): real {
    if IsActive(d, w) then 1.5 else if d.window(w).minimized then 0.66 else 1.0
  }

  /** An item is enlarged exactly when its window is active, and shrunk
      exactly when it is minimized and not active. */
  lemma ItemZoomLevels(d: Desktop, w: WinId)
    ensures ItemZoom(d, w) > 1.0 <==> IsActive(d, w)
    ensures ItemZoom(d, w) < 1.0 <==> !IsActive(d, w) && d.window(w).minimized
  {
  }

  datatype ClickAction = Minimize | Activate

  /** What `WindowItem.click` does: minimize an active window that is not
      minimized, unless activation is forced; otherwise activate it. */
  function ClickActionOf(d: Desktop, w: WinId, force: bool): ClickAction {
    if !force && IsActive(d, w) && !d.window(w).minimized then Minimize else Activate
  }

  /** `WindowItem.activate`: switch to the window's workspace, then
      unminimize and activate the window. A window on no workspace (one
      pinned to all of them) answers `None` to `get_workspace()`, and the
      call on it raises `AttributeError` before anything changes. */
  function ItemActivated(d: Desktop, w: WinId): (r: Result<Desktop>)
    ensures r.Failure? <==> d.window(w).workspace.None?
    ensures r.Failure? ==> r.error == AttributeError
    ensures r.Success? ==>
      && r.value.activeWorkspace == d.window(w).workspace
      && IsActive(r.value, w) && !r.value.window(w).minimized
      && forall x | x != w :: r.value.window(x) == d.window(x)
  {
    if d.window(w).workspace.None? then Failure(AttributeError)
    else Success(Activated(d.(activeWorkspace := d.window(w).workspace), w))
  }

  /** The desktop after `WindowItem.click`, or the error it raises. */
  function Clicked(d: Desktop, w: WinId, force: bool): Result<Desktop> {
    match ClickActionOf(d, w, force)
    case Minimize => Success(Minimized(d, w))
    case Activate => ItemActivated(d, w)
  }

  /** Clicking the item of the active window minimizes it, and clicking it
      again brings it back, active and not minimized, on its workspace; a
      forced click leaves the window active and not minimized, and raises
      `AttributeError` exactly for a window on no workspace. */
  lemma ClickToggles(d: Desktop, w: WinId)
    ensures IsActive(d, w) && !d.window(w).minimized && d.window(w).workspace.Some? ==>
      && Clicked(d, w, false).Success?
      && var d1 := Clicked(d, w, false).value;
      && d1.window(w).minimized
      && Clicked(d1, w, false).Success?
      && var d2 := Clicked(d1, w, false).value;
      && IsActive(d2, w) && !d2.window(w).minimized && d2.activeWorkspace == d.window(w).workspace
    ensures Clicked(d, w, true).Failure? <==> d.window(w).workspace.None?
    ensures Clicked(d, w, true).Failure? ==> Clicked(d, w, true).error == AttributeError
    ensures Clicked(d, w, true).Success? ==>
      IsActive(Clicked(d, w, true).value, w) && !Clicked(d, w, true).value.window(w).minimized
  {
  }

  // ----- create_window_item -----

  predicate StartsWith(s: string, c: char) {
    |s| > 0 && s[0] == c
  }

  /** `create_window_item` as written: `A and B or C` groups as
      `(A and B) or C`, so any window whose title starts with '~' becomes a
      directory item; and a plain item receives `get_filer_window_path` in
      the place of `menu_has_kill`, a function, which counts as true. */
  function CreateWindowItemAsWritten(s: WindowState, w: WinId, menuHasKill: bool): WinItem {
    if (s.className == "ROX-Filer" && StartsWith(s.name, '/')) || StartsWith(s.name, '~')
    then WinItem(w, true, menuHasKill)
    else WinItem(w, false, true)
  }

  /** `create_window_item` as evidently intended: only ROX-Filer windows
      showing a path become directory items, and every item receives the
      caller's `menu_has_kill`. */
  function CreateWindowItem(s: WindowState, w: WinId, menuHasKill: bool): WinItem {
    WinItem(w, s.className == "ROX-Filer" && (StartsWith(s.name, '/') || StartsWith(s.name, '~')), menuHasKill)
  }

  /** The intended factory keeps the caller's "kill" option, and makes a
      directory item exactly of a ROX-Filer window whose title is a path. */
  lemma CreateWindowItemIntended(s: WindowState, w: WinId, menuHasKill: bool)
    ensures var r := CreateWindowItem(s, w, menuHasKill);
      && r.window == w && r.menuHasKill == menuHasKill
      && (r.directory <==> s.className == "ROX-Filer" && (StartsWith(s.name, '/') || StartsWith(s.name, '~')))
  {
  }

  /** A text editor's window titled "~/notes" becomes a directory item as
      written, but not as intended. */
  lemma TildeTitleBecomesDirectory()
    ensures var s := WindowState("~/notes", "Gedit", false, false, false, false, false, false, None);
      CreateWindowItemAsWritten(s, 7, true).directory && !CreateWindowItem(s, 7, true).directory
  {
  }

  /** As written, a plain window item offers "kill" even when the caller
      asked for no "kill". */
  lemma KillOptionIgnored()
    ensures var s := WindowState("xterm", "XTerm", false, false, false, false, false, false, None);
      CreateWindowItemAsWritten(s, 7, false).menuHasKill && !CreateWindowItem(s, 7, false).menuHasKill
  {
  }

  /** The factory a `WindowsItem` creates its window items with: the
      module's `create_window_item` as written (the constructor's default),
      or the corrected one. */
  datatype Factory = AsWrittenFactory | IntendedFactory

  function Create(f: Factory, s: WindowState, w: WinId, menuHasKill: bool): (r: WinItem)
    ensures r.window == w
    ensures f == IntendedFactory ==> r.menuHasKill == menuHasKill
  {
    match f
    case AsWrittenFactory => CreateWindowItemAsWritten(s, w, menuHasKill)
    case IntendedFactory => CreateWindowItem(s, w, menuHasKill)
  }

  // ----- WindowsItem: the list and the handler dictionary -----

  /** The signals of window items and groups ("has-arrow-changed",
      "is-visible-changed", and so on). */
  datatype Signal =
    | HasArrowChanged | IsVisibleChanged | MenuLeftChanged | MenuRightChanged
    | DragSourceChanged | ZoomChanged | NameChanged | VisibleWindowItemsChanged
    | IsGreyedOutChanged | IsBlinkingChanged | IconChanged

  /** The handlers `add_window` connects on a new item, named by the signal
      each one serves. */
  const ItemHandlers: seq<Signal> := [IsVisibleChanged, IsBlinkingChanged, IconChanged, IsGreyedOutChanged]

  /** What a `WindowsItem` does observably: emit a signal, disconnect one
      of its handlers from the item of a window, disconnect its handler from
      the screen or from the window configuration, or destroy the item of a
      window. */
  datatype WindowsEvent =
    | Emitted(signal: Signal) | Disconnected(window: WinId, handler: Signal)
    | ScreenReleased | ConfigReleased | ItemDestroyed(window: WinId)

  /** The signals `add_window` and `remove_window` emit once the list has
      changed, in order. */
  const ListChanged: seq<WindowsEvent> :=
    [Emitted(HasArrowChanged), Emitted(IsVisibleChanged), Emitted(MenuLeftChanged),
     Emitted(MenuRightChanged), Emitted(DragSourceChanged), Emitted(ZoomChanged),
     Emitted(NameChanged), Emitted(VisibleWindowItemsChanged), Emitted(IsGreyedOutChanged)]

  function Disconnects(w: WinId, hs: seq<Signal>): (r: seq<WindowsEvent>)
    ensures |r| == |hs|
    ensures forall i | 0 <= i < |hs| :: r[i] == Disconnected(w, hs[i])
  {
    if hs == [] then [] else [Disconnected(w, hs[0])] + Disconnects(w, hs[1..])
  }

  /** The windows of a list of items, in order. */
  function WindowsOf(items: seq<WinItem>): (r: seq<WinId>)
    ensures |r| == |items|
    ensures forall i | 0 <= i < |items| :: r[i] == items[i].window
  {
    seq(|items|, i requires 0 <= i < |items| => items[i].window)
  }

  /** `[item for item in items if item.window != window]`. */
  function Without(items: seq<WinItem>, w: WinId): seq<WinItem> {
    if items == [] then []
    else (if items[0].window != w then [items[0]] else []) + Without(items[1..], w)
  }

  /** The items left are exactly the items of other windows. */
  lemma {:induction false} WithoutMembers(items: seq<WinItem>, w: WinId)
    ensures forall x :: x in Without(items, w) <==> x in items && x.window != w
  {
    if items != [] {
      WithoutMembers(items[1..], w);
      assert items == [items[0]] + items[1..];
    }
  }

  lemma {:induction false} WithoutSplit(a: seq<WinItem>, b: seq<WinItem>, w: WinId)
    ensures Without(a + b, w) == Without(a, w) + Without(b, w)
  {
    if a != [] {
      assert (a + b)[1..] == a[1..] + b;
      WithoutSplit(a[1..], b, w);
    } else {
      assert a + b == b;
    }
  }

  /** Some item shows the window. */
  predicate HasItem(items: seq<WinItem>, w: WinId) {
    exists i | 0 <= i < |items| :: items[i].window == w
  }

  lemma WithoutCons(x: WinItem, b: seq<WinItem>, w: WinId)
    ensures Without([x] + b, w) == (if x.window != w then [x] else []) + Without(b, w)
  {
    assert ([x] + b)[1..] == b;
  }

  /** Filtering out a window that has no item changes nothing. */
  lemma {:induction false} WithoutAbsent(items: seq<WinItem>, w: WinId)
    requires !HasItem(items, w)
    ensures Without(items, w) == items
  {
    if items != [] {
      assert items[0].window != w;
      assert forall i | 0 <= i < |items| - 1 :: items[1..][i] == items[i+1];
      WithoutAbsent(items[1..], w);
    }
  }

  /** When no other item shows the window of an item, filtering out that
      window deletes just that item. */
  lemma WithoutMiddle(front: seq<WinItem>, x: WinItem, back: seq<WinItem>)
    requires !HasItem(front, x.window) && !HasItem(back, x.window)
    ensures Without(front + [x] + back, x.window) == front + back
  {
    var w := x.window;
    WithoutAbsent(front, w);
    WithoutAbsent(back, w);
    WithoutCons(x, back, w);
    WithoutSplit(front, [x] + back, w);
    assert front + [x] + back == front + ([x] + back);
    assert [] + back == back;
  }

  /** No two items show the same window. */
  predicate OneItemPerWindow(items: seq<WinItem>) {
    forall i, j | 0 <= i < j < |items| :: items[i].window != items[j].window
  }

  /** Adding the item of a new window and then removing that window gives
      back the list. */
  lemma AddThenRemove(items: seq<WinItem>, it: WinItem)
    requires !HasItem(items, it.window)
    ensures Without(items + [it], it.window) == items
  {
    WithoutSplit(items, [it], it.window);
    WithoutAbsent(items, it.window);
    WithoutCons(it, [], it.window);
    assert [it] + [] == [it];
  }

  /** The disconnections of `remove_window`'s loop: for each item showing
      the window, every handler popped for it. */
  function Disconnections(items: seq<WinItem>, w: WinId, hs: seq<Signal>): seq<WindowsEvent> {
    if items == [] then []
    else
      var n := |items| - 1;
      Disconnections(items[..n], w, hs) + (if items[n].window == w then Disconnects(w, hs) else [])
  }

  /** `remove_window`'s disconnection loop. */
  method DisconnectFrom(items: seq<WinItem>, w: WinId, hs: seq<Signal>) returns (log: seq<WindowsEvent>)
    ensures log == Disconnections(items, w, hs)
  {
    log := [];
    for i := 0 to |items|
      invariant log == Disconnections(items[..i], w, hs)
    {
      assert items[..i+1][..i] == items[..i];
      if items[i].window == w {
        for j := 0 to |hs|
          invariant log == Disconnections(items[..i], w, hs) + Disconnects(w, hs[..j])
        {
          DisconnectsSnoc(w, hs[..j], hs[j]);
          assert hs[..j+1] == hs[..j] + [hs[j]];
          log := log + [Disconnected(w, hs[j])];
        }
        assert hs[..|hs|] == hs;
      }
    }
    assert items[..|items|] == items;
  }

  /** One pass of the `__destroyed` loop over the items: the handlers are
      disconnected from the first item showing the window, if any. */
  method DisconnectFirst(items: seq<WinItem>, w: WinId, hs: seq<Signal>) returns (log: seq<WindowsEvent>)
    ensures HasItem(items, w) ==> log == Disconnects(w, hs)
    ensures !HasItem(items, w) ==> log == []
  {
    log := [];
    for i := 0 to |items|
      invariant forall j | 0 <= j < i :: items[j].window != w
    {
      if items[i].window == w {
        for j := 0 to |hs|
          invariant log == Disconnects(w, hs[..j])
        {
          DisconnectsSnoc(w, hs[..j], hs[j]);
          assert hs[..j+1] == hs[..j] + [hs[j]];
          log := log + [Disconnected(w, hs[j])];
        }
        assert hs[..|hs|] == hs;
        return;
      }
    }
  }

  /** The handler disconnections of `__destroyed`, window by window in the
      order the handler dictionary is walked. */
  function Released(ws: seq<WinId>): seq<WindowsEvent> {
    if ws == [] then [] else Released(ws[..|ws| - 1]) + Disconnects(ws[|ws| - 1], ItemHandlers)
  }

  /** Every handler of every window walked is disconnected, once, and
      nothing else is. */
  lemma {:induction false} ReleasedExactly(ws: seq<WinId>)
    ensures |Released(ws)| == |ws| * |ItemHandlers|
    ensures forall e | e in Released(ws) :: e.Disconnected? && e.window in ws && e.handler in ItemHandlers
    ensures forall w, h | w in ws && h in ItemHandlers :: Disconnected(w, h) in Released(ws)
  {
    if ws != [] {
      var n := |ws| - 1;
      ReleasedExactly(ws[..n]);
      forall w, h | w in ws && h in ItemHandlers ensures Disconnected(w, h) in Released(ws) {
        var i :| 0 <= i < |ItemHandlers| && ItemHandlers[i] == h;
        if w == ws[n] {
          assert Disconnects(w, ItemHandlers)[i] == Disconnected(w, h);
        } else {
          var k :| 0 <= k < |ws| && ws[k] == w;
          assert ws[..n][k] == w;
        }
      }
    }
  }

  /** The walk of `__destroyed` over the handler dictionary, in the given
      order, in a group kept consistent. */
  method ReleaseAll(items: seq<WinItem>, handlers: map<WinId, seq<Signal>>, order: seq<WinId>)
    returns (log: seq<WindowsEvent>)
    requires Consistent(items, handlers) && forall w | w in order :: w in handlers
    ensures log == Released(order)
  {
    log := [];
    for k := 0 to |order|
      invariant log == Released(order[..k])
    {
      assert order[..k+1][..k] == order[..k];
      var more := DisconnectFirst(items, order[k], handlers[order[k]]);
      log := log + more;
    }
    assert order[..|order|] == order;
  }

  /** The last loop of `__destroyed`: every item is destroyed, in order. */
  method DestroyEach(items: seq<WinItem>) returns (log: seq<WindowsEvent>)
    ensures log == Destructions(items)
  {
    log := [];
    for i := 0 to |items|
      invariant log == Destructions(items[..i])
    {
      assert Destructions(items[..i+1]) == Destructions(items[..i]) + [ItemDestroyed(items[i].window)];
      log := log + [ItemDestroyed(items[i].window)];
    }
    assert items[..|items|] == items;
  }

  /** The `destroy()` of every item, in order. */
  function Destructions(items: seq<WinItem>): (r: seq<WindowsEvent>)
    ensures |r| == |items|
  {
    seq(|items|, i requires 0 <= i < |items| => ItemDestroyed(items[i].window))
  }

  lemma DisconnectsSnoc(w: WinId, hs: seq<Signal>, h: Signal)
    ensures Disconnects(w, hs + [h]) == Disconnects(w, hs) + [Disconnected(w, h)]
  {
  }

  /** A window without items has nothing disconnected. */
  lemma {:induction false} NoDisconnections(items: seq<WinItem>, w: WinId, hs: seq<Signal>)
    requires !HasItem(items, w)
    ensures Disconnections(items, w, hs) == []
  {
    if items != [] {
      var n := |items| - 1;
      assert !HasItem(items[..n], w) by {
        forall i | 0 <= i < n ensures items[..n][i].window != w {
          assert items[..n][i] == items[i];
        }
      }
      NoDisconnections(items[..n], w, hs);
    }
  }

  /** With one item per window, `remove_window` disconnects the popped
      handlers exactly once, from the window's only item. */
  lemma {:induction false} DisconnectedOnce(items: seq<WinItem>, w: WinId, hs: seq<Signal>)
    requires OneItemPerWindow(items) && HasItem(items, w)
    ensures Disconnections(items, w, hs) == Disconnects(w, hs)
  {
    var n := |items| - 1;
    var init := items[..n];
    assert forall i | 0 <= i < n :: init[i] == items[i];
    if items[n].window == w {
      NoDisconnections(init, w, hs);
    } else {
      var k :| 0 <= k < |items| && items[k].window == w;
      assert init[k].window == w;
      DisconnectedOnce(init, w, hs);
    }
  }

  /** The invariant of a `WindowsItem`: one item per window, a handler
      entry for exactly the windows that have an item, and each entry the
      handler list `add_window` records. */
  predicate Consistent(items: seq<WinItem>, handlers: map<WinId, seq<Signal>>) {
    && OneItemPerWindow(items)
    && (forall w | w in handlers :: HasItem(items, w))
    && (forall i | 0 <= i < |items| :: items[i].window in handlers)
    && (forall w | w in handlers :: handlers[w] == ItemHandlers)
  }

  /** Adding the item of a window without one keeps a group consistent. */
  lemma AddConsistent(items: seq<WinItem>, handlers: map<WinId, seq<Signal>>, it: WinItem)
    requires Consistent(items, handlers) && !HasItem(items, it.window)
    ensures Consistent(items + [it], handlers[it.window := ItemHandlers])
  {
    var n := items + [it];
    forall v | v in handlers ensures HasItem(n, v) {
      var i :| 0 <= i < |items| && items[i].window == v;
      assert n[i].window == v;
    }
    assert n[|items|].window == it.window;
  }

  /** Removing a window that has an item, with its handler entry, keeps a
      group consistent. */
  lemma RemoveConsistent(items: seq<WinItem>, handlers: map<WinId, seq<Signal>>, w: WinId)
    requires Consistent(items, handlers) && w in handlers
    ensures Consistent(Without(items, w), handlers - {w})
  {
    var k :| 0 <= k < |items| && items[k].window == w;
    DeleteItem(items, k);
    var r := Without(items, w);
    forall i | 0 <= i < |r| ensures r[i].window in handlers - {w} {
      assert r[i] in r;
      var j :| 0 <= j < |items| && items[j] == r[i];
      assert items[j].window in handlers;
    }
  }

  /** Filtering out the window of an item that shares its window with no
      other item deletes it alone: the others keep one item per window and
      every other window keeps its item. */
  lemma DeleteItem(items: seq<WinItem>, k: nat)
    requires OneItemPerWindow(items) && k < |items|
    ensures var r := Without(items, items[k].window);
      && OneItemPerWindow(r)
      && (forall x | x in r :: x in items && x.window != items[k].window)
      && (forall v | HasItem(items, v) && v != items[k].window :: HasItem(r, v))
  {
    var w := items[k].window;
    var front, back := items[..k], items[k+1..];
    SplitAt(items, k);
    assert !HasItem(front, w) by {
      forall i | 0 <= i < k ensures front[i].window != w {
        assert front[i] == items[i];
      }
    }
    assert !HasItem(back, w) by {
      forall i | 0 <= i < |back| ensures back[i].window != w {
        assert back[i] == items[k+1+i];
      }
    }
    WithoutMiddle(front, items[k], back);
    DeletedItems(items, k);
  }

  /** Deleting one item keeps one item per window, and every window of
      another item keeps its item. */
  lemma DeletedItems(items: seq<WinItem>, k: nat)
    requires OneItemPerWindow(items) && k < |items|
    ensures var r := items[..k] + items[k+1..];
      && OneItemPerWindow(r)
      && (forall x | x in r :: x in items && x.window != items[k].window)
      && (forall v | HasItem(items, v) && v != items[k].window :: HasItem(r, v))
  {
    var r := items[..k] + items[k+1..];
    DeleteIndex(items, k);
    forall i, j | 0 <= i < j < |r| ensures r[i].window != r[j].window {
      var i', j' := if i < k then i else i + 1, if j < k then j else j + 1;
      assert r[i] == items[i'] && r[j] == items[j'];
    }
    forall x | x in r ensures x in items && x.window != items[k].window {
      var i :| 0 <= i < |r| && r[i] == x;
      var i' := if i < k then i else i + 1;
      assert x == items[i'];
    }
    forall v | HasItem(items, v) && v != items[k].window ensures HasItem(r, v) {
      var j :| 0 <= j < |items| && items[j].window == v;
      if j < k {
        assert r[j] == items[j];
      } else {
        assert r[j-1] == items[j];
      }
    }
  }

  /** The items of a list whose windows are visible, in order. */
  function VisibleItems(d: Desktop, allWorkspaces: bool, items: seq<WinItem>): (r: seq<WinItem>)
    ensures |r| <= |items|
    ensures forall x :: x in r <==> x in items && ItemVisible(d, allWorkspaces, x.window)
  {
    if items == [] then []
    else
      var n := |items| - 1;
      assert items == items[..n] + [items[n]];
      VisibleItems(d, allWorkspaces, items[..n])
        + (if ItemVisible(d, allWorkspaces, items[n].window) then [items[n]] else [])
  }

  /** The visible items of a concatenation are those of each part, in order:
      the selection is an order-keeping filter. */
  lemma {:induction false} VisibleItemsAppend(d: Desktop, allWorkspaces: bool, a: seq<WinItem>, b: seq<WinItem>)
    ensures VisibleItems(d, allWorkspaces, a + b) == VisibleItems(d, allWorkspaces, a) + VisibleItems(d, allWorkspaces, b)
    decreases |b|
  {
    if b == [] {
      assert a + b == a;
    } else {
      var n := |b| - 1;
      assert (a + b)[..|a + b| - 1] == a + b[..n];
      assert (a + b)[|a + b| - 1] == b[n];
      VisibleItemsAppend(d, allWorkspaces, a, b[..n]);
    }
  }

  /** A group with one item per window shows each window once, so picking
      the next and then the previous visible window comes back to the
      active one (`PreviousUndoesNext`). */
  lemma {:induction false} VisibleWindowsDistinct(d: Desktop, allWorkspaces: bool, items: seq<WinItem>)
    requires OneItemPerWindow(items)
    ensures Distinct(WindowsOf(VisibleItems(d, allWorkspaces, items)))
  {
    if items != [] {
      var n := |items| - 1;
      var init := items[..n];
      assert forall i | 0 <= i < n :: init[i] == items[i];
      VisibleWindowsDistinct(d, allWorkspaces, init);
      var v := VisibleItems(d, allWorkspaces, init);
      var ws := WindowsOf(VisibleItems(d, allWorkspaces, items));
      if ItemVisible(d, allWorkspaces, items[n].window) {
        forall i | 0 <= i < |v| ensures v[i].window != items[n].window {
          assert v[i] in init;
          var j :| 0 <= j < n && init[j] == v[i];
        }
        assert ws == WindowsOf(v) + [items[n].window];
      }
    }
  }

  /** `WindowsItem.get_name`: the bare name for exactly one visible item,
      otherwise the name followed by the count in parentheses. */
  function GroupName(name: string, visible: nat): (r: string)
    ensures visible == 1 <==> r == name
    ensures visible != 1 ==> |r| == |name| + 3 + |DecimalString(visible)|
    ensures visible != 1 ==> r[..|name|] == name && r[|name|..|name|+2] == " (" && r[|r|-1] == ')'
    ensures visible != 1 ==> forall i | |name| + 2 <= i < |r| - 1 :: '0' <= r[i] <= '9'
    ensures visible > 1 ==> r[|name|+2] != '0'
    ensures visible != 1 ==> DigitsValue(r[|name|+2..|r|-1]) == visible
  {
    if visible == 1 then name
    else
      var digits := DecimalString(visible);
      var r := name + " (" + digits + ")";
      assert r[|name|+2..|r|-1] == digits;
      assert forall i | |name| + 2 <= i < |r| - 1 :: r[i] == digits[i - |name| - 2] && r[i] in digits;
      r
  }

  /** `WindowsItem.get_zoom` on the visible items: enlarged when one of them
      is active, shrunk when all of them (possibly none) are minimized. */
  function GroupZoom(d: Desktop, v: seq<WinItem>): real {
    if exists i | 0 <= i < |v| :: IsActive(d, v[i].window) then 1.5
    else if forall i | 0 <= i < |v| :: d.window(v[i].window).minimized then 0.66
    else 1.0
  }

  /** A group with visible items is zoomed as much as its most zoomed
      visible item. */
  lemma GroupZoomIsLargest(d: Desktop, v: seq<WinItem>)
    requires |v| > 0
    ensures exists i | 0 <= i < |v| :: GroupZoom(d, v) == ItemZoom(d, v[i].window)
    ensures forall i | 0 <= i < |v| :: ItemZoom(d, v[i].window) <= GroupZoom(d, v)
  {
    if exists i | 0 <= i < |v| :: IsActive(d, v[i].window) {
      var i :| 0 <= i < |v| && IsActive(d, v[i].window);
      assert GroupZoom(d, v) == ItemZoom(d, v[i].window);
    } else if forall i | 0 <= i < |v| :: d.window(v[i].window).minimized {
      assert GroupZoom(d, v) == ItemZoom(d, v[0].window);
    } else {
      var i :| 0 <= i < |v| && !d.window(v[i].window).minimized;
      assert GroupZoom(d, v) == ItemZoom(d, v[i].window);
    }
  }

  class WindowsItem {
    /** `__name` */
    var name: string
    /** `__menu_has_kill`, handed to every item created. */
    const menuHasKill: bool
    /** `__create_window_item` */
    const factory: Factory
    /** `__window_items`, in order. */
    var items: seq<WinItem>
    /** `__window_handlers`: the handlers connected on each window's item. */
    var handlers: map<WinId, seq<Signal>>
    /** The signals emitted and the handlers disconnected, in order. */
    var events: seq<WindowsEvent>

    predicate Valid()
      reads this
    {
      Consistent(items, handlers)
    }

    constructor (name: string, menuHasKill: bool, factory: Factory)
      ensures Valid()
      ensures this.name == name && this.menuHasKill == menuHasKill && this.factory == factory
      ensures items == [] && handlers == map[] && events == []
    {
      this.name := name;
      this.menuHasKill := menuHasKill;
      this.factory := factory;
      items := [];
      handlers := map[];
      events := [];
    }

    /** `visible_window_items` */
    function Visible(d: Desktop, allWorkspaces: bool): seq<WinItem>
      reads this
    {
      VisibleItems(d, allWorkspaces, items)
    }

    /** The search at the start of `add_window`. */
    method HasWindow(w: WinId) returns (found: bool)
      ensures found <==> HasItem(items, w)
    {
      for i := 0 to |items|
        invariant forall j | 0 <= j < i :: items[j].window != w
      {
        if items[i].window == w {
          return true;
        }
      }
      return false;
    }

    /** `add_window(window)`, given what the window answers: nothing
      happens when the window already has an item; otherwise an item is
      created for it, its handlers are
      recorded, it is appended, and the list signals are emitted. */
    method AddWindow(w: WinId, s: WindowState)
      requires Valid()
      modifies this
      ensures Valid()
      ensures old(HasItem(items, w)) ==>
        items == old(items) && handlers == old(handlers) && events == old(events)
      ensures !old(HasItem(items, w)) ==>
        && items == old(items) + [Create(factory, s, w, menuHasKill)]
        && handlers == old(handlers)[w := ItemHandlers]
        && events == old(events) + ListChanged
      ensures name == old(name)
    {
      var found := HasWindow(w);
      if found {
        return;
      }
      var it := Create(factory, s, w, menuHasKill);
      AddConsistent(items, handlers, it);
      handlers := handlers[w := ItemHandlers];
      items := items + [it];
      events := events + ListChanged;
    }

    /** `remove_window(window)`: nothing happens for a window without a
      handler entry; otherwise the entry is popped, its handlers are
      disconnected from the window's item, every item of the window is
      dropped, and the list signals are emitted. */
    method RemoveWindow(w: WinId)
      requires Valid()
      modifies this
      ensures Valid()
      ensures w !in old(handlers) ==>
        items == old(items) && handlers == old(handlers) && events == old(events)
      ensures w in old(handlers) ==>
        && items == Without(old(items), w)
        && handlers == old(handlers) - {w}
        && events == old(events) + Disconnects(w, ItemHandlers) + ListChanged
      ensures name == old(name)
    {
      if w !in handlers {
        return;
      }
      var hs := handlers[w];
      handlers := handlers - {w};
      var log := DisconnectFrom(items, w, hs);
      DisconnectedOnce(items, w, hs);
      RemoveConsistent(items, old(handlers), w);
      items := Without(items, w);
      events := events + log + ListChanged;
    }

    /** `__destroyed`, run when the group is destroyed: its handlers are
      disconnected from the screen and the window configuration, each
      window's handlers from that window's item, walking the handler
      dictionary in the given order, and then every item is destroyed. */
    method OnDestroyed(order: seq<WinId>)
      requires Valid()
      requires |order| == |handlers| && (forall w | w in order :: w in handlers)
      requires forall i, j | 0 <= i < j < |order| :: order[i] != order[j]
      modifies this
      ensures Valid() && items == old(items) && handlers == old(handlers) && name == old(name)
      ensures events == old(events) + [ScreenReleased, ConfigReleased] + Released(order) + Destructions(items)
    {
      var released := ReleaseAll(items, handlers, order);
      var destroyed := DestroyEach(items);
      events := events + [ScreenReleased, ConfigReleased] + released + destroyed;
    }

    /** The `name` setter. */
    method SetName(n: string)
      modifies this
      ensures name == n && items == old(items) && handlers == old(handlers)
      ensures events == old(events) + [Emitted(NameChanged)]
    {
      name := n;
      events := events + [Emitted(NameChanged)];
    }

    /** `get_name` */
    function Name(d: Desktop, allWorkspaces: bool): string
      reads this
    {
      GroupName(name, |Visible(d, allWorkspaces)|)
    }

    /** `has_arrow`: the arrow is configured and more than one item shows. */
    predicate HasArrow(d: Desktop, allWorkspaces: bool, arrow: bool)
      reads this
    {
      arrow && |Visible(d, allWorkspaces)| > 1
    }

    /** `is_visible`: some item shows. */
    predicate IsVisible(d: Desktop, allWorkspaces: bool)
      reads this
    {
      |Visible(d, allWorkspaces)| > 0
    }

    /** `is_blinking`: some visible item blinks. */
    method IsBlinking(d: Desktop, allWorkspaces: bool) returns (b: bool)
      ensures b <==> exists x | x in items :: ItemVisible(d, allWorkspaces, x.window) && ItemBlinking(d, x.window)
    {
      var v := Visible(d, allWorkspaces);
      for i := 0 to |v|
        invariant forall j | 0 <= j < i :: !ItemBlinking(d, v[j].window)
      {
        if ItemBlinking(d, v[i].window) {
          return true;
        }
      }
      assert forall x | x in v :: !ItemBlinking(d, x.window);
      return false;
    }

    /** `is_greyed_out`: every visible item is greyed out (so also when
      none is visible). */
    method IsGreyedOut(d: Desktop, allWorkspaces: bool) returns (g: bool)
      ensures g <==> forall x | x in items && ItemVisible(d, allWorkspaces, x.window) :: ItemGreyedOut(d, x.window)
    {
      var v := Visible(d, allWorkspaces);
      for i := 0 to |v|
        invariant forall j | 0 <= j < i :: ItemGreyedOut(d, v[j].window)
      {
        if !ItemGreyedOut(d, v[i].window) {
          assert v[i] in v;
          return false;
        }
      }
      assert forall x | x in v :: ItemGreyedOut(d, x.window);
      return true;
    }

    /** `get_zoom` */
    method GetZoom(d: Desktop, allWorkspaces: bool) returns (z: real)
      ensures z == GroupZoom(d, Visible(d, allWorkspaces))
    {
      var v := Visible(d, allWorkspaces);
      for i := 0 to |v|
        invariant forall j | 0 <= j < i :: !IsActive(d, v[j].window)
      {
        if IsActive(d, v[i].window) {
          return 1.5;
        }
      }
      for i := 0 to |v|
        invariant forall j | 0 <= j < i :: d.window(v[j].window).minimized
      {
        if !d.window(v[i].window).minimized {
          return 1.0;
        }
      }
      return 0.66;
    }

    /** `click`: the first visible item is clicked without forcing; with no
      visible item the list index fails. */
    method Click(d: Desktop, allWorkspaces: bool) returns (r: Result<Desktop>)
      ensures !IsVisible(d, allWorkspaces) ==> r == Failure(IndexError)
      ensures IsVisible(d, allWorkspaces) ==> r == Clicked(d, Visible(d, allWorkspaces)[0].window, false)
    {
      var v := Visible(d, allWorkspaces);
      if |v| == 0 {
        return Failure(IndexError);
      }
      return Clicked(d, v[0].window, false);
    }

    /** `activate_next_window`: without a screen or a visible item nothing
      happens; otherwise the item after the first active one is clicked
      with activation forced, or the first item when the active one is
      last or none is active. Returns the window activated. */
    method ActivateNext(d: Desktop, allWorkspaces: bool, hasScreen: bool) returns (r: Option<WinId>)
      ensures r.None? <==> !hasScreen || !IsVisible(d, allWorkspaces)
      ensures r.Some? ==>
        var ws := WindowsOf(Visible(d, allWorkspaces));
        r.value == ws[NextIndex(ws, d.activeWindow)]
    {
      var v := Visible(d, allWorkspaces);
      if !hasScreen || |v| == 0 {
        return None;
      }
      ghost var ws := WindowsOf(v);
      var found := false;
      for i := 0 to |v|
        invariant !found <==> forall j | 0 <= j < i :: !IsActive(d, v[j].window)
        invariant found ==> i > 0 && d.activeWindow == Some(ws[i-1]) && IndexOf(ws, ws[i-1]) == i - 1
      {
        if found {
          return Some(v[i].window);
        }
        if IsActive(d, v[i].window) {
          found := true;
          assert ws[..i] == WindowsOf(v[..i]);
          assert ws[i] !in ws[..i];
        }
      }
      return Some(v[0].window);
    }

    /** `activate_previous_window`: without a screen or a visible item
      nothing happens; otherwise the item before the first active one is
      clicked with activation forced, or the last item when the active one
      is first or none is active. Returns the window activated. */
    method ActivatePrevious(d: Desktop, allWorkspaces: bool, hasScreen: bool) returns (r: Option<WinId>)
      ensures r.None? <==> !hasScreen || !IsVisible(d, allWorkspaces)
      ensures r.Some? ==>
        var ws := WindowsOf(Visible(d, allWorkspaces));
        r.value == ws[PreviousIndex(ws, d.activeWindow)]
    {
      var v := Visible(d, allWorkspaces);
      if !hasScreen || |v| == 0 {
        return None;
      }
      ghost var ws := WindowsOf(v);
      var previous := v[|v| - 1];
      var i := 0;
      while i < |v|
        invariant 0 <= i <= |v|
        invariant forall j | 0 <= j < i :: !IsActive(d, v[j].window)
        invariant previous == if i == 0 then v[|v| - 1] else v[i-1]
      {
        if IsActive(d, v[i].window) {
          break;
        }
        previous := v[i];
        i := i + 1;
      }
      if i < |v| {
        assert ws[i] !in ws[..i];
        assert IndexOf(ws, ws[i]) == i;
      }
      return Some(previous.window);
    }
  }

  /** A blinking group is never greyed out: the item that needs attention
      is visible and not greyed out. */
  lemma BlinkingNotGreyed(d: Desktop, allWorkspaces: bool, items: seq<WinItem>, x: WinItem)
    requires x in items && ItemBlinking(d, x.window)
    ensures x in VisibleItems(d, allWorkspaces, items)
    ensures !ItemGreyedOut(d, x.window)
  {
    VisibilityAndGreying(d, allWorkspaces, x.window);
  }
}
