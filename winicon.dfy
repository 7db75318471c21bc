/** The legacy window group of traylib/winicon.py: an icon that keeps the
    list of its windows, the list of those currently visible, and the
    handlers it connected on each window. The desktop the windows live on
    is a snapshot (`Wnck.Desktop`), and whether the module-level SCREEN is
    available is a flag. The icon's own redraws (`update_has_arrow`,
    `update_zoom_factor`, ...) are recorded in an event log, and
    `set_blinking` is recorded as the last value it was given. */
module WinIcons {
  import opened Base
  import opened Wnck

  /** The three window signals the icon connects to. */
  datatype WindowSignal = NameChanged | StateChanged | WorkspaceChanged

  /** The handlers `add_window` connects, in order. */
  const WindowHandlers: seq<WindowSignal> := [NameChanged, StateChanged, WorkspaceChanged]

  /** The icon updates the window bookkeeping triggers. */
  datatype Update = HasArrowUpdate | ZoomFactorUpdate | TooltipUpdate | VisibilityUpdate

  datatype IconEvent = Updated(update: Update) | Disconnected(window: WinId, handler: WindowSignal)

  /** The updates `add_window` and `remove_window` run, in order. */
  const ListUpdates: seq<IconEvent> :=
    [Updated(HasArrowUpdate), Updated(ZoomFactorUpdate), Updated(TooltipUpdate), Updated(VisibilityUpdate)]

  /** The updates `update_windows` runs, in order. */
  const RefreshUpdates: seq<IconEvent> :=
    [Updated(HasArrowUpdate), Updated(TooltipUpdate), Updated(ZoomFactorUpdate), Updated(VisibilityUpdate)]

  /** The disconnection of each of `hs` from window `w`, in order. */
  function Disconnects(w: WinId, hs: seq<WindowSignal>): (r: seq<IconEvent>)
    ensures |r| == |hs| && forall i | 0 <= i < |hs| :: r[i] == Disconnected(w, hs[i])
  {
    seq(|hs|, i requires 0 <= i < |hs| => Disconnected(w, hs[i]))
  }

  /** `window_is_visible`: false without a screen; otherwise a listed
      window that is not skipped and is on the active workspace (or pinned,
      sticky, or all workspaces are shown), or any window needing
      attention. */
  predicate WindowIsVisible(d: Desktop, hasScreen: bool, allWorkspaces: bool, windows: seq<WinId>, w: WinId) {
    var s := d.window(w);
    hasScreen &&
    ((w in windows && !s.skipTasklist &&
      (allWorkspaces || s.workspace == d.activeWorkspace || s.pinned || s.sticky))
     || s.needsAttention)
  }

  /** The windows of `ws` that `window_is_visible` accepts, in order, for an
      icon whose window list is `all`. */
  function Filtered(d: Desktop, hasScreen: bool, allWorkspaces: bool, all: seq<WinId>, ws: seq<WinId>): seq<WinId> {
    if ws == [] then []
    else
      var n := |ws| - 1;
      Filtered(d, hasScreen, allWorkspaces, all, ws[..n])
        + (if WindowIsVisible(d, hasScreen, allWorkspaces, all, ws[n]) then [ws[n]] else [])
  }

  /** A window is kept by the filter exactly when it is in the list and
      visible; a list without repetitions stays without them. */
  lemma {:induction false} FilteredMembers(d: Desktop, hasScreen: bool, allWorkspaces: bool, all: seq<WinId>, ws: seq<WinId>)
    ensures forall y :: y in Filtered(d, hasScreen, allWorkspaces, all, ws) <==>
      y in ws && WindowIsVisible(d, hasScreen, allWorkspaces, all, y)
    ensures Distinct(ws) ==> Distinct(Filtered(d, hasScreen, allWorkspaces, all, ws))
  {
    if ws != [] {
      var n := |ws| - 1;
      assert ws == ws[..n] + [ws[n]];
      FilteredMembers(d, hasScreen, allWorkspaces, all, ws[..n]);
      if Distinct(ws) {
        assert ws[n] !in ws[..n];
      }
    }
  }

  /** The filter reads the window list only through membership, so two
      lists holding the same windows of `ws` give the same result. */
  lemma {:induction false} FilteredSameMembers(d: Desktop, hasScreen: bool, allWorkspaces: bool, all1: seq<WinId>, all2: seq<WinId>, ws: seq<WinId>)
    requires forall y | y in ws :: (y in all1 <==> y in all2)
    ensures Filtered(d, hasScreen, allWorkspaces, all1, ws) == Filtered(d, hasScreen, allWorkspaces, all2, ws)
  {
    if ws != [] {
      var n := |ws| - 1;
      assert forall y | y in ws[..n] :: y in ws;
      FilteredSameMembers(d, hasScreen, allWorkspaces, all1, all2, ws[..n]);
    }
  }

  /** Adding a window and testing only it gives the same visible list as
      recomputing the whole list afterwards: the bookkeeping of
      `add_window` agrees with `update_windows`. */
  lemma AddMatchesRefresh(d: Desktop, hasScreen: bool, allWorkspaces: bool, ws: seq<WinId>, w: WinId)
    ensures var all := ws + [w];
      Filtered(d, hasScreen, allWorkspaces, all, all) ==
        Filtered(d, hasScreen, allWorkspaces, ws, ws)
        + (if WindowIsVisible(d, hasScreen, allWorkspaces, all, w) then [w] else [])
  {
    var all := ws + [w];
    assert all[..|ws|] == ws;
    FilteredSameMembers(d, hasScreen, allWorkspaces, all, ws, ws);
  }

  /** All of a non-empty list of windows are minimized. */
  predicate AllMinimized(d: Desktop, ws: seq<WinId>) {
    |ws| > 0 && forall w | w in ws :: d.window(w).minimized
  }

  /** `has_active_window`: there is a screen and its active window is one
      of the icon's windows (visible or not). */
  predicate HasActiveWindow(d: Desktop, hasScreen: bool, windows: seq<WinId>) {
    hasScreen && d.activeWindow.Some? && d.activeWindow.value in windows
  }

  /** What a click did: nothing (`click` returned False), or the desktop
      it left. */
  datatype ClickOutcome = NoAction | Acted(desktop: Desktop)

  /** Whether a click minimizes the single visible window rather than
      activating it. */
  predicate ClickMinimizes(d: Desktop, hasScreen: bool, windows: seq<WinId>, w: WinId) {
    HasActiveWindow(d, hasScreen, windows) && !d.window(w).minimized
  }

  /** `click` as written: with exactly one visible window it is minimized
      when the icon has the active window and the window is not minimized;
      otherwise its workspace is activated, then the window. A window with
      no workspace (a pinned one) makes `get_workspace()` return None, and
      calling `activate` on None raises. */
  function ClickAsWritten(d: Desktop, hasScreen: bool, windows: seq<WinId>, visible: seq<WinId>): (r: Result<ClickOutcome>)
    ensures r.Failure? <==>
      |visible| == 1 && !ClickMinimizes(d, hasScreen, windows, visible[0])
      && d.window(visible[0]).workspace.None?
    ensures r.Failure? ==> r.error == AttributeError
  {
    if |visible| != 1 then Success(NoAction)
    else
      var w := visible[0];
      if ClickMinimizes(d, hasScreen, windows, w) then Success(Acted(Minimized(d, w)))
      else if d.window(w).workspace.None? then Failure(AttributeError)
      else Success(Acted(Activated(d.(activeWorkspace := d.window(w).workspace), w)))
  }

  /** `click` as evidently intended: a window without a workspace is
      activated where it is. */
  function Click(d: Desktop, hasScreen: bool, windows: seq<WinId>, visible: seq<WinId>): (r: ClickOutcome)
    ensures r.NoAction? <==> |visible| != 1
  {
    if |visible| != 1 then NoAction
    else
      var w := visible[0];
      if ClickMinimizes(d, hasScreen, windows, w) then Acted(Minimized(d, w))
      else
        var ws := d.window(w).workspace;
        var shown := if ws.Some? then d.(activeWorkspace := ws) else d;
        Acted(Activated(shown, w))
  }

  /** The intended click never fails, agrees with the written one whenever
      that succeeds, and either minimizes the single visible window or
      leaves it active, not minimized and on the active workspace. */
  lemma ClickIntended(d: Desktop, hasScreen: bool, windows: seq<WinId>, visible: seq<WinId>)
    ensures ClickAsWritten(d, hasScreen, windows, visible).Success? ==>
      ClickAsWritten(d, hasScreen, windows, visible).value == Click(d, hasScreen, windows, visible)
    ensures |visible| == 1 ==>
      var w := visible[0];
      var r := Click(d, hasScreen, windows, visible).desktop;
      if ClickMinimizes(d, hasScreen, windows, w) then r.window(w).minimized
      else (IsActive(r, w) && !r.window(w).minimized
        && (r.activeWorkspace == d.activeWorkspace || r.activeWorkspace == d.window(w).workspace))
  {
  }

  /** A single visible window that is pinned (on no workspace) and
      minimized: clicking the icon raises instead of restoring it. */
  lemma PinnedClickFails()
    ensures var d := Desktop((x: WinId) => WindowState("xterm", "XTerm", true, false, false, false, true, false, None), None, Some(0));
      && WindowIsVisible(d, true, false, [7], 7)
      && ClickAsWritten(d, true, [7], [7]) == Failure(AttributeError)
      && Click(d, true, [7], [7]).Acted?
  {
  }

  /** The icon's "has the active window" looks at all its windows, so when
      the active window is one of them but hidden, clicking minimizes the
      single visible window although that window is not the active one. */
  lemma ClickMinimizesInactive(d: Desktop, windows: seq<WinId>, v: WinId)
    requires d.activeWindow.Some? && d.activeWindow.value in windows && d.activeWindow.value != v
    requires !d.window(v).minimized
    ensures !IsActive(d, v)
    ensures Click(d, true, windows, [v]) == Acted(Minimized(d, v))
  {
  }

  class WinIcon {
    /** `__windows`, in order. */
    var windows: seq<WinId>
    /** `__visible_windows`, in order. */
    var visible: seq<WinId>
    /** `__window_handlers`: the handlers connected on each window. */
    var handlers: map<WinId, seq<WindowSignal>>
    /** The last value handed to `set_blinking`. */
    var blinking: bool
    /** The icon updates run and the handlers disconnected, in order. */
    var events: seq<IconEvent>

    /** The window lists have no repetitions, the visible windows are among
        the windows, and exactly the windows have their handlers connected. */
    predicate Valid()
      reads this
    {
      && Distinct(windows) && Distinct(visible)
      && (forall w | w in visible :: w in windows)
      && (forall w | w in handlers :: w in windows)
      && (forall w | w in windows :: w in handlers)
      && (forall w | w in handlers :: handlers[w] == WindowHandlers)
    }

    constructor ()
      ensures Valid()
      ensures windows == [] && visible == [] && handlers == map[] && events == [] && !blinking
    {
      windows := [];
      visible := [];
      handlers := map[];
      blinking := false;
      events := [];
    }

    /** `is_minimized`: some window is visible and every visible window is
        minimized. */
    method IsMinimized(d: Desktop) returns (b: bool)
      ensures b <==> AllMinimized(d, visible)
    {
      if |visible| == 0 {
        return false;
      }
      for i := 0 to |visible|
        invariant forall j | 0 <= j < i :: d.window(visible[j]).minimized
      {
        if !d.window(visible[i]).minimized {
          assert visible[i] in visible;
          return false;
        }
      }
      return true;
    }

    /** `update_windows`: the visible list is rebuilt from the windows in
        order, then the icon is updated. */
    method UpdateWindows(d: Desktop, hasScreen: bool, allWorkspaces: bool)
      requires Valid()
      modifies this
      ensures Valid()
      ensures visible == Filtered(d, hasScreen, allWorkspaces, windows, windows)
      ensures forall w :: w in visible <==> w in windows && WindowIsVisible(d, hasScreen, allWorkspaces, windows, w)
      ensures windows == old(windows) && handlers == old(handlers) && blinking == old(blinking)
      ensures events == old(events) + RefreshUpdates
    {
      var v := [];
      for i := 0 to |windows|
        invariant v == Filtered(d, hasScreen, allWorkspaces, windows, windows[..i])
      {
        assert windows[..i+1][..i] == windows[..i];
        if WindowIsVisible(d, hasScreen, allWorkspaces, windows, windows[i]) {
          v := v + [windows[i]];
        }
      }
      assert windows[..|windows|] == windows;
      FilteredMembers(d, hasScreen, allWorkspaces, windows, windows);
      visible := v;
      events := events + RefreshUpdates;
    }

    /** `update_blinking`: the icon blinks exactly when some window, visible
        or not, needs attention. */
    method UpdateBlinking(d: Desktop)
      modifies this
      ensures blinking <==> exists w | w in windows :: d.window(w).needsAttention
      ensures windows == old(windows) && visible == old(visible)
      ensures handlers == old(handlers) && events == old(events)
    {
      for i := 0 to |windows|
        invariant forall j | 0 <= j < i :: !d.window(windows[j]).needsAttention
      {
        if d.window(windows[i]).needsAttention {
          blinking := true;
          return;
        }
      }
      blinking := false;
    }

    /** `activate_next_window`: without a screen or a visible window nothing
        happens; otherwise the window after the first active one is
        activated, or the first when the active one is last or not
        visible. Returns the window activated. */
    method ActivateNext(d: Desktop, hasScreen: bool) returns (r: Option<WinId>)
      ensures r.None? <==> !hasScreen || |visible| == 0
      ensures r.Some? ==> r.value == visible[NextIndex(visible, d.activeWindow)]
    {
      if !hasScreen || |visible| == 0 {
        return None;
      }
      var found := false;
      for i := 0 to |visible|
        invariant !found <==> d.activeWindow.None? || d.activeWindow.value !in visible[..i]
        invariant found ==> i > 0 && IndexOf(visible, d.activeWindow.value) == i - 1
      {
        if found {
          return Some(visible[i]);
        }
        if d.activeWindow == Some(visible[i]) {
          found := true;
          assert visible[..i+1] == visible[..i] + [visible[i]];
        }
      }
      return Some(visible[0]);
    }

    /** `activate_previous_window`: without a screen or a visible window
        nothing happens; otherwise the window before the first active one
        is activated, or the last when the active one is first or not
        visible. Returns the window activated. */
    method ActivatePrevious(d: Desktop, hasScreen: bool) returns (r: Option<WinId>)
      ensures r.None? <==> !hasScreen || |visible| == 0
      ensures r.Some? ==> r.value == visible[PreviousIndex(visible, d.activeWindow)]
    {
      if !hasScreen || |visible| == 0 {
        return None;
      }
      var previous := visible[|visible| - 1];
      var i := 0;
      while i < |visible|
        invariant 0 <= i <= |visible|
        invariant d.activeWindow.None? || d.activeWindow.value !in visible[..i]
        invariant previous == if i == 0 then visible[|visible| - 1] else visible[i-1]
      {
        if d.activeWindow == Some(visible[i]) {
          break;
        }
        assert visible[..i+1] == visible[..i] + [visible[i]];
        previous := visible[i];
        i := i + 1;
      }
      if i < |visible| {
        assert IndexOf(visible, visible[i]) == i;
      } else {
        assert visible[..i] == visible;
      }
      return Some(previous);
    }

    /** `add_window(window)`, where `accepted` is what `should_have_window`
        answers: a window already listed or not accepted is ignored;
        otherwise its handlers are connected, it is appended, it joins the
        visible windows if it is visible now that it is listed, the icon is
        updated and the blinking is recomputed. */
    method AddWindow(d: Desktop, hasScreen: bool, allWorkspaces: bool, w: WinId, accepted: bool)
      requires Valid()
      modifies this
      ensures Valid()
      ensures (w in old(windows) || !accepted) ==>
        && windows == old(windows) && visible == old(visible) && handlers == old(handlers)
        && events == old(events) && blinking == old(blinking)
      ensures w !in old(windows) && accepted ==>
        && windows == old(windows) + [w]
        && handlers == old(handlers)[w := WindowHandlers]
        && visible == old(visible) + (if WindowIsVisible(d, hasScreen, allWorkspaces, windows, w) then [w] else [])
        && events == old(events) + ListUpdates
        && (blinking <==> exists x | x in windows :: d.window(x).needsAttention)
      ensures w in visible <==> w in old(visible) || (w !in old(windows) && accepted && WindowIsVisible(d, hasScreen, allWorkspaces, windows, w))
    {
      if w in windows || !accepted {
        return;
      }
      handlers := handlers[w := WindowHandlers];
      windows := windows + [w];
      if WindowIsVisible(d, hasScreen, allWorkspaces, windows, w) {
        visible := visible + [w];
      }
      events := events + ListUpdates;
      UpdateBlinking(d);
    }

    /** `remove_window(window)`: an unlisted window is ignored; otherwise
        its handlers are disconnected and forgotten, and it leaves the
        windows and, if it was there, the visible windows; then the icon is
        updated. */
    method RemoveWindow(w: WinId)
      requires Valid()
      modifies this
      ensures Valid()
      ensures w !in old(windows) ==>
        && windows == old(windows) && visible == old(visible) && handlers == old(handlers)
        && events == old(events)
      ensures w in old(windows) ==>
        && windows == RemoveFirst(old(windows), w)
        && visible == (if w in old(visible) then RemoveFirst(old(visible), w) else old(visible))
        && handlers == old(handlers) - {w}
        && events == old(events) + Disconnects(w, WindowHandlers) + ListUpdates
      ensures w !in windows && w !in visible && w !in handlers
      ensures forall x | x != w :: (x in windows <==> x in old(windows)) && (x in visible <==> x in old(visible))
      ensures blinking == old(blinking)
    {
      if w !in windows {
        return;
      }
      var hs := handlers[w];
      var log := [];
      for i := 0 to |hs|
        invariant log == Disconnects(w, hs[..i])
      {
        log := log + [Disconnected(w, hs[i])];
      }
      assert hs[..|hs|] == hs;
      handlers := handlers - {w};
      RemoveDistinct(windows, w);
      windows := RemoveFirst(windows, w);
      if w in visible {
        RemoveDistinct(visible, w);
        visible := RemoveFirst(visible, w);
      }
      events := events + log + ListUpdates;
    }

    /** `__update_window_visibility(window)`, run from the handlers of a
        listed window: the window is appended to the visible windows when it
        became visible, and removed when it stopped being visible. */
    method UpdateWindowVisibility(d: Desktop, hasScreen: bool, allWorkspaces: bool, w: WinId)
      requires Valid() && w in windows
      modifies this
      ensures Valid()
      ensures windows == old(windows) && handlers == old(handlers)
      ensures events == old(events) && blinking == old(blinking)
      ensures visible == (
        if WindowIsVisible(d, hasScreen, allWorkspaces, windows, w) then
          (if w in old(visible) then old(visible) else old(visible) + [w])
        else
          (if w in old(visible) then RemoveFirst(old(visible), w) else old(visible)))
      ensures w in visible <==> WindowIsVisible(d, hasScreen, allWorkspaces, windows, w)
      ensures forall x | x != w :: x in visible <==> x in old(visible)
    {
      if WindowIsVisible(d, hasScreen, allWorkspaces, windows, w) {
        if w !in visible {
          visible := visible + [w];
        }
      } else {
        if w in visible {
          RemoveDistinct(visible, w);
          visible := RemoveFirst(visible, w);
        }
      }
    }

    /** The `state_changed` handler: the window's visibility is updated,
        then the icon; the blinking is recomputed when the attention flags
        changed. */
    method WindowStateChanged(d: Desktop, hasScreen: bool, allWorkspaces: bool, w: WinId, attentionChanged: bool)
      requires Valid() && w in handlers
      modifies this
      ensures Valid()
      ensures windows == old(windows) && handlers == old(handlers)
      ensures w in visible <==> WindowIsVisible(d, hasScreen, allWorkspaces, windows, w)
      ensures forall x | x != w :: x in visible <==> x in old(visible)
      ensures events == old(events) +
        [Updated(TooltipUpdate), Updated(ZoomFactorUpdate), Updated(VisibilityUpdate), Updated(HasArrowUpdate)]
      ensures attentionChanged ==> (blinking <==> exists x | x in windows :: d.window(x).needsAttention)
      ensures !attentionChanged ==> blinking == old(blinking)
    {
      UpdateWindowVisibility(d, hasScreen, allWorkspaces, w);
      events := events +
        [Updated(TooltipUpdate), Updated(ZoomFactorUpdate), Updated(VisibilityUpdate), Updated(HasArrowUpdate)];
      if attentionChanged {
        UpdateBlinking(d);
      }
    }

    /** The `name_changed` handler. */
    method WindowNameChanged(d: Desktop, hasScreen: bool, allWorkspaces: bool, w: WinId)
      requires Valid() && w in handlers
      modifies this
      ensures Valid()
      ensures windows == old(windows) && handlers == old(handlers) && blinking == old(blinking)
      ensures w in visible <==> WindowIsVisible(d, hasScreen, allWorkspaces, windows, w)
      ensures forall x | x != w :: x in visible <==> x in old(visible)
      ensures events == old(events) + [Updated(TooltipUpdate)]
    {
      UpdateWindowVisibility(d, hasScreen, allWorkspaces, w);
      events := events + [Updated(TooltipUpdate)];
    }

    /** The `workspace_changed` handler. */
    method WindowWorkspaceChanged(d: Desktop, hasScreen: bool, allWorkspaces: bool, w: WinId)
      requires Valid() && w in handlers
      modifies this
      ensures Valid()
      ensures windows == old(windows) && handlers == old(handlers) && blinking == old(blinking)
      ensures w in visible <==> WindowIsVisible(d, hasScreen, allWorkspaces, windows, w)
      ensures forall x | x != w :: x in visible <==> x in old(visible)
      ensures events == old(events) + [Updated(TooltipUpdate), Updated(HasArrowUpdate), Updated(VisibilityUpdate)]
    {
      UpdateWindowVisibility(d, hasScreen, allWorkspaces, w);
      events := events + [Updated(TooltipUpdate), Updated(HasArrowUpdate), Updated(VisibilityUpdate)];
    }

    /** `make_visibility`: shown when it has a visible window, or when it is
        not to hide without one (`should_hide_if_no_visible_windows`). */
    predicate MakeVisibility(hideIfNone: bool)
      reads this
    {
      !hideIfNone || |visible| > 0
    }

    /** `make_has_arrow` */
    predicate MakeHasArrow(arrow: bool)
      reads this
    {
      arrow && |visible| > 1
    }

    /** `make_zoom_factor`, given the factor `Icon.make_zoom_factor` gives:
        1.5 with the active window, otherwise that factor, times 0.66 when
        every visible window is minimized. */
    method MakeZoomFactor(d: Desktop, hasScreen: bool, base: real) returns (z: real)
      ensures HasActiveWindow(d, hasScreen, windows) ==> z == 1.5
      ensures !HasActiveWindow(d, hasScreen, windows) ==> z == if AllMinimized(d, visible) then base * 0.66 else base
    {
      if HasActiveWindow(d, hasScreen, windows) {
        return 1.5;
      }
      z := base;
      var m := IsMinimized(d);
      if m {
        z := z * 0.66;
      }
    }
  }
}
