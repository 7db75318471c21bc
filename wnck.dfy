/** The window-manager state the window modules read through libwnck: what
    each window answers when asked, which window is active and which
    workspace is shown. Windows are compared by identity, so a window is
    represented by its id and its answers are looked up on the desktop.
    Both window groupings (traylib/winitem.py and traylib/winicon.py) pick
    the next and the previous window by the same rule, stated here once. */
module Wnck {
  import opened Base

  type WinId = nat

  /** What a window answers: its title, the name of its class group, its
      state flags and its workspace (`None` when it has none). */
  datatype WindowState = WindowState(
    name: string, className: string,
    minimized: bool, shaded: bool, needsAttention: bool, skipTasklist: bool,
    pinned: bool, sticky: bool, workspace: Option<nat>)

  /** The screen: every window's answers, the active window and the active
      workspace. */
  datatype Desktop = Desktop(
    window: WinId -> WindowState, activeWindow: Option<WinId>, activeWorkspace: Option<nat>)

  /** `window.is_active()`: the window is the screen's active window. */
  predicate IsActive(d: Desktop, w: WinId) {
    d.activeWindow == Some(w)
  }

  /** `window.minimize()`. */
  function Minimized(d: Desktop, w: WinId): (r: Desktop)
    ensures r.window(w).minimized && r.activeWindow == d.activeWindow
    ensures forall x | x != w :: r.window(x) == d.window(x)
  {
    d.(window := (x: WinId) => if x == w then d.window(w).(minimized := true) else d.window(x))
  }

  /** `window.unminimize()` followed by `window.activate()`; the workspace
      switch that precedes them in the callers is modelled there. */
  function Activated(d: Desktop, w: WinId): (r: Desktop)
    ensures !r.window(w).minimized && IsActive(r, w)
    ensures forall x | x != w :: r.window(x) == d.window(x) && !IsActive(r, x)
  {
    d.(window := (x: WinId) => if x == w then d.window(w).(minimized := false) else d.window(x),
       activeWindow := Some(w))
  }

  /** The window picked by "activate next window" in a non-empty list: the
      one after the first occurrence of the active window, wrapping round
      to the first when the active window is last or not listed. */
  function NextIndex(ws: seq<WinId>, active: Option<WinId>): (k: nat)
    requires |ws| > 0
    ensures k < |ws|
  {
    if active.Some? && active.value in ws && IndexOf(ws, active.value) + 1 < |ws|
    then IndexOf(ws, active.value) + 1
    else 0
  }

  /** The window picked by "activate previous window" in a non-empty list:
      the one before the first occurrence of the active window, wrapping
      round to the last when the active window is first; the last one too
      when the active window is not listed. */
  function PreviousIndex(ws: seq<WinId>, active: Option<WinId>): (k: nat)
    requires |ws| > 0
    ensures k < |ws|
  {
    if active.Some? && active.value in ws && IndexOf(ws, active.value) > 0
    then IndexOf(ws, active.value) - 1
    else |ws| - 1
  }

  /** In a list without repetitions, activating the next window and then
      the previous one comes back to the window that was active. */
  lemma PreviousUndoesNext(ws: seq<WinId>, i: nat)
    requires Distinct(ws) && i < |ws|
    ensures PreviousIndex(ws, Some(ws[NextIndex(ws, Some(ws[i]))])) == i
  {
    DistinctIndex(ws, i);
    var j := NextIndex(ws, Some(ws[i]));
    DistinctIndex(ws, j);
  }

  /** In a list without repetitions, activating the previous window and then
      the next one comes back to the window that was active. */
  lemma NextUndoesPrevious(ws: seq<WinId>, i: nat)
    requires Distinct(ws) && i < |ws|
    ensures NextIndex(ws, Some(ws[PreviousIndex(ws, Some(ws[i]))])) == i
  {
    DistinctIndex(ws, i);
    var j := PreviousIndex(ws, Some(ws[i]));
    DistinctIndex(ws, j);
  }

  /** In a list without repetitions, "next" from the window at `i` is the one
      at `i + 1` and "previous" the one at `i - 1`, both wrapping round. */
  lemma SelectionWraps(ws: seq<WinId>, i: nat)
    requires Distinct(ws) && i < |ws|
    ensures NextIndex(ws, Some(ws[i])) == (i + 1) % |ws|
    ensures PreviousIndex(ws, Some(ws[i])) == (i + |ws| - 1) % |ws|
  {
    var n := |ws|;
    DistinctIndex(ws, i);
    if i + 1 == n {
      ModSelf(n);
    } else {
      ModSmall(i + 1, n);
    }
    if i == 0 {
      ModSmall(n - 1, n);
    } else {
      ModWrap(i - 1, n);
    }
  }

  lemma ModSmall(x: int, n: int)
    requires 0 <= x < n
    ensures x % n == x
  {
  }

  lemma ModSelf(n: int)
    requires n > 0
    ensures n % n == 0
  {
  }

  lemma ModWrap(x: int, n: int)
    requires 0 <= x < n
    ensures (x + n) % n == x
  {
  }

  /** Without an active window among them, "next" starts from the first
      window and "previous" from the last. */
  lemma SelectionWithoutActive(ws: seq<WinId>, active: Option<WinId>)
    requires |ws| > 0 && (active.None? || active.value !in ws)
    ensures NextIndex(ws, active) == 0 && PreviousIndex(ws, active) == |ws| - 1
  {
  }

  /** In a list without repetitions, the first occurrence of an element is
      where it is. */
  lemma DistinctIndex<T>(s: seq<T>, i: nat)
    requires Distinct(s) && i < |s|
    ensures IndexOf(s, s[i]) == i
  {
  }
}
