# TrayLib core, modelled in Dafny

TrayLib is a ROX/GTK panel-tray library. Most of it wires widgets
together. This project models the logic underneath that wiring, one
Dafny module per source file:

- **Configuration.** The attribute store of `Config`: key to value and
  update-method name, plus an ordered list of registered configurable
  objects. It also covers the lazily declared `Attribute` descriptor and
  the icon, tray, window-icon and window-item configurations built on it.
- **Icon animation.** The size and alpha animation of an `Icon`: the step
  function `__refresh`, the staged hide and destroy, the synchronous loop
  run when effects are off, the refresh gating, canvas sizing, and where
  the arrow and the base picture are anchored.
- **Picture scaling.** The aspect-preserving scaling rule of
  `scale_pixbuf_to_size`, stated on dimensions.
- **Items and containers.** The `Item` base class; the ordered containers
  `ItemBox` and `Tray`, including their `destroy` loops over lists that a
  signal handler shrinks mid-loop.
- **Window grouping.** `WindowItem`/`WindowsItem` and the older `WinIcon`:
  visibility, greying and zoom predicates; name decoration; the filer
  title trimmer; duplicate-free window lists; next/previous selection with
  wrap-around.
- **Handler registries.** One handler instance per class name, the
  pre-order handler search, the item-state registry, the
  item-to-handler-set bookkeeping with its watchers, and the
  priority-ordered handler list of an `ItemIcon`.
- **Tray container.** The icon-size clamp of `TrayContainer` and its
  window and applet variants.

How the model represents the system:

- **Pictures** are their dimensions.
- **Windows** are ids looked up on a snapshot of the desktop (`Wnck.Desktop`).
- **Signals, notifications and calls** into handlers, states and watchers
  are entries appended to an event log.
- **Collaborators' answers** are parameters: what a handler answers about
  an item's state, what the icon theme finds, what a window reports.
- **State changed in place** is a Dafny `class`. Its methods state the new
  state in terms of the pure functions that the lemmas are about.
- **Integer and real arithmetic:** Python 2 integer `/` is floor division
  (Dafny's `/` on the non-negative operands used). `int()` on a float is
  truncation toward zero (`Base.Trunc`).

## Model

| member | source | states |
|---|---|---|
| ConfigStore.Fanout | traylib/config.py:98-101 | the notification loop makes at most one call per registration |
| ConfigStore.FanoutNames | traylib/config.py:98-101 | every call of a write's fan-out is of the attribute's update method |
| ConfigStore.FanoutAppend | traylib/config.py:98-101 | registration order is notification order: the calls for a + b are those for a, then those for b |
| ConfigStore.FanoutCount | traylib/config.py:111-117 | an object registered k times is called k times if it has the method and never otherwise (no deduplication) |
| ConfigStore.FanoutTargets | traylib/config.py:98-101 | every call goes to a registered object that has the method |
| ConfigStore.NoUpdateNameNoCalls | traylib/config.py:98 | an attribute declared without an update function notifies nobody |
| ConfigStore.Written | traylib/config.py:84-101 | a write keeps the keys; an equal value (Python `==`, so 1 == True) changes nothing; a differing one replaces the value, keeps the update name, and leaves every other key alone |
| ConfigStore.ReadAfterWrite | traylib/config.py:103-109 | reading back after a write gives a value equal to the one written, with the update name unchanged |
| ConfigStore.Declared | traylib/config.py:13-21 | a descriptor's lazy declaration adds its key with its default and update name when absent and changes nothing when present |
| ConfigStore.DefaultUpdateName | traylib/config.py:9-12 | a descriptor without an update function declares `update_option_<name>` |
| ConfigStore.Config.constructor | traylib/config.py:55-62 | a new store has no attributes and no registered objects |
| ConfigStore.Config.AddAttribute | traylib/config.py:72-82 | the key is (re)declared with its value and update name; the objects are unchanged |
| ConfigStore.Config.SetAttribute | traylib/config.py:84-101 | requires a declared key (the source asserts it); the store becomes `Written`; no calls on an equal value, else the update method's fan-out |
| ConfigStore.Config.AddConfigurable | traylib/config.py:111-117 | the object is appended, duplicates included |
| ConfigStore.Config.RemoveConfigurable | traylib/config.py:119-125 | the first occurrence of a registered object is removed; ValueError, with nothing changed, for an object not registered |
| ConfigStore.Config.EnsureAttribute | traylib/config.py:13-21 | `_ensure_attribute` leaves the store `Declared` |
| ConfigStore.Config.GetDescribed | traylib/config.py:23-27 | a descriptor read declares lazily and returns the stored value, the default on first access |
| ConfigStore.Config.Assign | traylib/config.py:55-62 | a constructor keyword argument is written through its descriptor when given |
| ConfigStore.Config.SetDescribed | traylib/config.py:29-31 | a descriptor write declares lazily, then writes with the fan-out of `set_attribute` |
| IconConfigs.ArrowFor | traylib/icon_config.py:31-40 | right arrow for LEFT, left for RIGHT, down for TOP, up otherwise; the arrow points sideways exactly for a vertical edge |
| IconConfigs.RunDeclarationsFails | traylib/config.py:72 | a run of `add_attribute` calls succeeds exactly when every call has two or three arguments; otherwise it raises TypeError |
| IconConfigs.InitAsWrittenAlwaysRaises | traylib/icon_config.py:19-29 | as written, construction raises AssertionError on bad arguments and TypeError on good ones |
| IconConfigs.InitialAttributes | traylib/icon_config.py:25-29 | the intended constructor declares exactly size, edge, effects, hidden and pos_func, with their update names (none for pos_func) |
| IconConfigs.IconConfig.constructor | traylib/icon_config.py:10-29 | requires size > 0 and a valid edge; the store holds `InitialAttributes` and no objects; the arrow is `ArrowFor` the initial edge |
| IconConfigs.IconConfig.UpdateArrow | traylib/icon_config.py:31-40 | the arrow becomes `ArrowFor` the current edge |
| IconConfigs.IconConfig.SetEdge | traylib/icon_config.py:45-51 | the edge setter writes through `set_attribute`; an equal edge calls nothing and keeps the arrow; a new one fans out `update_option_edge` and re-picks the arrow |
| IconConfigs.IconConfig.SetOption | traylib/icon_config.py:52-74 | the size, effects, hidden and pos_func setters write through `set_attribute`; equal writes call nothing; pos_func never notifies |
| TrayConfigs.InitialAttributes | traylib/tray_config.py:7-19 | exactly name, menus and separators, with the given values and `update_option_<key>` |
| TrayConfigs.WrittenDeclares | traylib/tray_config.py:21-26 | a write keeps the three keys and their update names |
| TrayConfigs.TrayConfig.constructor | traylib/tray_config.py:7-19 | the store holds `InitialAttributes` and no objects |
| TrayConfigs.TrayConfig.Set | traylib/tray_config.py:21-26 | an equal write changes nothing; a differing one stores the value and fans out its update method; the other two keys keep their values |
| WinIconConfigs.InitialAttributes | traylib/winicon_config.py:7-22 | exactly all_workspaces and arrow, with the given values and `update_option_<key>` |
| WinIconConfigs.WrittenDeclares | traylib/winicon_config.py:25-36 | a write keeps the two keys and their update names |
| WinIconConfigs.WinIconConfig.constructor | traylib/winicon_config.py:7-22 | the store holds `InitialAttributes` and no objects |
| WinIconConfigs.WinIconConfig.Set | traylib/winicon_config.py:25-36 | an equal write changes nothing; a differing one stores the value and fans out its update method; the other key keeps its value |
| WinItemConfigs.ReadThrough | traylib/winitem_config.py:4-17 | a descriptor reads the stored value, or its default before the key exists |
| WinItemConfigs.FreshDefaults | traylib/winitem_config.py:5-17 | before any write all_workspaces reads False and arrow and menu_has_kill read True; first access declares `update_option_<name>` |
| WinItemConfigs.AssignedKeys | traylib/winitem_config.py:4-17 | writing a keyword argument declares only descriptor keys with their update names |
| WinItemConfigs.AssignedReads | traylib/winitem_config.py:11 | a keyword argument given to the constructor reads back as given (arrow=False reads False); other descriptors read as before |
| WinItemConfigs.InitialReads | traylib/winitem_config.py:4-17 | after construction every descriptor reads its keyword argument if given, else its default |
| WinItemConfigs.WinItemConfig.constructor | traylib/winitem_config.py:4-17 | the store holds the keyword arguments written through the descriptors |
| WinItemConfigs.WinItemConfig.Get | traylib/config.py:23-27 | a read declares lazily and returns `ReadThrough` of the store before it |
| WinItemConfigs.WinItemConfig.Set | traylib/config.py:29-31 | a write declares lazily and then stores the value |
| PixbufHelper.ScaleToSize | traylib/pixbuf_helper.py:4-26 | a picture that needs no rescale is returned unchanged; the rescaled sides are stated by the two lemmas below |
| PixbufHelper.NoScaleUpKeepsSmall | traylib/pixbuf_helper.py:18-23 | without scale_up, a picture whose larger side is at most size is returned unchanged |
| PixbufHelper.ExactSizeUnchanged | traylib/pixbuf_helper.py:18-23 | a picture whose larger side equals size is never rescaled |
| PixbufHelper.RescaledBounds | traylib/pixbuf_helper.py:16-25 | a rescaled picture has its larger side equal to size and its other side between 1 and size |
| PixbufHelper.ProportionalSide | traylib/pixbuf_helper.py:17-24 | the minor side `int(size*minor/major)`, over exact reals, lies between 0 and the size, is below the size for a shorter minor side, and is the floor of the exact quotient |
| PixbufHelper.ScaleIdempotent | traylib/pixbuf_helper.py:4-26 | the result has positive sides, and scaling it again to the same size changes nothing |
| IconAnimation.Initial | traylib/icon.py:32-108 | the constructed icon satisfies the drawing invariant, runs no action, has no pending tick and no picture |
| IconAnimation.TargetSize | traylib/icon.py:364-369 | `int(size*zoom)` when it lies in [1, max_size - 2]; 1 when it is below 1; max_size - 2 when it is above and that is positive |
| IconAnimation.TargetSizeAtUnitZoom | traylib/icon.py:364-369 | at zoom 1 the target is the size itself unless the cap holds it down |
| IconAnimation.CanvasDims | traylib/icon.py:300-318 | the max_size square with no action or a visible emblem; otherwise one side is max_size and neither exceeds it |
| IconAnimation.CanvasNarrowsAcrossEdge | traylib/icon.py:300-318 | during an action without emblem, the side across the panel edge is at most `int(current_size*1.5)` |
| IconAnimation.ArrowAnchorPlacement | traylib/icon.py:424-438 | horizontal edges: arrow centred horizontally (margins within one pixel), at the bottom for TOP, the top otherwise; vertical edges: centred vertically, at the right for LEFT, the left for RIGHT |
| IconAnimation.BaseCentred | traylib/icon.py:405-412 | the base picture's two margins differ by at most one pixel |
| IconAnimation.Scale | traylib/pixbuf_helper.py:4-26 | an unrescaled picture keeps its identity; a rescaled one is a new picture |
| IconAnimation.Toward | traylib/icon.py:480-507 | a value moves toward its target by at most the step and never past it |
| IconAnimation.AdvanceMovesTowardTargets | traylib/icon.py:480-508 | a moving step brings the size exactly one closer and each alpha at most five closer, clamped at target; targets and action stay |
| IconAnimation.AdvanceClosingStages | traylib/icon.py:445-478 | while hiding or destroying, overlay targets only drop to 0; the size target only becomes 1, once both overlays are transparent; the action ends only at size 1 with everything at target |
| IconAnimation.AdvanceFinal | traylib/icon.py:473-478 | a step that wants no successor has everything at target and resets the action |
| IconAnimation.AdvanceDecreases | traylib/icon.py:445-508 | each step that asks for another lowers the stage, or the total distance to the targets: the loop terminates |
| IconAnimation.TowardCloses | traylib/icon.py:480-507 | a move never increases the distance to the target and lowers it unless at target |
| IconAnimation.Draw | traylib/icon.py:396-443 | drawing changes only the scaled picture, the canvas and the shown frame; the canvas has `CanvasDims` and is reallocated only when they change |
| IconAnimation.Step | traylib/icon.py:392-508 | `__refresh` (handle cleared without picture): keeps the invariant; without picture it stops; with one it advances the animation and shows a frame; an ended hide hides and an ended destroy destroys |
| IconAnimation.AdvanceValid | traylib/icon.py:445-508 | a step keeps sizes at least 1, alphas non-negative and a scaled emblem present when needed |
| IconAnimation.RunToRest | traylib/icon.py:389-390 | the synchronous loop keeps the invariant, the settings, the pictures, the arrow pixmap, the target alpha and a fitting size request |
| IconAnimation.RunToRestSettles | traylib/icon.py:384-390 | the loop ends at target with no action and no pending tick; a hide has hidden, a destroy destroyed, at size 1 with transparent overlays |
| IconAnimation.Retargeted | traylib/icon.py:363-369 | only the target size changes; outside a hide or destroy it becomes `TargetSize` of the size, zoom and maximum size |
| IconAnimation.Jumped | traylib/icon.py:383-388 | every value is at its target; targets, action, settings and widget stay; the scaled base picture is dropped |
| IconAnimation.Refresh | traylib/icon.py:349-390 | `_refresh` keeps the invariant, the settings, the pictures, the arrow pixmap, the target alpha and a fitting size request |
| IconAnimation.StepOpen | traylib/icon.py:445-478 | a step under no action or the show action never starts a hide or destroy and keeps the overlays' targets |
| IconAnimation.RunToRestOpen | traylib/icon.py:389-390 | the synchronous loop under no action or the show action neither hides nor destroys the icon and keeps the overlays' targets |
| IconAnimation.RefreshOpen | traylib/icon.py:349-390 | a refresh under no action or the show action neither hides nor destroys the icon nor starts closing, and keeps the overlays' targets |
| IconAnimation.ForcedRefreshDraws | traylib/icon.py:349-390 | a forced refresh of a visible icon with a picture and no pending tick draws a frame |
| IconAnimation.RefreshClosing | traylib/icon.py:349-390 | a refresh while hiding or destroying keeps the action, or ends it with the icon hidden or destroyed |
| IconAnimation.RefreshIdle | traylib/icon.py:356-359 | without a picture or while invisible a refresh does nothing |
| IconAnimation.RefreshAtTargetIsNoOp | traylib/icon.py:370-375 | an unforced refresh with everything at target only recomputes the target size |
| IconAnimation.PendingTickBlocksRefresh | traylib/icon.py:377-378 | a pending tick prevents drawing and a second timer |
| IconAnimation.RefreshWithoutEffectsSettles | traylib/icon.py:383-390 | with effects off, a refresh that goes on leaves the icon at rest |
| IconAnimation.RefreshWithEffectsSchedules | traylib/icon.py:380-382 | with effects on, a refresh takes one step and installs a timer exactly when the step wants a successor |
| IconAnimation.ClosingKeepsTargetSize | traylib/icon.py:363 | while hiding or destroying, the target size is not recomputed: it stays or becomes 1 |
| IconAnimation.TimerFired | traylib/icon.py:382 | with a picture the animation advances one step; the timer source is removed and the handle cleared exactly when the step asks for no successor |
| IconAnimation.PendingTickLeaksWithoutPicture | traylib/icon.py:393-394 | as written: a tick that finds no picture keeps the handle, so after a picture is set again no refresh ever draws |
| IconAnimation.PendingTickClearedWithoutPicture | traylib/icon.py:393-394 | corrected: the handle is cleared, and the next refresh with a picture draws again |
| IconAnimation.ArrowRetargeted | traylib/icon.py:292-298 | the arrow target is not raised while closing; otherwise it follows has_arrow |
| IconAnimation.EmblemRetargeted | traylib/icon.py:320-326 | the emblem target is not raised while closing; otherwise it follows the emblem |
| IconAnimation.OverlayTargets | traylib/icon.py:292-326 | while closing neither overlay target can be raised |
| IconAnimation.SetEmblem | traylib/icon.py:147-157 | the emblem setter records the emblem; a new emblem is scaled to a third of max_size, never up; a cleared one keeps the scaled copy; picture, settings and a fitting size request kept |
| IconAnimation.EmblemAssertionOutcome | traylib/icon.py:158-161 | as written, clearing a set emblem raises AssertionError; setting one succeeds |
| IconAnimation.ScaledDown | traylib/icon.py:168-179 | a large picture is scaled down to at most 128 on each side |
| IconAnimation.SetPixbuf | traylib/icon.py:168-179 | a small picture is stored as is, a large one scaled down, None clears it; settings and a fitting size request kept |
| IconAnimation.SetHasArrow | traylib/icon.py:186-190 | the flag is stored; outside hiding and destroying the arrow's target is 255 when wanted and 0 when not |
| IconAnimation.ClampZoom | traylib/icon.py:208-210 | the base factor is clamped to [0, 1.5] and unchanged inside it |
| IconAnimation.SetZoomFactor | traylib/icon.py:206-212 | the clamped factor becomes the base and, if it changed, the zoom |
| IconAnimation.SetEdge | traylib/icon.py:243-254 | the edge and a new arrow pixmap are stored; the forced refresh draws a frame when the icon is visible with a picture and no pending tick |
| IconAnimation.SetEffects | traylib/icon.py:261-263 | the flag is stored; the forced refresh draws a frame when the icon is visible with a picture and no pending tick |
| IconAnimation.SetAlpha | traylib/icon.py:286-290 | the target alpha becomes the value; an unchanged target does nothing |
| IconAnimation.SetSize | traylib/icon.py:270-275 | the size and `max_size = int(size*1.5)` are stored; with no action running the size request fits the new max_size; a small picture is kept; the emblem is kept and rescaled to a third of the new max_size |
| IconAnimation.Show | traylib/icon.py:530-541 | the icon ends visible, destroyed only if it was; the action is show or has ended; an invisible icon without a picture restarts at size 1 with transparent overlays |
| IconAnimation.Hide | traylib/icon.py:522-528 | an invisible icon is left alone; a visible one is hiding or, its hide ended, hidden |
| IconAnimation.Destroy | traylib/icon.py:513-520 | an invisible icon is destroyed at once; a visible one is destroying or, the action ended, destroyed |
| IconAnimation.HideWithoutEffects | traylib/icon.py:522-528 | with effects off, hiding a visible icon with a picture hides it at size 1 in the same call |
| Icons.Icon.constructor | traylib/icon.py:32-108 | the new icon's state is `Initial()` |
| Icons.Icon.UpdateCanvas | traylib/icon.py:300-318 | the canvas gets `CanvasDims` |
| Icons.Icon.UpdateSizeRequest | traylib/icon.py:341-347 | the state becomes `SizeRequested` of the old one |
| Icons.Icon.Tick | traylib/icon.py:392-508 | the fields change as `Step` says, and the result is its flag |
| Icons.Icon.Refresh | traylib/icon.py:349-390 | the fields change as `IconAnimation.Refresh` says |
| Icons.Icon.TimerFired | traylib/icon.py:382 | the fields change as `IconAnimation.TimerFired` says |
| Icons.Icon.UpdateArrowTargetAlpha | traylib/icon.py:292-298 | the fields change as `ArrowRetargeted` says |
| Icons.Icon.UpdateEmblemTargetAlpha | traylib/icon.py:320-326 | the fields change as `EmblemRetargeted` says |
| Icons.Icon.SetEmblem | traylib/icon.py:147-157 | the fields change as `IconAnimation.SetEmblem` says |
| Icons.Icon.SetPixbuf | traylib/icon.py:168-179 | the fields change as `IconAnimation.SetPixbuf` says |
| Icons.Icon.SetHasArrow | traylib/icon.py:186-190 | the fields change as `IconAnimation.SetHasArrow` says |
| Icons.Icon.SetZoomFactor | traylib/icon.py:206-212 | the fields change as `IconAnimation.SetZoomFactor` says |
| Icons.Icon.SetEdge | traylib/icon.py:243-254 | the fields change as `IconAnimation.SetEdge` says |
| Icons.Icon.SetEffects | traylib/icon.py:261-263 | the fields change as `IconAnimation.SetEffects` says |
| Icons.Icon.SetAlpha | traylib/icon.py:286-290 | the fields change as `IconAnimation.SetAlpha` says |
| Icons.Icon.SetSize | traylib/icon.py:270-275 | the fields change as `IconAnimation.SetSize` says |
| Icons.Icon.Show | traylib/icon.py:530-541 | the fields change as `IconAnimation.Show` says |
| Icons.Icon.Hide | traylib/icon.py:522-528 | the fields change as `IconAnimation.Hide` says |
| Icons.Icon.Destroy | traylib/icon.py:513-520 | the fields change as `IconAnimation.Destroy` says |
| Items.DestroyedCountAppend | traylib/item.py:18-23 | appending a signal adds one "destroyed" exactly when it is one |
| Items.Item.constructor | traylib/item.py:8-13 | a new item is not destroyed and has emitted nothing |
| Items.Item.Changed | traylib/item.py:15-16 | one "changed" signal carrying exactly the given property names |
| Items.Item.Destroy | traylib/item.py:18-23 | the first call disconnects the theme handler and emits "destroyed"; later calls do nothing |
| Items.DestroyTwice | traylib/item.py:18-23 | two destroys emit "destroyed" exactly once |
| Items.GetIcon | traylib/item.py:59-72 | the first picture a loader yields, scaled to the size, or None when every loader yields none |
| Items.FindIconPath | traylib/item.py:82-87 | the first path a loader yields, else None |
| Items.FindIconName | traylib/item.py:74-80 | the first loader's icon name that the theme knows, else "" |
| ItemBoxes.Visit | traylib/item_box.py:52-53 | the loop over a shrinking list: the items left and the items destroyed together make up the list |
| ItemBoxes.VisitSkipsEveryOther | traylib/item_box.py:52-53 | with nothing destroyed yet, the loop destroys the items at even positions and leaves the odd ones |
| ItemBoxes.TwoItemsOneSurvives | traylib/item_box.py:52-53 | a box of two items keeps its second item after destroy |
| ItemBoxes.OddsEvensPositions | traylib/item_box.py:52-53 | the even-position items number the ceiling of half the list, the odd ones the floor |
| ItemBoxes.Removals | traylib/item_box.py:25-33 | one item-removed signal per item, in order |
| ItemBoxes.VisitSkip | traylib/item_box.py:52-53 | an item the loop finds already destroyed stays in the list, and the loop moves on |
| ItemBoxes.VisitRemove | traylib/item_box.py:52-53 | destroying the item at the loop position removes exactly it, so the loop goes on one past the item that slid into its place |
| ItemBoxes.Kept | traylib/item_box.py:47-54 | the items already destroyed, in order |
| ItemBoxes.Fresh | traylib/item_box.py:47-54 | the items not yet destroyed, in order |
| ItemBoxes.KeptOnly | traylib/item_box.py:47-54 | only already-destroyed items are kept |
| ItemBoxes.FreshOnly | traylib/item_box.py:47-54 | only items not yet destroyed are destroyed |
| ItemBoxes.NothingDone | traylib/item_box.py:47-54 | with nothing destroyed yet, every item is destroyed and none kept |
| ItemBoxes.KeptFreshPartition | traylib/item_box.py:47-54 | the intended destroy: the already-destroyed items stay, every other item is destroyed, and these two parts make up the list |
| ItemBoxes.ItemBox.constructor | traylib/item_box.py:9-12 | the id is fixed; no items, no signals |
| ItemBoxes.ItemBox.AddItem | traylib/item_box.py:14-23 | the item is appended (no duplicate check) and item-added emitted |
| ItemBoxes.ItemBox.RemoveItem | traylib/item_box.py:25-33 | the first occurrence is removed and item-removed emitted; ValueError, with nothing changed or emitted, for an item not in the box |
| ItemBoxes.ItemBox.ReorderItem | traylib/item_box.py:35-45 | same multiset, the item at the position, the others in their order; item-reordered emitted; ValueError, with nothing changed or emitted, for an item not in the box |
| ItemBoxes.ItemBox.Destroy | traylib/item_box.py:47-54 | as written: the items left and destroyed are those of `Visit`; one item-removed per destroyed item, then destroyed |
| ItemBoxes.ItemBox.DestroyAll | traylib/item_box.py:47-54 | corrected: every item not yet destroyed is destroyed and removed; then destroyed |
| Trays.Disconnects | traylib/tray.py:32-36 | one disconnection per handler of the removed box, in order |
| Trays.BoxRemovals | traylib/tray.py:49-52 | the events of removing each box in turn |
| Trays.AddConsistent | traylib/tray.py:17-24 | adding a box keeps the box list and handler map consistent exactly when the box is new |
| Trays.RemoveConsistent | traylib/tray.py:32-36 | a present box has a handler entry, and removing both keeps them consistent |
| Trays.ReorderConsistent | traylib/tray.py:38-41 | reordering keeps them consistent |
| Trays.InsertConsistent | traylib/tray.py:38-41 | inserting a box without entry, with its entry, keeps them consistent |
| Trays.EmptyConsistent | traylib/tray.py:49-52 | with no boxes left, no handler entry is left |
| Trays.Tray.constructor | traylib/tray.py:9-15 | no boxes, no handlers, no events |
| Trays.Tray.AddBox | traylib/tray.py:17-24 | the box is appended, its handlers recorded, box-added emitted |
| Trays.Tray.BoxItemAdded | traylib/tray.py:26-27 | forwards item-added |
| Trays.Tray.BoxItemRemoved | traylib/tray.py:29-30 | forwards item-removed |
| Trays.Tray.RemoveBox | traylib/tray.py:32-36 | a listed box and its handler entry go, its handlers are disconnected, box-removed emitted; KeyError without an entry, after the box left the list; ValueError, with nothing changed, for a box not listed |
| Trays.Tray.ReorderBox | traylib/tray.py:38-41 | a permutation placing the box at the position, box-reordered emitted; handlers unchanged; ValueError, with nothing changed, for a box not listed |
| Trays.Tray.GetBox | traylib/tray.py:43-47 | the first box with the id, else None |
| Trays.Tray.Destroy | traylib/tray.py:49-52 | as written: the boxes left and destroyed are those of `Visit`; consistency kept |
| Trays.Tray.DestroyAll | traylib/tray.py:49-52 | corrected: every box is destroyed and removed; no box and no handler entry is left |
| Wnck.Minimized | traylib/winitem.py:156-160 | the window is minimized and no other window changes |
| Wnck.Activated | traylib/winitem.py:153-154 | the window is unminimized and active; other windows unchanged and inactive |
| Wnck.NextIndex | traylib/winitem.py:436-454 | the index picked is inside the list |
| Wnck.PreviousIndex | traylib/winitem.py:456-474 | the index picked is inside the list |
| Wnck.SelectionWraps | traylib/winitem.py:436-474 | in a list without repetitions, next from index i is (i + 1) mod n and previous is (i + n - 1) mod n |
| Wnck.PreviousUndoesNext | traylib/winitem.py:436-474 | in a list without repetitions, next then previous comes back to the active window |
| Wnck.NextUndoesPrevious | traylib/winitem.py:436-474 | in a list without repetitions, previous then next comes back to the active window |
| Wnck.SelectionWithoutActive | traylib/winitem.py:436-474 | without a listed active window, next picks the first and previous the last |
| WinItems.FilerWindowPath | traylib/winitem.py:277-282 | a prefix of the title; the title itself without '(' or '+' at index 1 or later; otherwise the title cut one before the rightmost such mark |
| WinItems.Decorated | traylib/winitem.py:103-110 | the decoration adds 4 characters when minimized, 4 when shaded, 6 when needing attention |
| WinItems.Escaped | traylib/winitem.py:111 | doubling underscores never shortens the text |
| WinItems.ShownEscaped | traylib/winitem.py:111 | a menu label of the escaped text shows the original text |
| WinItems.TrimmedWrapped | traylib/winitem.py:103-110 | trimming a wrapper of equal ends gives back the middle |
| WinItems.UndecoratedDecorated | traylib/winitem.py:103-110 | the base name can be read back from the decorated one |
| WinItems.ItemName | traylib/winitem.py:103-111 | the label `get_name` gives shows the base name inside its state decoration |
| WinItems.VisibilityAndGreying | traylib/winitem.py:119-177 | a window needing attention is visible, blinking and not greyed; a greyed visible item needs all workspaces and a listed window |
| WinItems.ItemZoomLevels | traylib/winitem.py:134-139 | zoom above 1 exactly when active, below 1 exactly when minimized and not active |
| WinItems.ItemActivated | traylib/winitem.py:150-154 | the window's workspace becomes active and the window active and unminimized, other windows unchanged; AttributeError exactly for a window on no workspace |
| WinItems.ClickToggles | traylib/winitem.py:141-154 | clicking an active window on a workspace minimizes it and clicking again restores it active on its workspace; a forced click leaves it active and unminimized, and raises AttributeError exactly for a window on no workspace |
| WinItems.CreateWindowItemIntended | traylib/winitem.py:285-292 | the intended factory keeps the caller's kill option and makes a directory item exactly of a ROX-Filer window titled with a path |
| WinItems.TildeTitleBecomesDirectory | traylib/winitem.py:287-289 | as written, any window titled "~..." becomes a directory item |
| WinItems.KillOptionIgnored | traylib/winitem.py:292 | as written, a plain item offers kill although the caller asked for none |
| WinItems.Disconnects | traylib/winitem.py:398-401 | one disconnection per handler, in order |
| WinItems.WindowsOf | traylib/winitem.py:557-562 | the windows of the items, in order |
| WinItems.WithoutMembers | traylib/winitem.py:402-404 | the filter keeps exactly the items of other windows |
| WinItems.WithoutSplit | traylib/winitem.py:402-404 | the filter distributes over concatenation |
| WinItems.WithoutCons | traylib/winitem.py:402-404 | the filter on a list with a first item |
| WinItems.WithoutAbsent | traylib/winitem.py:402-404 | filtering out a window without item changes nothing |
| WinItems.WithoutMiddle | traylib/winitem.py:402-404 | filtering out the window of an item no other item shares deletes just that item |
| WinItems.AddThenRemove | traylib/winitem.py:339-404 | adding a new window's item and then removing the window gives back the list |
| WinItems.DisconnectFrom | traylib/winitem.py:398-401 | the disconnection loop produces `Disconnections` |
| WinItems.DisconnectsSnoc | traylib/winitem.py:398-401 | one more handler adds one more disconnection |
| WinItems.NoDisconnections | traylib/winitem.py:398-401 | a window without items has nothing disconnected |
| WinItems.DisconnectedOnce | traylib/winitem.py:398-401 | with one item per window, the popped handlers are disconnected once, from that item |
| WinItems.AddConsistent | traylib/winitem.py:339-358 | adding the item of a window without one keeps one item per window and handlers exactly for the items' windows |
| WinItems.RemoveConsistent | traylib/winitem.py:392-404 | removing a window and its entry keeps the group consistent |
| WinItems.DeleteItem | traylib/winitem.py:402-404 | filtering out an item's window keeps one item per window and every other window's item |
| WinItems.DeletedItems | traylib/winitem.py:402-404 | deleting one item keeps one item per window and every other window's item |
| WinItems.VisibleItems | traylib/winitem.py:561-562 | at most as many as the items; exactly the items whose windows are visible |
| WinItems.VisibleItemsAppend | traylib/winitem.py:561-562 | the visible items of a concatenation are those of each part, in order, so the selection keeps the items' order |
| WinItems.VisibleWindowsDistinct | traylib/winitem.py:561-562 | the visible windows of a group are distinct |
| WinItems.GroupName | traylib/winitem.py:526-530 | the bare name exactly for one visible item; otherwise the name, " (", decimal digits without a leading zero whose value is the count, and ")" |
| Base.DecimalString | traylib/winitem.py:530 | `%d` of a natural number: digits only, no leading zero, and their value (`DigitsValue`) is the number |
| WinItems.GroupZoomIsLargest | traylib/winitem.py:497-507 | a group with visible items zooms as its most zoomed visible item |
| WinItems.BlinkingNotGreyed | traylib/winitem.py:491-524 | an item needing attention is visible and not greyed, so a blinking group is never greyed |
| WinItems.Create | traylib/winitem.py:297-298 | the injected factory: `create_window_item` as written (the default) or the corrected one; either makes an item for the window it is given, and the corrected one keeps the kill option |
| WinItems.WindowsItem.constructor | traylib/winitem.py:297-315 | no items, no handlers, no events; the name, kill option and factory are stored |
| WinItems.WindowsItem.HasWindow | traylib/winitem.py:340-342 | found exactly when some item shows the window |
| WinItems.WindowsItem.AddWindow | traylib/winitem.py:339-369 | a window with an item is ignored; otherwise the item the stored factory makes for it is appended, its four handlers recorded, and the list signals emitted; consistency kept |
| WinItems.DisconnectFirst | traylib/winitem.py:323-327 | the handlers are disconnected, in order, from the window's item exactly when the window has one |
| WinItems.ReleasedExactly | traylib/winitem.py:322-327 | the walk disconnects every handler of every window walked, once each, and nothing else |
| WinItems.WindowsItem.OnDestroyed | traylib/winitem.py:317-329 | the screen and configuration handlers are released, then each window's handlers from its item in walk order, then every item is destroyed in order; items and handler entries are kept |
| WinItems.WindowsItem.RemoveWindow | traylib/winitem.py:392-413 | an unknown window is ignored; otherwise its entry is popped, its handlers disconnected once, all its items dropped, the list signals emitted |
| WinItems.WindowsItem.SetName | traylib/winitem.py:551-554 | the name is stored and name-changed emitted |
| WinItems.WindowsItem.IsBlinking | traylib/winitem.py:491-495 | blinking exactly when some visible item needs attention |
| WinItems.WindowsItem.IsGreyedOut | traylib/winitem.py:520-524 | greyed exactly when every visible item is (so also when none is visible) |
| WinItems.WindowsItem.GetZoom | traylib/winitem.py:497-507 | 1.5 with an active visible item, else 0.66 when all visible items (possibly none) are minimized, else 1.0 |
| WinItems.WindowsItem.Click | traylib/winitem.py:482-483 | IndexError without a visible item; otherwise the outcome of clicking the first visible item unforced |
| WinItems.WindowsItem.ActivateNext | traylib/winitem.py:436-454 | nothing without screen or visible item; otherwise the window after the first active one, wrapping to the first |
| WinItems.WindowsItem.ActivatePrevious | traylib/winitem.py:456-474 | nothing without screen or visible item; otherwise the window before the first active one, the last when none is active |
| WinIcons.Disconnects | traylib/winicon.py:153-155 | one disconnection per handler, in order |
| WinIcons.FilteredMembers | traylib/winicon.py:167-182 | the filter keeps exactly the listed windows that are visible, and keeps a list without repetitions so |
| WinIcons.FilteredSameMembers | traylib/winicon.py:167-182 | visibility reads the window list only through membership |
| WinIcons.AddMatchesRefresh | traylib/winicon.py:136-139 | testing only the added window gives the same visible list as recomputing it |
| WinIcons.ClickAsWritten | traylib/winicon.py:261-278 | raises AttributeError exactly when the single visible window must be activated and has no workspace |
| WinIcons.Click | traylib/winicon.py:261-278 | does nothing exactly unless one window is visible |
| WinIcons.ClickIntended | traylib/winicon.py:261-278 | the intended click agrees with the written one whenever that succeeds, and minimizes or activates the single visible window |
| WinIcons.PinnedClickFails | traylib/winicon.py:275 | a single pinned minimized window: the written click raises, the intended one restores it |
| WinIcons.ClickMinimizesInactive | traylib/winicon.py:266-270 | a hidden active window makes a click minimize the visible, inactive window |
| WinIcons.WinIcon.constructor | traylib/winicon.py:17-34 | no windows, visible windows, handlers or events; not blinking |
| WinIcons.WinIcon.IsMinimized | traylib/winicon.py:36-45 | some window is visible and every visible window is minimized |
| WinIcons.WinIcon.UpdateWindows | traylib/winicon.py:53-66 | the visible list is rebuilt from the windows in order and the icon updated |
| WinIcons.WinIcon.UpdateBlinking | traylib/winicon.py:68-77 | blinking exactly when some window, visible or not, needs attention |
| WinIcons.WinIcon.ActivateNext | traylib/winicon.py:79-97 | nothing without screen or visible window; otherwise the window after the active one, wrapping to the first |
| WinIcons.WinIcon.ActivatePrevious | traylib/winicon.py:99-117 | nothing without screen or visible window; otherwise the window before the active one, the last when none is active |
| WinIcons.WinIcon.AddWindow | traylib/winicon.py:119-145 | listed or unwanted windows are ignored; otherwise it is appended, its handlers recorded, it joins the visible windows if visible, the icon updated, blinking recomputed |
| WinIcons.WinIcon.RemoveWindow | traylib/winicon.py:147-165 | an unlisted window is ignored; otherwise it leaves windows, visible windows and handlers after its handlers are disconnected |
| WinIcons.WinIcon.UpdateWindowVisibility | traylib/winicon.py:207-216 | the window is in the visible list exactly when visible; no other window's membership changes |
| WinIcons.WinIcon.WindowStateChanged | traylib/winicon.py:187-195 | visibility updated, the icon updated, blinking recomputed when the attention flags changed |
| WinIcons.WinIcon.WindowNameChanged | traylib/winicon.py:197-199 | visibility and tooltip updated |
| WinIcons.WinIcon.WindowWorkspaceChanged | traylib/winicon.py:201-205 | visibility, tooltip, arrow and visibility of the icon updated |
| WinIcons.WinIcon.MakeZoomFactor | traylib/winicon.py:228-242 | 1.5 with the active window, else the base factor, times 0.66 when every visible window is minimized |
| ItemStates.ClassStates | traylib/item_state.py:10-12 | a class without states has none |
| ItemStates.Find | traylib/item_state.py:10 | found exactly when the class has a state for the id |
| ItemStates.RegisteredFind | traylib/item_state.py:28 | registering makes exactly that class and id find the state; every other pair, of any class, finds what it found |
| ItemStates.UnregisteredFind | traylib/item_state.py:30-31 | unregistering makes that pair find nothing and leaves every other pair |
| ItemStates.ItemState.constructor | traylib/item_state.py:21-28 | the state records its class and item id |
| ItemStates.StateRegistry.constructor | traylib/item_state.py:5 | the shared dictionary starts empty |
| ItemStates.StateRegistry.Get | traylib/item_state.py:8-12 | with an id, the state found or None; with a falsy id, every pair of the class |
| ItemStates.StateRegistry.New | traylib/item_state.py:14-28 | an existing state of the class and id is returned untouched; otherwise a new one registers; afterwards `get(id)` finds it and every other pair is unchanged |
| ItemStates.StateRegistry.Destroy | traylib/item_state.py:30-31 | only that class and id entry goes |
| ItemStates.NewTwiceSame | traylib/item_state.py:14-25 | constructing again registers nothing new |
| HandlerCore.PreOrderMembers | traylib/handler.py:80-87 | the search lists exactly the concrete handlers reachable through nodes that all handle the item |
| HandlerCore.RootFirst | traylib/handler.py:80-84 | a concrete accepting root comes first; a root that does not handle the item yields nothing |
| HandlerCore.SubtreeBlock | traylib/handler.py:83-87 | each subhandler's handlers form one block, after the root and the earlier subhandlers' |
| HandlerCore.PreOrderAllSplit | traylib/handler.py:85-87 | the subhandlers' results split around any one of them |
| HandlerCore.PreOrderAllAppend | traylib/handler.py:85-87 | a last subhandler contributes last |
| HandlerCore.PreOrderAllConcat | traylib/handler.py:85-87 | the results of a prefix, then of the rest |
| HandlerCore.PreOrderAllCons | traylib/handler.py:85-87 | a first subhandler contributes first |
| HandlerCore.Handler.constructor | traylib/handler.py:16-31 | options stored; no subhandlers loaded, no icons cached |
| HandlerCore.Handler.GetOption | traylib/handler.py:33-37 | None exactly for an undeclared key, else the option's value |
| HandlerCore.Handler.GetSubhandlers | traylib/handler.py:59-62 | computed on the first call, then the cached list |
| HandlerCore.Handler.GetHandlerIcon | traylib/handler.py:99-113 | the cached icon for the size, else the first the theme finds, which is then cached |
| HandlerCore.HandlerRegistry.constructor | traylib/handler.py:7 | no instances |
| HandlerCore.HandlerRegistry.Construct | traylib/handler.py:9-18 | the registered instance for the class name, with its `Handler` state left as it was (a `Handlers` subclass then resets its own record, see `HandlerSets.Handlers.ReconstructAsWritten`); otherwise a new initialised one, registered |
| HandlerCore.GetHandlersFor | traylib/handler.py:80-87 | the traversal returns `PreOrder` of the tree |
| HandlerSets.Clears | traylib/handlers.py:45-46 | one state clearing per handler, in order |
| HandlerSets.Replay | traylib/handlers.py:14-15 | one item-added per recorded id, with its handlers |
| HandlerSets.EnumeratesSnoc | traylib/handlers.py:30-31 | picking one more element extends an enumeration of a set |
| HandlerSets.HandlerDiff | traylib/handlers.py:56-59 | added is in the new set and not the old; removed in the old and not the new; together they turn the old set into the new |
| HandlerSets.HandlerDiffUnique | traylib/handlers.py:56-59 | no other pair does that |
| HandlerSets.ClearStates | traylib/handlers.py:45-46 | each handler clears the item's state once, in some order of the set |
| HandlerSets.WatchersToldOnce | traylib/handlers.py:30-63 | a round tells each watcher exactly once |
| HandlerSets.Handlers.constructor | traylib/handlers.py:6-10 | no items, no watchers |
| HandlerSets.Handlers.ReconstructAsWritten | traylib/handlers.py:8-10 | constructing the subclass again empties the shared instance's item record and watchers |
| HandlerSets.Handlers.Reconstruct | traylib/handler.py:16-18 | the intended re-construction keeps the record and the watchers |
| HandlerSets.ReconstructionForgetsWatcher | traylib/handlers.py:8-10 | a watcher added before re-construction is gone as written and kept as intended |
| HandlerSets.Handlers.Broadcast | traylib/handlers.py:30-31 | every watcher is told, each once |
| HandlerSets.Handlers.ReplayTo | traylib/handlers.py:14-15 | the watcher is told about every recorded item, each once |
| HandlerSets.Handlers.AddWatcher | traylib/handlers.py:12-15 | the watcher joins and is told about every recorded item |
| HandlerSets.Handlers.RemoveWatcher | traylib/handlers.py:17-18 | an absent watcher is a KeyError with nothing changed; otherwise the watcher leaves and nothing else changes |
| HandlerSets.Handlers.AddItem | traylib/handlers.py:20-32 | None and no change exactly for a falsy id or no accepting handler; otherwise the accepting handlers are recorded and every watcher told |
| HandlerSets.Handlers.RemoveItem | traylib/handlers.py:34-47 | a falsy or unknown id is ignored; otherwise watchers are told, each handler clears the state, and the entry goes |
| HandlerSets.Handlers.UpdateHandlers | traylib/handlers.py:49-67 | requires a recorded id; with handlers, the new set replaces the old and watchers get `HandlerDiff`; without, the entry goes and watchers are told |
| ItemIcons.FirstLower | traylib/item_icon.py:59-67 | the first position of a strictly lower priority, or the length |
| ItemIcons.InsertIndexing | traylib/item_icon.py:56-67 | the new handler at that position, the ones before in place, the rest shifted by one |
| ItemIcons.InsertByPriorityShape | traylib/item_icon.py:56-67 | exactly the new handler is added; the others keep their order |
| ItemIcons.InsertByPriorityOrdered | traylib/item_icon.py:56-67 | in a list in priority order the handler goes after equal or higher priorities and before lower ones; the list stays ordered |
| ItemIcons.RemoveAfterInsert | traylib/item_icon.py:50-99 | removing a handler right after adding it gives back the list |
| ItemIcons.NonEmpty | traylib/item_icon.py:183-184 | only non-empty names; empty exactly when all are empty |
| ItemIcons.JoinLinesEmpty | traylib/item_icon.py:185-189 | non-empty names join to "" only when there are none |
| ItemIcons.MakeName | traylib/item_icon.py:180-189 | the non-empty names joined by newlines in handler order; "" exactly when all are empty |
| ItemIcons.FlattenMembers | traylib/item_icon.py:158-164 | an element is in the concatenation exactly when it is in one of the lists |
| ItemIcons.GetIconNames | traylib/item_icon.py:158-164 | the handlers' lists concatenated in order |
| ItemIcons.GetIconPath | traylib/item_icon.py:166-171 | the first non-empty path, None exactly when there is none |
| ItemIcons.MakeEmblem | traylib/item_icon.py:173-178 | the first emblem given, or None |
| ItemIcons.ShouldHaveWindow | traylib/item_icon.py:191-195 | some handler accepts the window |
| ItemIcons.Click | traylib/item_icon.py:114-120 | the last item of the first handler with any items; None exactly when no handler has any |
| ItemIcons.ItemIcon.constructor | traylib/item_icon.py:24-38 | no handlers, no updaters |
| ItemIcons.ItemIcon.FirstHandlerOf | traylib/item_icon.py:107-112 | the first handler of the class in priority order, None exactly when none is |
| ItemIcons.ItemIcon.Placed | traylib/item_icon.py:56-67 | the insertion loop places the handler as `InsertByPriority` says |
| ItemIcons.ItemIcon.AddHandler | traylib/item_icon.py:50-85 | a present handler is ignored; otherwise it is placed by priority, gets its state and updater as its classes say, and the icon refreshes; the list stays ordered and without repetitions |
| ItemIcons.ItemIcon.RemoveHandlerAsWritten | traylib/item_icon.py:88-105 | as written: a stateful handler raises NameError (with an updater) or AttributeError (without) and stays; only a stateless one is removed |
| ItemIcons.ItemIcon.RemoveHandler | traylib/item_icon.py:88-105 | corrected: an absent handler is ignored; otherwise removed hook, updater detached, state destroyed, handler removed, icon refreshed |
| ItemIcons.StatefulHandlerStays | traylib/item_icon.py:97-98 | adding then removing a stateful handler without updater raises AttributeError and the handler stays |
| ItemIcons.RemoveHandlerKeepsOrder | traylib/item_icon.py:99 | removal keeps the list without repetitions and in priority order and takes out exactly that handler |
| ItemIcons.IconRegistry.constructor | traylib/item_icon.py:8 | no icons registered |
| ItemIcons.IconRegistry.Register | traylib/item_icon.py:20-22 | the icon is appended to its class's list |
| ItemIcons.IconRegistry.Unregister | traylib/item_icon.py:40-42 | requires membership; one occurrence leaves its class's list |
| TrayContainers.IconSizeFor | traylib/tray_window.py:22-29 | the plain container's size is the allocation; the window's is half of it and the applet's three quarters less two, truncated |
| TrayContainers.ClampBounds | traylib/tray_container.py:59 | the clamp lies within ordered bounds, keeps a value inside them, gives the nearer bound outside, and the minimum when the bounds cross |
| TrayContainers.CrossRequest | traylib/tray_container.py:60-63 | `int(min_size*1.5)` across the panel, -1 along it |
| TrayContainers.TrayContainer.constructor | traylib/tray_container.py:9-35 | bounds and orientation stored; size 0; no request yet |
| TrayContainers.TrayContainer.UpdateIconSize | traylib/tray_container.py:49-63 | bounds stored; the configured size becomes the clamped icon size, notifying only on change; the cross-axis request made |
| TrayContainers.TrayContainer.SizeAllocate | traylib/tray_container.py:39-47 | the width when vertical, else the height; an unchanged size does nothing; a new one is stored and the icon size updated |

## Left out

- GTK widgets, menus and drag-and-drop. This covers `get_menu_left`, `get_menu_right`, the renderers and `drag_data_get`. They build widgets and add no logic the model could check.
- The pointer-driven zoom in `Icon.__update_zoom_factor` (traylib/icon.py:214-236). It needs a pointer query, so the pointer is taken as outside the icon.
- `Icon.set_blinking` and its timer (traylib/icon.py:110-140). The timer's scheduling is not modelled; `WinIcon.UpdateBlinking` records only the value passed.
- Pixel operations such as `scale_simple`, `composite`, `fill` and XPM loading. Pictures are their dimensions.
- IconAnimation.Compose: skips the arrow when no arrow pixmap was ever set. The source would raise AttributeError on `None` there, when the arrow fades in before any edge is set.
- IconConfigs.IconConfig.constructor: picks the arrow for the initial edge, as `update_arrow` does for a change of edge. The source first sets `__arrow = None` (traylib/icon_config.py:23), and its four-argument call does not show when the hook was meant to run.
- Floating-point arithmetic. Zoom factors and `size*ratio` are exact reals, truncated by `Trunc`, so rounding error is not modelled.
- The filesystem loading of subhandlers (traylib/handler.py:64-78) and the icon theme's lookups. Their results are parameters.
- `_load_icons`, `DirectoryWindowItem.get_base_name` and `get_icon_pixbuf`. They read the filesystem; a directory item's base name is a parameter of `ItemName`.
- Wnck.Activated: models only `unminimize` and `activate` (traylib/winitem.py:153-154). The workspace switch and the AttributeError for a window on no workspace are in `WinItems.ItemActivated`, which `WinItems.Clicked` uses.
- WinItems.WindowsItem.ActivateNext: returns the window whose item is clicked with activation forced. The click itself, with its AttributeError for a window on no workspace, is `WinItems.Clicked`.
- WinItems.WindowsItem.ActivatePrevious: the same as `ActivateNext`.
- The item signal relays at traylib/winitem.py:371-390. They only re-emit signals.
- WinItems.WindowsItem.OnDestroyed: the Python 2 dictionary walk has no fixed order. The walk order is a parameter listing each handler entry once.
- `WinIcon.update_name`, `make_tooltip`, `make_name`, `get_root_path` and the `win_config.add_configurable` call in its constructor. They format text or wire observers.
- `WinIcon.MakeVisibility` and `MakeHasArrow` are predicates without an ensures; `make_has_arrow` and `make_visibility` are their bodies.
- The `ItemIcon` overrides of `make_visibility` (True), `menu_has_kill` (False) and `should_hide_if_no_visible_windows` (False). Each is a constant.
- `ItemIcon.class_options_changed` and `options_changed`. The latter is `pass`, and `Handlers.options_changed` forwards to subhandlers.
- The state side of `Handler.get_state` and `_clear_state` (traylib/handler.py:42-54). The item-state registry is modelled in `ItemStates`, and `Handlers` records only the clearing calls.
- `Handler.get_handlers_for` as a whole (traylib/handler.py:88-96). It also creates states, passing the item where an id is expected. Only the traversal is modelled.
- HandlerSets.Handlers.UpdateHandlers: line 67 passes two arguments to `item_removed`, and the branch at lines 68-71 cannot run because of the assertion at line 50. The model records one item-removed per watcher.
- HandlerSets.Handlers.AddItem: the source records the handler list, then sets from `_update_handlers` on. The model records the set of accepting handlers throughout.
- HandlerSets.Handlers.ReconstructAsWritten: the item class (`__item_class`, traylib/handlers.py:10) is not held, because items are known by their id, so its reset is not shown. The instance the source hands back comes from `Handler.__new__` (`HandlerCore.HandlerRegistry.Construct`), and the model does not link the two classes.
- HandlerSets: watchers are a Python set, so the order they are told in is left open ("some enumeration, each once").
- The `Config` constructor's keyword arguments are written in the dictionary's iteration order. The model writes them in a fixed order; the descriptors are independent keys, so the result is the same.
- `Config.HasAttribute`, `Config.GetAttribute` and `Config.HasConfigurable` are functions without an ensures: key membership, the value lookup and list membership.
- The `item` properties and `Item`'s default predicates (`Items.BaseFlags`) are constants without a contract.
- ItemBoxes.ItemBox.Destroy: requires the items to be distinct. With a duplicate, `list.remove` would take the first occurrence, ahead of the loop position.
- Trays.Tray.Destroy: a box's destroy, which destroys its items, is taken as emitting "destroyed" straight away.
- The tray window and tray applet (traylib/tray_window.py, traylib/tray_applet.py) are folded into one `TrayContainer` class with a `kind`. Their widget setup is not modelled.
- WinItems.WindowsItem.ActivatePrevious follows the code: with no active window it picks the last visible item. The doc comment at traylib/winitem.py:459-460 says the first.
- WinIcons.WinIcon.ActivatePrevious follows the code in the same way: with no listed active window, traylib/winicon.py:110-115 picks the last visible window. The doc comment at traylib/winicon.py:100-104 says the first.

## Findings

| source | as written | input that shows it | evidently intended | confidence | as-written member | corrected member |
|---|---|---|---|---|---|---|
| traylib/icon_config.py:26 | `add_attribute('edge', edge, 'update_option_edge', 'update_arrow')` passes four arguments to a three-parameter method | any arguments passing the asserts: raises TypeError | declare edge with update name `update_option_edge`, pick the arrow for the initial edge and re-pick it when the edge changes | high, not executed | IconConfigs.InitAsWrittenAlwaysRaises | IconConfigs.IconConfig.constructor |
| traylib/icon.py:158-161 | the emblem setter ends by asserting that a scaled emblem exists exactly when an emblem is set | set an emblem, then set None: AssertionError | clearing the emblem succeeds | high, not executed | IconAnimation.EmblemAssertionOutcome | IconAnimation.SetEmblem |
| traylib/icon.py:393-394 | `__refresh` without a picture returns False, which stops the timer, but leaves `__zoom_event` set | clear the picture while a tick is pending, then set it again: no refresh ever draws | clear the handle as at line 477 | medium, not executed | IconAnimation.PendingTickLeaksWithoutPicture | IconAnimation.PendingTickClearedWithoutPicture |
| traylib/item_box.py:52-53 | `for item in self.items` while each item's destroy removes it from that same list | a box of two items: the second survives | destroy every item | high, not executed | ItemBoxes.TwoItemsOneSurvives | ItemBoxes.ItemBox.DestroyAll |
| traylib/tray.py:50-51 | `for box in self.boxes` while each box's destroy removes it from that list | a tray of two boxes: the second survives | destroy every box | high, not executed | Trays.Tray.Destroy | Trays.Tray.DestroyAll |
| traylib/winitem.py:287-289 | `A and B or C` groups as `(A and B) or C`; a `WindowsItem` uses this factory unless another is passed | a "Gedit" window titled "~/notes" becomes a directory item | only ROX-Filer windows titled with a path | high, not executed | WinItems.TildeTitleBecomesDirectory | WinItems.CreateWindowItemIntended |
| traylib/winitem.py:292 | `WindowItem(win_config, window, get_filer_window_path)` passes a function as `menu_has_kill`; a `WindowsItem` uses this factory unless another is passed | a plain window with menu_has_kill False still offers kill | pass `menu_has_kill` | high, not executed | WinItems.KillOptionIgnored | WinItems.CreateWindowItemIntended |
| traylib/winicon.py:275 | `window.get_workspace().activate(time)` on a window without a workspace | one visible pinned minimized window: the click raises AttributeError | activate the window where it is | medium, not executed | WinIcons.PinnedClickFails | WinIcons.ClickIntended |
| traylib/item_icon.py:97 | `state.remove_configurable(updater)` names an unbound `updater` | remove a handler that has an updater: NameError, and the handler stays | detach the handler's updater | high, not executed | ItemIcons.ItemIcon.RemoveHandlerAsWritten | ItemIcons.ItemIcon.RemoveHandler |
| traylib/handlers.py:8-10 | `Handlers.__init__` resets `__handlers`, `__watchers` and `__item_class` even when `Handler.__new__` returned the registered instance and `Handler.__init__` returned early | construct a `Handlers` subclass, add a watcher, construct the subclass again: the shared instance has lost the watcher and every recorded item | re-construction hands back the instance with its record, as `Handler.__init__`'s early return does | medium, not executed | HandlerSets.Handlers.ReconstructAsWritten | HandlerSets.Handlers.Reconstruct |
| traylib/item_icon.py:98 | `state.remove()`: item states have no `remove` | remove a stateful handler without updater: AttributeError, and the handler stays | destroy the state as `Handler._clear_state` does | medium, not executed | ItemIcons.StatefulHandlerStays | ItemIcons.ItemIcon.RemoveHandler |
