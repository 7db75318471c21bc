/** The animation arithmetic of traylib/icon.py on values: the state an
    `Icon` keeps, one frame step (`__refresh`), the refresh entry point
    (`_refresh`), the canvas size and the placement of the base picture,
    the emblem and the arrow. Pictures are reduced to an identity and their
    dimensions; the class in module Icons updates its fields as these
    functions say. */
module IconAnimation {
  import opened Base
  import opened PixbufHelper

  /** `ZOOM_ACTION_NONE`, `_SHOW`, `_HIDE`, `_DESTROY`. */
  datatype Action = NoAction | ShowAction | HideAction | DestroyAction

  /** A picture: one handed in by the caller, or one the icon made (a scaled
      copy, a canvas or an arrow pixmap), numbered in order of creation.
      Two pictures are the same object exactly when the values are equal. */
  datatype Picture = Loaded(id: nat, dims: Dims) | Made(serial: nat, dims: Dims)

  /** Where one picture is composited onto the canvas, and with which alpha. */
  datatype Placement = Placement(x: int, y: int, width: int, height: int, alpha: int)

  /** What `set_from_pixbuf` shows: the canvas size and the composited layers. */
  datatype Frame = Frame(canvas: Dims, base: Placement, emblem: Option<Placement>, arrow: Option<Placement>)

  /** Pictures larger than this are scaled down when they are set. */
  const MAX_SIZE := 128
  /** Full arrow alpha and full emblem alpha. */
  const ARROW_ALPHA := 255
  const EMBLEM_ALPHA := 196
  /** How far one step moves an alpha channel. */
  const ALPHA_STEP := 5

  /** The animated values and the running action: the part of an icon's
      state one step changes. */
  datatype Anim = Anim(
    targetSize: int, currentSize: int,
    targetAlpha: int, currentAlpha: int,
    arrowTarget: int, arrowCurrent: int,
    emblemTarget: int, emblemCurrent: int,
    action: Action)

  /** The pictures an icon holds, and the number of pictures it has made. */
  datatype Pictures = Pictures(
    pixbuf: Option<Picture>,
    pixbufCurrent: Option<Picture>,
    emblemOrig: Option<Picture>,
    emblemScaled: Option<Picture>,
    arrow: Option<Picture>,
    canvas: Option<Picture>,
    shown: Option<Frame>,
    made: nat)

  /** The properties set from outside. */
  datatype Settings = Settings(
    size: int, maxSize: int,
    zoomFactor: real, zoomBase: real, zoomOrig: real,
    hasArrow: bool, edge: int, effects: bool)

  /** The widget's own flags, and the timer: `zoomEvent` is
      `__zoom_event != 0`, `timerLive` that the timeout source is installed. */
  datatype Widget = Widget(
    visible: bool, destroyed: bool, sizeRequest: (int, int),
    zoomEvent: bool, timerLive: bool)

  datatype IconState = IconState(anim: Anim, pics: Pictures, settings: Settings, widget: Widget)

  predicate Closing(a: Action) {
    a == HideAction || a == DestroyAction
  }

  /** Both sizes are at least one and the overlay alphas are never negative. */
  predicate AnimValid(a: Anim) {
    && a.currentSize >= 1 && a.targetSize >= 1
    && a.arrowTarget >= 0 && a.arrowCurrent >= 0
    && a.emblemTarget >= 0 && a.emblemCurrent >= 0
  }

  /** What keeps drawing well defined: the base picture has positive sides,
      both sizes are at least one, and whenever the emblem is set or may be
      drawn there is a scaled emblem to draw. */
  predicate Valid(s: IconState) {
    && (s.pics.pixbuf.Some? ==> Positive(s.pics.pixbuf.value.dims))
    && (s.pics.emblemOrig.Some? ==> Positive(s.pics.emblemOrig.value.dims))
    && AnimValid(s.anim)
    && ((s.pics.emblemOrig.Some? || s.anim.emblemTarget > 0 || s.anim.emblemCurrent > 0) ==> s.pics.emblemScaled.Some?)
  }

  /** The state `Icon.__init__` sets up (before any property is set). */
  function Initial(): (s: IconState)
    ensures Valid(s)
    ensures s.anim.action == NoAction && !s.widget.zoomEvent && s.pics.pixbuf.None?
  {
    IconState(
      Anim(32, 1, 0xff, 0xff, 0, 0, 0, 0, NoAction),
      Pictures(None, None, None, None, None, None, None, 0),
      Settings(32, 48, 1.0, 1.0, 1.0, false, 0, false),
      Widget(false, false, (48, -1), false, false))
  }

  // ---- Arithmetic used by the drawing ----------------------------------

  /** Python 2's `round(n / 2.0)`: halves round away from zero. */
  function RoundHalf(n: int): int {
    if n >= 0 then (n + 1) / 2 else -((-n + 1) / 2)
  }

  /** `max_size = int(size * 1.5)` */
  function MaxSize(size: int): int {
    Trunc(size as real * 1.5)
  }

  /** `max(1, min(int(size * zoom_factor), max_size - 2))` */
  function TargetSize(size: int, zoom: real, maxSize: int): (t: int)
    ensures t >= 1
    ensures maxSize >= 3 ==> t <= maxSize - 2
    ensures t == 1 || t == maxSize - 2 || t == Trunc(size as real * zoom)
    ensures 1 <= Trunc(size as real * zoom) <= maxSize - 2 ==> t == Trunc(size as real * zoom)
    ensures Trunc(size as real * zoom) < 1 ==> t == 1
    ensures maxSize >= 3 && Trunc(size as real * zoom) > maxSize - 2 ==> t == maxSize - 2
  {
    var z := Trunc(size as real * zoom);
    var m := if z < maxSize - 2 then z else maxSize - 2;
    if m < 1 then 1 else m
  }

  /** At zoom 1 an icon of size two or more targets its own size, except
      that a size above the cap is held to `max_size - 2`. */
  lemma TargetSizeAtUnitZoom(size: int)
    requires size >= 2
    ensures TargetSize(size, 1.0, MaxSize(size)) <= size
    ensures size <= MaxSize(size) - 2 ==> TargetSize(size, 1.0, MaxSize(size)) == size
  {
    assert Trunc(size as real * 1.0) == size;
  }

  /** The size of the canvas (`__update_canvas`): the full square while no
      action runs or the emblem shows; otherwise the side across the edge
      follows the current size, one and a half times, capped by the square. */
  function CanvasDims(a: Anim, emblemScaled: Option<Picture>, c: Settings): (d: Dims)
    ensures d.width == c.maxSize || d.height == c.maxSize
    ensures (a.action == NoAction || (emblemScaled.Some? && a.emblemCurrent > 0)) ==>
      d == Dims(c.maxSize, c.maxSize)
    ensures d.width <= c.maxSize && d.height <= c.maxSize
  {
    if a.action == NoAction || (emblemScaled.Some? && a.emblemCurrent > 0) then Dims(c.maxSize, c.maxSize)
    else
      var across := Trunc(a.currentSize as real * 1.5);
      var side := if across < c.maxSize then across else c.maxSize;
      if c.edge == 0 || c.edge == TOP || c.edge == BOTTOM then Dims(side, c.maxSize)
      else Dims(c.maxSize, side)
  }

  /** While an action runs without a visible emblem, the canvas narrows
      across the edge the icon sits on: horizontally on a horizontal panel,
      vertically on a vertical one. */
  lemma CanvasNarrowsAcrossEdge(a: Anim, emblemScaled: Option<Picture>, c: Settings)
    requires a.action != NoAction && !(emblemScaled.Some? && a.emblemCurrent > 0)
    ensures var d := CanvasDims(a, emblemScaled, c); var narrow := Trunc(a.currentSize as real * 1.5);
      && (c.edge == LEFT || c.edge == RIGHT ==> d.width == c.maxSize && d.height <= narrow)
      && (c.edge == 0 || c.edge == TOP || c.edge == BOTTOM ==> d.height == c.maxSize && d.width <= narrow)
  {
  }

  /** The arrow's corner (lines 424-438 of icon.py), with Python 2 integer `/`. */
  function ArrowAnchor(edge: int, canvas: Dims, arrow: Dims): (int, int) {
    if edge == 0 || edge == TOP || edge == BOTTOM then
      (canvas.width / 2 - arrow.width / 2, if edge == TOP then canvas.height - arrow.height else 0)
    else if edge == LEFT || edge == RIGHT then
      (if edge == LEFT then canvas.width - arrow.width else 0, canvas.height / 2 - arrow.height / 2)
    else (0, 0)
  }

  /** On a horizontal panel the arrow is centred horizontally (the margins
      differ by at most one pixel) and sits at the canvas bottom on the top
      edge, at its top otherwise; on a vertical panel it is centred
      vertically and sits at the right on the left edge, at the left on the
      right edge. */
  lemma ArrowAnchorPlacement(edge: int, canvas: Dims, arrow: Dims)
    requires canvas.width >= 0 && canvas.height >= 0 && arrow.width >= 0 && arrow.height >= 0
    ensures var (x, y) := ArrowAnchor(edge, canvas, arrow);
      && (edge == 0 || edge == TOP || edge == BOTTOM ==>
            -1 <= (canvas.width - arrow.width - x) - x <= 1
            && y == (if edge == TOP then canvas.height - arrow.height else 0))
      && (edge == LEFT || edge == RIGHT ==>
            -1 <= (canvas.height - arrow.height - y) - y <= 1
            && x == (if edge == LEFT then canvas.width - arrow.width else 0))
  {
    if edge == 0 || edge == TOP || edge == BOTTOM {
      assert canvas.width == 2 * (canvas.width / 2) + canvas.width % 2;
      assert arrow.width == 2 * (arrow.width / 2) + arrow.width % 2;
    } else if edge == LEFT || edge == RIGHT {
      assert canvas.height == 2 * (canvas.height / 2) + canvas.height % 2;
      assert arrow.height == 2 * (arrow.height / 2) + arrow.height % 2;
    }
  }

  /** The base picture's offset along one axis (lines 409-412 of icon.py). */
  function BaseOffset(canvas: int, picture: int): int {
    RoundHalf(canvas) - RoundHalf(picture)
  }

  /** The base picture is centred: its two margins differ by at most one pixel. */
  lemma BaseCentred(canvas: int, picture: int)
    requires canvas >= 0 && picture >= 0
    ensures var x := BaseOffset(canvas, picture);
      -1 <= (canvas - picture - x) - x <= 1
  {
    assert canvas == 2 * (canvas / 2) + canvas % 2;
    assert picture == 2 * (picture / 2) + picture % 2;
    assert (canvas + 1) / 2 == canvas / 2 + canvas % 2;
    assert (picture + 1) / 2 == picture / 2 + picture % 2;
  }

  /** The frame composited from the animated values, on a canvas of the
      given size, with a base picture of the given size. */
  function Compose(a: Anim, c: Settings, arrowPixmap: Option<Picture>, canvas: Dims, cur: Dims): Frame {
    var base := Placement(BaseOffset(canvas.width, cur.width), BaseOffset(canvas.height, cur.height),
                          cur.width, cur.height, a.currentAlpha);
    var emblem :=
      if a.emblemCurrent > 0 then Some(Placement(0, 0, c.maxSize / 3, c.maxSize / 3, a.emblemCurrent)) else None;
    var arrow :=
      if a.arrowCurrent > 0 && arrowPixmap.Some? then
        var (x, y) := ArrowAnchor(c.edge, canvas, arrowPixmap.value.dims);
        Some(Placement(x, y, arrowPixmap.value.dims.width, arrowPixmap.value.dims.height, a.arrowCurrent))
      else None;
    Frame(canvas, base, emblem, arrow)
  }

  // ---- Scaling with object identity ---------------------------------------

  /** `scale_pixbuf_to_size` on a picture: the same object when nothing is
      rescaled, otherwise a new picture numbered `made`. */
  function Scale(p: Picture, size: real, scaleUp: bool, made: nat): (r: (Picture, nat))
    requires Positive(p.dims)
    ensures !WillRescale(p.dims, size, scaleUp) ==> r == (p, made)
    ensures WillRescale(p.dims, size, scaleUp) ==> r.0 == Made(made, r.0.dims) && r.1 == made + 1
  {
    if WillRescale(p.dims, size, scaleUp) then (Made(made, ScaleToSize(p.dims, size, scaleUp)), made + 1)
    else (p, made)
  }

  // ---- The animated values --------------------------------------------------

  /** All four animated values have reached their targets. */
  predicate AtTarget(a: Anim) {
    && a.currentSize == a.targetSize
    && a.arrowCurrent == a.arrowTarget
    && a.emblemCurrent == a.emblemTarget
    && a.currentAlpha == a.targetAlpha
  }

  /** `c` moved toward `t` by at most `step`, never past it. */
  function Toward(c: int, t: int, step: nat): (r: int)
    ensures c >= t ==> t <= r <= c && c - r <= step
    ensures c <= t ==> c <= r <= t && r - c <= step
    ensures r == t || (if c > t then r == c - step else r == c + step)
  {
    if c > t then (if c - step < t then t else c - step)
    else if c < t then (if c + step > t then t else c + step)
    else c
  }

  /** Every animated value one step closer to its target (lines 480-507). */
  function Moved(a: Anim): Anim {
    a.(currentSize := Toward(a.currentSize, a.targetSize, 1),
       currentAlpha := Toward(a.currentAlpha, a.targetAlpha, ALPHA_STEP),
       arrowCurrent := Toward(a.arrowCurrent, a.arrowTarget, ALPHA_STEP),
       emblemCurrent := Toward(a.emblemCurrent, a.emblemTarget, ALPHA_STEP))
  }

  /** The deciding half of a step (lines 445-508) on the animated values; the
      flag says whether another step is wanted. When everything is at
      target, a closing action first drops the overlays' targets, then the
      size target to 1, and only then ends. */
  function AdvanceAnim(a: Anim): (Anim, bool) {
    if AtTarget(a) then
      if Closing(a.action) && (a.arrowCurrent > 0 || a.emblemCurrent > 0) then
        (a.(arrowTarget := 0, emblemTarget := 0), true)
      else if Closing(a.action) && a.currentSize > 1 then
        (a.(targetSize := 1), true)
      else (a.(action := NoAction), false)
    else (Moved(a), true)
  }

  function Abs(x: int): nat {
    if x < 0 then -x else x
  }

  /** `c2` lies between `c` and `t`, at most five from `c`, and is `t`
      or exactly five from `c`. */
  predicate Closer(c: int, c2: int, t: int) {
    && (c <= t ==> c <= c2 <= t)
    && (c >= t ==> t <= c2 <= c)
    && Abs(c2 - c) <= ALPHA_STEP
    && (c2 == t || Abs(c2 - c) == ALPHA_STEP)
  }

  /** A moving step brings the size exactly one closer to its target and
      each alpha at most five closer, clamped at the target; the targets
      and the action stay. */
  lemma AdvanceMovesTowardTargets(a: Anim)
    requires !AtTarget(a)
    ensures var (b, more) := AdvanceAnim(a);
      && more
      && b.targetSize == a.targetSize && b.targetAlpha == a.targetAlpha
      && b.arrowTarget == a.arrowTarget && b.emblemTarget == a.emblemTarget
      && b.action == a.action
      && (a.currentSize != a.targetSize ==> Abs(b.currentSize - a.targetSize) == Abs(a.currentSize - a.targetSize) - 1)
      && (a.currentSize == a.targetSize ==> b.currentSize == a.currentSize)
      && Closer(a.currentAlpha, b.currentAlpha, a.targetAlpha)
      && Closer(a.arrowCurrent, b.arrowCurrent, a.arrowTarget)
      && Closer(a.emblemCurrent, b.emblemCurrent, a.emblemTarget)
  {
  }

  /** While hiding or destroying, the staging of a step: the size target
      only ever changes to 1 and only once both overlays are transparent;
      the overlays' targets only ever drop to 0; and the action ends only at
      size 1 with both overlays transparent and everything at target. */
  lemma AdvanceClosingStages(a: Anim)
    requires Closing(a.action) && AnimValid(a)
    ensures var (b, more) := AdvanceAnim(a);
      && (b.targetSize != a.targetSize ==>
            b.targetSize == 1 && a.arrowCurrent == 0 && a.emblemCurrent == 0 && more)
      && (b.arrowTarget != a.arrowTarget ==> b.arrowTarget == 0 && b.emblemTarget == 0 && more)
      && (b.emblemTarget != a.emblemTarget ==> b.emblemTarget == 0 && b.arrowTarget == 0 && more)
      && (more ==> b.action == a.action)
      && (!more ==>
            AtTarget(a) && a.currentSize == 1 && a.arrowCurrent == 0 && a.emblemCurrent == 0
            && b == a.(action := NoAction))
  {
  }

  /** A step that wants no successor has everything at target and ends the
      action; without a closing action that happens as soon as everything is
      at target. */
  lemma AdvanceFinal(a: Anim)
    ensures !AdvanceAnim(a).1 ==> AtTarget(a) && AdvanceAnim(a).0 == a.(action := NoAction)
    ensures !Closing(a.action) && AtTarget(a) ==> !AdvanceAnim(a).1
  {
  }

  /** The termination measure of the step loop: the stage of a closing
      action (overlays still to fade, size still to shrink, final), then the
      total distance of the four values from their targets. */
  function Stage(a: Anim): nat {
    if !Closing(a.action) then 1
    else if a.arrowTarget > 0 || a.emblemTarget > 0 then 3
    else if a.targetSize != 1 then 2
    else 1
  }

  function Dist(a: Anim): nat {
    Abs(a.currentSize - a.targetSize) + Abs(a.currentAlpha - a.targetAlpha)
    + Abs(a.arrowCurrent - a.arrowTarget) + Abs(a.emblemCurrent - a.emblemTarget)
  }

  /** A step that asks for another one lowers the stage, or keeps it and
      lowers the distance. */
  lemma AdvanceDecreases(a: Anim)
    requires AdvanceAnim(a).1
    ensures var b := AdvanceAnim(a).0;
      Stage(b) < Stage(a) || (Stage(b) == Stage(a) && Dist(b) < Dist(a))
  {
    if !AtTarget(a) {
      TowardCloses(a.currentSize, a.targetSize, 1);
      TowardCloses(a.currentAlpha, a.targetAlpha, ALPHA_STEP);
      TowardCloses(a.arrowCurrent, a.arrowTarget, ALPHA_STEP);
      TowardCloses(a.emblemCurrent, a.emblemTarget, ALPHA_STEP);
      assert Stage(Moved(a)) == Stage(a);
    }
  }

  /** A move of at least one toward the target never increases the
      distance, and lowers it unless the value is already there. */
  lemma TowardCloses(c: int, t: int, step: nat)
    requires step >= 1
    ensures Abs(Toward(c, t, step) - t) <= Abs(c - t)
    ensures c != t ==> Abs(Toward(c, t, step) - t) < Abs(c - t)
  {
  }

  // ---- One step: `__refresh` -------------------------------------------

  /** The drawing half of a step (lines 396-443): rescale the base picture
      when there is none or the size is moving, resize the canvas when its
      size changed, and show the composed frame. */
  function Draw(s: IconState): (t: IconState)
    requires Valid(s) && s.pics.pixbuf.Some?
    ensures t.anim == s.anim && t.settings == s.settings && t.widget == s.widget
    ensures t.pics.pixbuf == s.pics.pixbuf && t.pics.emblemOrig == s.pics.emblemOrig
    ensures t.pics.emblemScaled == s.pics.emblemScaled && t.pics.arrow == s.pics.arrow
    ensures t.pics.pixbufCurrent.Some? && t.pics.canvas.Some? && t.pics.shown.Some?
    ensures t.pics.canvas.value.dims == CanvasDims(s.anim, s.pics.emblemScaled, s.settings)
    ensures s.pics.canvas.Some? && s.pics.canvas.value.dims == CanvasDims(s.anim, s.pics.emblemScaled, s.settings) ==>
      t.pics.canvas == s.pics.canvas
  {
    var p := s.pics;
    var (cur, m1) :=
      if p.pixbufCurrent.None? || s.anim.currentSize != s.anim.targetSize
      then Scale(p.pixbuf.value, s.anim.currentSize as real, true, p.made)
      else (p.pixbufCurrent.value, p.made);
    var dims := CanvasDims(s.anim, p.emblemScaled, s.settings);
    var (canvas, m2) :=
      if p.canvas.Some? && p.canvas.value.dims == dims then (p.canvas.value, m1) else (Made(m1, dims), m1 + 1);
    var frame := Compose(s.anim, s.settings, p.arrow, dims, cur.dims);
    s.(pics := p.(pixbufCurrent := Some(cur), canvas := Some(canvas), shown := Some(frame), made := m2))
  }

  /** The size request for the settings: the full square along the edge,
      free (-1) across it. */
  function Request(c: Settings): (int, int) {
    if c.edge == LEFT || c.edge == RIGHT then (-1, c.maxSize) else (c.maxSize, -1)
  }

  /** The widget asks for the size its settings call for. */
  predicate RequestFits(s: IconState) {
    s.widget.sizeRequest == Request(s.settings)
  }

  /** `__update_size_request`: only when no action runs. */
  function SizeRequested(s: IconState): IconState {
    if s.anim.action != NoAction then s
    else s.(widget := s.widget.(sizeRequest := Request(s.settings)))
  }

  /** The end of an action (lines 448-478): the widget is hidden or
      destroyed, a show updates the size request, and the handle is cleared. */
  function Finished(s: IconState, ended: Action): IconState {
    var w := s.widget;
    var w1 :=
      if ended == HideAction then w.(visible := false)
      else if ended == DestroyAction then w.(destroyed := true)
      else w;
    var s1 := s.(widget := w1.(zoomEvent := false));
    if ended == ShowAction then SizeRequested(s1) else s1
  }

  /** `__refresh`, with the pending-tick handle cleared when there is no
      picture to draw (see `StepAsWritten`). */
  function Step(s: IconState): (r: (IconState, bool))
    requires Valid(s)
    ensures Valid(r.0)
    ensures r.0.settings == s.settings && r.0.pics.pixbuf == s.pics.pixbuf
    ensures r.0.pics.emblemOrig == s.pics.emblemOrig && r.0.pics.emblemScaled == s.pics.emblemScaled
    ensures s.pics.pixbuf.None? ==> !r.1 && r.0 == s.(widget := s.widget.(zoomEvent := false))
    ensures s.pics.pixbuf.Some? ==> (r.0.anim, r.1) == AdvanceAnim(s.anim) && r.0.pics.shown.Some?
    ensures r.1 ==> r.0.widget == s.widget
    ensures !r.1 ==> !r.0.widget.zoomEvent && r.0.widget.timerLive == s.widget.timerLive
    ensures !r.1 && s.pics.pixbuf.Some? ==>
      && (s.anim.action == HideAction ==> !r.0.widget.visible)
      && (s.anim.action == DestroyAction ==> r.0.widget.destroyed)
    ensures !Closing(s.anim.action) ==>
      r.0.widget.visible == s.widget.visible && r.0.widget.destroyed == s.widget.destroyed
    ensures r.0.pics.arrow == s.pics.arrow && r.0.anim.targetAlpha == s.anim.targetAlpha
    ensures RequestFits(s) ==> RequestFits(r.0)
  {
    if s.pics.pixbuf.None? then (s.(widget := s.widget.(zoomEvent := false)), false)
    else
      var d := Draw(s);
      var (a, more) := AdvanceAnim(d.anim);
      AdvanceValid(d.anim, d.pics);
      if more then (d.(anim := a), true)
      else (Finished(d.(anim := a), d.anim.action), false)
  }

  /** A step of the animated values keeps the drawing invariant. */
  lemma AdvanceValid(a: Anim, p: Pictures)
    requires AnimValid(a)
    requires (p.emblemOrig.Some? || a.emblemTarget > 0 || a.emblemCurrent > 0) ==> p.emblemScaled.Some?
    ensures var b := AdvanceAnim(a).0;
      && AnimValid(b)
      && ((p.emblemOrig.Some? || b.emblemTarget > 0 || b.emblemCurrent > 0) ==> p.emblemScaled.Some?)
  {
  }

  /** `__refresh` as written: without a picture it stops the timer but
      leaves `__zoom_event` set. */
  function StepAsWritten(s: IconState): (IconState, bool)
    requires Valid(s)
  {
    if s.pics.pixbuf.None? then (s, false) else Step(s)
  }

  // ---- Running steps to the end ------------------------------------------

  /** `while self.__refresh(): pass` */
  function RunToRest(s: IconState): (t: IconState)
    requires Valid(s)
    ensures Valid(t)
    ensures t.settings == s.settings && t.pics.pixbuf == s.pics.pixbuf
    ensures t.pics.emblemOrig == s.pics.emblemOrig && t.pics.emblemScaled == s.pics.emblemScaled
    ensures t.pics.arrow == s.pics.arrow && t.anim.targetAlpha == s.anim.targetAlpha
    ensures RequestFits(s) ==> RequestFits(t)
    decreases Stage(s.anim), Dist(s.anim)
  {
    var (next, more) := Step(s);
    if more then
      AdvanceDecreases(s.anim);
      RunToRest(next)
    else next
  }

  /** The synchronous loop ends with every value at its target, no action,
      no pending tick and a frame shown; a hide has hidden and a destroy has
      destroyed the icon, at size 1 with both overlays transparent. */
  lemma {:induction false} RunToRestSettles(s: IconState)
    requires Valid(s) && s.pics.pixbuf.Some?
    ensures var t := RunToRest(s);
      && AtTarget(t.anim) && t.anim.action == NoAction && !t.widget.zoomEvent && t.pics.shown.Some?
      && (Closing(s.anim.action) ==>
            t.anim.currentSize == 1 && t.anim.arrowCurrent == 0 && t.anim.emblemCurrent == 0)
      && (s.anim.action == HideAction ==> !t.widget.visible)
      && (s.anim.action == DestroyAction ==> t.widget.destroyed)
    decreases Stage(s.anim), Dist(s.anim)
  {
    var (next, more) := Step(s);
    if more {
      AdvanceDecreases(s.anim);
      if Closing(s.anim.action) {
        AdvanceClosingStages(s.anim);
      }
      RunToRestSettles(next);
    } else {
      AdvanceFinal(s.anim);
      if Closing(s.anim.action) {
        AdvanceClosingStages(s.anim);
      }
    }
  }

  // ---- The refresh entry point: `_refresh` ---------------------------------

  /** The target size as `_refresh` recomputes it, except while closing. */
  function Retargeted(s: IconState): (t: IconState)
    requires Valid(s)
    ensures Valid(t)
    ensures t.pics == s.pics && t.settings == s.settings && t.widget == s.widget
    ensures t.anim.(targetSize := s.anim.targetSize) == s.anim
    ensures !Closing(s.anim.action) ==>
      t.anim.targetSize == TargetSize(s.settings.size, s.settings.zoomFactor, s.settings.maxSize)
  {
    if Closing(s.anim.action) then s
    else s.(anim := s.anim.(targetSize := TargetSize(s.settings.size, s.settings.zoomFactor, s.settings.maxSize)))
  }

  /** Effects off: every value jumps to its target and the scaled base
      picture is dropped, before the step loop. */
  function Jumped(s: IconState): (t: IconState)
    requires Valid(s)
    ensures Valid(t) && AtTarget(t.anim) && t.pics.pixbufCurrent.None?
    ensures t.anim.targetSize == s.anim.targetSize && t.anim.targetAlpha == s.anim.targetAlpha
    ensures t.anim.arrowTarget == s.anim.arrowTarget && t.anim.emblemTarget == s.anim.emblemTarget
    ensures t.anim.action == s.anim.action && t.settings == s.settings && t.widget == s.widget
  {
    var a := s.anim;
    s.(anim := a.(arrowCurrent := a.arrowTarget, emblemCurrent := a.emblemTarget,
                  currentAlpha := a.targetAlpha, currentSize := a.targetSize),
       pics := s.pics.(pixbufCurrent := None))
  }

  /** `_refresh(force)` */
  function Refresh(s: IconState, force: bool): (t: IconState)
    requires Valid(s)
    ensures Valid(t)
    ensures t.settings == s.settings && t.pics.pixbuf == s.pics.pixbuf
    ensures t.pics.emblemOrig == s.pics.emblemOrig && t.pics.emblemScaled == s.pics.emblemScaled
    ensures t.pics.arrow == s.pics.arrow && t.anim.targetAlpha == s.anim.targetAlpha
    ensures RequestFits(s) ==> RequestFits(t)
  {
    if s.pics.pixbuf.None? || !s.widget.visible then s
    else
      var r := Retargeted(s);
      if !Closing(s.anim.action) && !force && AtTarget(r.anim) then r
      else if r.widget.zoomEvent then r
      else if s.settings.effects then
        var (t, more) := Step(r);
        if more then t.(widget := t.widget.(zoomEvent := true, timerLive := true)) else t
      else RunToRest(Jumped(r))
  }

  /** A step under no action or the show action never starts hiding or
      destroying. */
  lemma StepOpen(s: IconState)
    requires Valid(s) && !Closing(s.anim.action)
    ensures !Closing(Step(s).0.anim.action)
    ensures Step(s).0.anim.arrowTarget == s.anim.arrowTarget && Step(s).0.anim.emblemTarget == s.anim.emblemTarget
  {
    if s.pics.pixbuf.Some? && !AtTarget(s.anim) {
      AdvanceMovesTowardTargets(s.anim);
    }
  }

  /** The synchronous loop under no action or the show action neither hides
      nor destroys the icon. */
  lemma {:induction false} RunToRestOpen(s: IconState)
    requires Valid(s) && !Closing(s.anim.action)
    ensures var t := RunToRest(s);
      && !Closing(t.anim.action) && t.widget.visible == s.widget.visible && t.widget.destroyed == s.widget.destroyed
      && t.anim.arrowTarget == s.anim.arrowTarget && t.anim.emblemTarget == s.anim.emblemTarget
    decreases Stage(s.anim), Dist(s.anim)
  {
    var (next, more) := Step(s);
    StepOpen(s);
    if more {
      AdvanceDecreases(s.anim);
      RunToRestOpen(next);
    }
  }

  /** A refresh under no action or the show action neither hides nor
      destroys the icon, and does not start a closing action. */
  lemma RefreshOpen(s: IconState, force: bool)
    requires Valid(s) && !Closing(s.anim.action)
    ensures var t := Refresh(s, force);
      && !Closing(t.anim.action) && t.widget.visible == s.widget.visible && t.widget.destroyed == s.widget.destroyed
      && t.anim.arrowTarget == s.anim.arrowTarget && t.anim.emblemTarget == s.anim.emblemTarget
  {
    if s.pics.pixbuf.Some? && s.widget.visible {
      var r := Retargeted(s);
      if s.settings.effects {
        StepOpen(r);
      } else {
        RunToRestOpen(Jumped(r));
      }
    }
  }

  /** A refresh while hiding or destroying either keeps the action running
      or ends it, and an ended hide has hidden the icon, an ended destroy
      destroyed it. */
  lemma RefreshClosing(s: IconState, force: bool)
    requires Valid(s) && Closing(s.anim.action)
    ensures var t := Refresh(s, force);
      || t.anim.action == s.anim.action
      || (&& t.anim.action == NoAction
          && (s.anim.action == HideAction ==> !t.widget.visible)
          && (s.anim.action == DestroyAction ==> t.widget.destroyed))
  {
    if s.pics.pixbuf.Some? && s.widget.visible && !s.widget.zoomEvent {
      if s.settings.effects {
        AdvanceClosingStages(s.anim);
        AdvanceFinal(s.anim);
      } else {
        RunToRestSettles(Jumped(s));
      }
    }
  }

  /** Without a picture, or while invisible, a refresh does nothing. */
  lemma RefreshIdle(s: IconState, force: bool)
    requires Valid(s) && (s.pics.pixbuf.None? || !s.widget.visible)
    ensures Refresh(s, force) == s
  {
  }

  /** An unforced refresh with everything at target only recomputes the
      target size. */
  lemma RefreshAtTargetIsNoOp(s: IconState)
    requires Valid(s) && !Closing(s.anim.action) && AtTarget(Retargeted(s).anim)
    ensures Refresh(s, false) == s || Refresh(s, false) == Retargeted(s)
  {
  }

  /** A pending tick keeps a refresh from drawing or starting a second
      timer: at most the target size is recomputed. */
  lemma PendingTickBlocksRefresh(s: IconState, force: bool)
    requires Valid(s) && s.widget.zoomEvent
    ensures Refresh(s, force) == s || Refresh(s, force) == Retargeted(s)
  {
  }

  /** With effects off, a refresh that does not stop early leaves the icon
      at rest: all values at target, no action, no pending tick. */
  lemma RefreshWithoutEffectsSettles(s: IconState, force: bool)
    requires Valid(s) && s.pics.pixbuf.Some? && s.widget.visible && !s.settings.effects && !s.widget.zoomEvent
    ensures var t := Refresh(s, force);
      t == Retargeted(s) || (AtTarget(t.anim) && t.anim.action == NoAction && !t.widget.zoomEvent)
  {
    var r := Retargeted(s);
    if !(!Closing(s.anim.action) && !force && AtTarget(r.anim)) {
      RunToRestSettles(Jumped(r));
    }
  }

  /** With effects on, a refresh that draws takes one step and installs a
      timer exactly when that step wants a successor. */
  lemma RefreshWithEffectsSchedules(s: IconState, force: bool)
    requires Valid(s) && s.pics.pixbuf.Some? && s.widget.visible && s.settings.effects && !s.widget.zoomEvent
    requires force || Closing(s.anim.action) || !AtTarget(Retargeted(s).anim)
    ensures var t := Refresh(s, force); var (u, more) := Step(Retargeted(s));
      && t.anim == u.anim
      && t.widget.zoomEvent == more
      && (more ==> t.widget.timerLive)
  {
  }

  /** While hiding or destroying, a refresh does not recompute the target
      size: it stays, or the staging sets it to 1. */
  lemma ClosingKeepsTargetSize(s: IconState, force: bool)
    requires Valid(s) && Closing(s.anim.action) && s.settings.effects
    ensures var t := Refresh(s, force);
      t.anim.targetSize == s.anim.targetSize || t.anim.targetSize == 1
  {
    if s.pics.pixbuf.Some? && s.widget.visible && !s.widget.zoomEvent {
      AdvanceClosingStages(s.anim);
    }
  }

  // ---- The timer ---------------------------------------------------------

  /** The timeout callback: one step; the source is removed when the step
      asks for no successor. */
  function TimerFired(s: IconState): (t: IconState)
    requires Valid(s)
    ensures Valid(t)
    ensures s.pics.pixbuf.Some? ==> t.anim == AdvanceAnim(s.anim).0
    ensures Step(s).1 ==> t.widget == s.widget
    ensures !Step(s).1 ==> !t.widget.timerLive && !t.widget.zoomEvent
  {
    var (t, more) := Step(s);
    if more then t else t.(widget := t.widget.(timerLive := false))
  }

  /** The timeout callback over `__refresh` as written. */
  function TimerFiredAsWritten(s: IconState): IconState
    requires Valid(s)
  {
    var (t, more) := StepAsWritten(s);
    if more then t else t.(widget := t.widget.(timerLive := false))
  }

  /** As written: if the picture is cleared while a tick is pending, the
      next tick removes the timer but keeps the handle, and after a picture
      is set again every refresh stops at the handle check, so the icon
      never draws again. */
  lemma PendingTickLeaksWithoutPicture(s: IconState, p: Picture, force: bool)
    requires Valid(s) && s.widget.zoomEvent && s.widget.timerLive && s.pics.pixbuf.None? && Positive(p.dims)
    ensures var t := TimerFiredAsWritten(s);
      && t.widget.zoomEvent && !t.widget.timerLive
      && var u := t.(pics := t.pics.(pixbuf := Some(p)));
         Refresh(u, force).pics.shown == u.pics.shown
  {
  }

  /** Corrected: the tick that finds no picture also clears the handle, so a
      forced refresh after a picture is set again draws a frame. */
  lemma PendingTickClearedWithoutPicture(s: IconState, p: Picture)
    requires Valid(s) && s.widget.zoomEvent && s.widget.timerLive && s.pics.pixbuf.None? && Positive(p.dims)
    requires s.widget.visible
    ensures var t := TimerFired(s);
      && !t.widget.zoomEvent && !t.widget.timerLive
      && Refresh(t.(pics := t.pics.(pixbuf := Some(p))), true).pics.shown.Some?
  {
    var u := TimerFired(s).(pics := TimerFired(s).pics.(pixbuf := Some(p)));
    var r := Retargeted(u);
    if !s.settings.effects {
      RunToRestSettles(Jumped(r));
    }
  }

  // ---- Property setters ------------------------------------------------

  /** `__update_arrow_target_alpha`: no raising while closing. */
  function ArrowRetargeted(s: IconState): (t: IconState)
    ensures Closing(s.anim.action) ==> t == s
    ensures !Closing(s.anim.action) ==>
      t == s.(anim := s.anim.(arrowTarget := if s.settings.hasArrow then ARROW_ALPHA else 0))
  {
    if Closing(s.anim.action) then s
    else s.(anim := s.anim.(arrowTarget := if s.settings.hasArrow then ARROW_ALPHA else 0))
  }

  /** `__update_emblem_target_alpha`: no raising while closing. */
  function EmblemRetargeted(s: IconState): (t: IconState)
    ensures Closing(s.anim.action) ==> t == s
    ensures !Closing(s.anim.action) ==>
      t == s.(anim := s.anim.(emblemTarget := if s.pics.emblemOrig.Some? then EMBLEM_ALPHA else 0))
  {
    if Closing(s.anim.action) then s
    else s.(anim := s.anim.(emblemTarget := if s.pics.emblemOrig.Some? then EMBLEM_ALPHA else 0))
  }

  /** While closing, the setters of `has_arrow` and `emblem` cannot raise
      the overlays' targets; otherwise the targets follow the properties. */
  lemma OverlayTargets(s: IconState)
    ensures Closing(s.anim.action) ==>
      ArrowRetargeted(s).anim.arrowTarget == s.anim.arrowTarget
      && EmblemRetargeted(s).anim.emblemTarget == s.anim.emblemTarget
    ensures !Closing(s.anim.action) ==>
      (ArrowRetargeted(s).anim.arrowTarget > 0 <==> s.settings.hasArrow)
      && (EmblemRetargeted(s).anim.emblemTarget > 0 <==> s.pics.emblemOrig.Some?)
  {
  }

  /** The emblem setter up to its final assertion: scale a new emblem to a
      third of the icon (never up), retarget its alpha, refresh (forced when
      it changed). A cleared emblem keeps its scaled copy, which the fading
      still draws. */
  function SetEmblem(s: IconState, e: Option<Picture>): (t: IconState)
    requires Valid(s) && (e.Some? ==> Positive(e.value.dims))
    ensures Valid(t) && t.pics.emblemOrig == e
    ensures e.Some? ==> t.pics.emblemScaled == Some(Scale(e.value, (s.settings.maxSize / 3) as real, false, s.pics.made).0)
    ensures e.None? ==> t.pics.emblemScaled == s.pics.emblemScaled
    ensures t.settings == s.settings && t.pics.pixbuf == s.pics.pixbuf
    ensures RequestFits(s) ==> RequestFits(t)
  {
    var p1 := s.pics.(emblemOrig := e);
    var p2 :=
      if e.Some? then
        var (scaled, m) := Scale(e.value, (s.settings.maxSize / 3) as real, false, p1.made);
        p1.(emblemScaled := Some(scaled), made := m)
      else p1;
    var s3 := EmblemRetargeted(s.(pics := p2));
    Refresh(s3, e != s.pics.emblemOrig)
  }

  /** The assertion closing the emblem setter (lines 158-161 of icon.py). */
  predicate EmblemAssertion(s: IconState) {
    (s.pics.emblemOrig.None? && s.pics.emblemScaled.None?)
    || (s.pics.emblemOrig.Some? && s.pics.emblemScaled.Some?)
  }

  /** The emblem setter as written: the body, then the assertion. */
  function SetEmblemAsWritten(s: IconState, e: Option<Picture>): Result<IconState>
    requires Valid(s) && (e.Some? ==> Positive(e.value.dims))
  {
    var t := SetEmblem(s, e);
    if EmblemAssertion(t) then Success(t) else Failure(AssertionError)
  }

  /** As written, clearing an emblem that was set raises `AssertionError`
      (the scaled copy is left in place), while setting one passes. */
  lemma EmblemAssertionOutcome(s: IconState, p: Picture)
    requires Valid(s) && Positive(p.dims)
    ensures s.pics.emblemOrig.Some? ==> SetEmblemAsWritten(s, None) == Failure(AssertionError)
    ensures SetEmblemAsWritten(s, Some(p)).Success?
  {
  }

  /** A picture of 128 pixels or more on a side, scaled down to 128. */
  function ScaledDown(p: Picture, made: nat): (r: (Picture, nat))
    requires Positive(p.dims)
    ensures Positive(r.0.dims) && r.0.dims.width <= MAX_SIZE && r.0.dims.height <= MAX_SIZE
    ensures r == Scale(p, MAX_SIZE as real, false, made)
  {
    var r := Scale(p, MAX_SIZE as real, false, made);
    if r.0 != p then
      RescaledBounds(p.dims, MAX_SIZE as real, false);
      r
    else r
  }

  /** The `pixbuf` setter: pictures of 128 pixels or more on a side are
      scaled down (never up) to 128; a different object drops the scaled
      base and forces the refresh. */
  function SetPixbuf(s: IconState, p: Option<Picture>): (t: IconState)
    requires Valid(s) && (p.Some? ==> Positive(p.value.dims))
    ensures Valid(t) && t.pics.emblemOrig == s.pics.emblemOrig
    ensures p.None? ==> t.pics.pixbuf.None?
    ensures p.Some? && p.value.dims.width < MAX_SIZE && p.value.dims.height < MAX_SIZE ==> t.pics.pixbuf == p
    ensures t.pics.pixbuf.Some? ==>
      t.pics.pixbuf.value.dims.width <= MAX_SIZE && t.pics.pixbuf.value.dims.height <= MAX_SIZE
    ensures t.settings == s.settings
    ensures RequestFits(s) ==> RequestFits(t)
  {
    var (stored, m) :=
      if p.Some? && (p.value.dims.width >= MAX_SIZE || p.value.dims.height >= MAX_SIZE)
      then var (q, m) := ScaledDown(p.value, s.pics.made); (Some(q), m)
      else (p, s.pics.made);
    var p1 := s.pics.(pixbuf := stored, made := m);
    var p2 := if stored != s.pics.pixbuf then p1.(pixbufCurrent := None) else p1;
    Refresh(s.(pics := p2), stored != s.pics.pixbuf)
  }

  /** The `has_arrow` setter: outside hiding and destroying, the arrow fades
      toward fully opaque when it is wanted and toward transparent when not. */
  function SetHasArrow(s: IconState, b: bool): (t: IconState)
    requires Valid(s)
    ensures Valid(t) && t.settings.hasArrow == b
    ensures !Closing(s.anim.action) ==> t.anim.arrowTarget == (if b then ARROW_ALPHA else 0)
  {
    var u := ArrowRetargeted(s.(settings := s.settings.(hasArrow := b)));
    if Closing(s.anim.action) then Refresh(u, false)
    else
      RefreshOpen(u, false);
      Refresh(u, false)
  }

  /** `max(0.0, min(zoom_factor, 1.5))` */
  function ClampZoom(z: real): (r: real)
    ensures 0.0 <= r <= 1.5
    ensures 0.0 <= z <= 1.5 ==> r == z
    ensures z > 1.5 ==> r == 1.5
    ensures z < 0.0 ==> r == 0.0
  {
    if z > 1.5 then 1.5 else if z < 0.0 then 0.0 else z
  }

  /** The `zoom_factor` setter with the pointer outside the icon: the clamped
      factor becomes base, original and effective factor; only a change
      refreshes. */
  function SetZoomFactor(s: IconState, z: real): (t: IconState)
    requires Valid(s)
    ensures Valid(t)
    ensures t.settings.zoomBase == t.settings.zoomOrig == ClampZoom(z)
    ensures s.settings.zoomBase != ClampZoom(z) ==> t.settings.zoomFactor == ClampZoom(z)
  {
    var c := s.settings.(zoomBase := ClampZoom(z), zoomOrig := ClampZoom(z));
    if s.settings.zoomBase != ClampZoom(z) then
      Refresh(s.(settings := c.(zoomFactor := c.zoomBase)), false)
    else s.(settings := c)
  }

  /** A forced refresh of a visible icon with a picture and no pending tick
      draws a frame, even when everything is at target. */
  lemma ForcedRefreshDraws(s: IconState)
    requires Valid(s) && s.pics.pixbuf.Some? && s.widget.visible && !s.widget.zoomEvent
    ensures Refresh(s, true).pics.shown.Some?
  {
    if !s.settings.effects {
      RunToRestSettles(Jumped(Retargeted(s)));
    }
  }

  /** The `edge` setter: a new arrow pixmap (of the given dimensions) and a
      forced refresh, which draws with it. */
  function SetEdge(s: IconState, edge: int, pixmap: Dims): (t: IconState)
    requires Valid(s)
    ensures Valid(t) && t.settings.edge == edge
    ensures t.pics.arrow == Some(Made(s.pics.made, pixmap))
    ensures s.pics.pixbuf.Some? && s.widget.visible && !s.widget.zoomEvent ==> t.pics.shown.Some?
  {
    var u := s.(settings := s.settings.(edge := edge),
                pics := s.pics.(arrow := Some(Made(s.pics.made, pixmap)), made := s.pics.made + 1));
    if s.pics.pixbuf.Some? && s.widget.visible && !s.widget.zoomEvent then
      ForcedRefreshDraws(u);
      Refresh(u, true)
    else Refresh(u, true)
  }

  /** The `effects` setter: a forced refresh, which draws. */
  function SetEffects(s: IconState, effects: bool): (t: IconState)
    requires Valid(s)
    ensures Valid(t) && t.settings.effects == effects
    ensures s.pics.pixbuf.Some? && s.widget.visible && !s.widget.zoomEvent ==> t.pics.shown.Some?
  {
    var u := s.(settings := s.settings.(effects := effects));
    if s.pics.pixbuf.Some? && s.widget.visible && !s.widget.zoomEvent then
      ForcedRefreshDraws(u);
      Refresh(u, true)
    else Refresh(u, true)
  }

  /** The `alpha` setter: only a different target refreshes. */
  function SetAlpha(s: IconState, alpha: int): (t: IconState)
    requires Valid(s)
    ensures Valid(t) && t.anim.targetAlpha == alpha
    ensures s.anim.targetAlpha == alpha ==> t == s
  {
    if s.anim.targetAlpha == alpha then s
    else Refresh(s.(anim := s.anim.(targetAlpha := alpha)), false)
  }

  /** The `size` setter: new maximum size and size request, then the picture
      and the emblem are set again so that they are rescaled. */
  function SetSize(s: IconState, size: int): (t: IconState)
    requires Valid(s)
    ensures Valid(t) && t.settings == s.settings.(size := size, maxSize := MaxSize(size))
    ensures s.anim.action == NoAction ==> RequestFits(t)
    ensures s.pics.pixbuf.Some? && s.pics.pixbuf.value.dims.width < MAX_SIZE && s.pics.pixbuf.value.dims.height < MAX_SIZE ==>
      t.pics.pixbuf == s.pics.pixbuf
    ensures t.pics.emblemOrig == s.pics.emblemOrig
    ensures s.pics.emblemOrig.Some? ==>
      t.pics.emblemScaled.Some?
      && t.pics.emblemScaled.value.dims == Scale(s.pics.emblemOrig.value, (MaxSize(size) / 3) as real, false, 0).0.dims
  {
    var s1 := SizeRequested(s.(settings := s.settings.(size := size, maxSize := MaxSize(size))));
    var s2 := SetPixbuf(s1, s1.pics.pixbuf);
    SetEmblem(s2, s2.pics.emblemOrig)
  }

  /** `show()`: start the show action, restore the overlay targets, and when
      the icon was invisible, restart it from size 1 with transparent
      overlays. */
  function Show(s: IconState): (t: IconState)
    requires Valid(s)
    ensures Valid(t)
    ensures t.widget.visible && t.widget.destroyed == s.widget.destroyed
    ensures t.anim.action == ShowAction || t.anim.action == NoAction
    ensures !s.widget.visible && s.pics.pixbuf.None? ==>
      t.anim.currentSize == 1 && t.anim.arrowCurrent == 0 && t.anim.emblemCurrent == 0
  {
    var s1 := EmblemRetargeted(ArrowRetargeted(s.(anim := s.anim.(action := ShowAction))));
    var s2 :=
      if !s.widget.visible then
        s1.(anim := s1.anim.(currentSize := 1, arrowCurrent := 0, emblemCurrent := 0),
            widget := s1.widget.(sizeRequest := (-1, -1), visible := true))
      else s1;
    RefreshOpen(s2, false);
    Refresh(s2, false)
  }

  /** `hide()`: nothing when invisible, otherwise start the hide action. */
  function Hide(s: IconState): (t: IconState)
    requires Valid(s)
    ensures Valid(t)
    ensures !s.widget.visible ==> t == s
    ensures s.widget.visible ==> t.anim.action == HideAction || (t.anim.action == NoAction && !t.widget.visible)
  {
    if !s.widget.visible then s
    else
      var h := s.(anim := s.anim.(action := HideAction), widget := s.widget.(sizeRequest := (-1, -1)));
      RefreshClosing(h, false);
      Refresh(h, false)
  }

  /** `destroy()`: an invisible icon is destroyed at once, a visible one
      starts the destroy action. */
  function Destroy(s: IconState): (t: IconState)
    requires Valid(s)
    ensures Valid(t)
    ensures !s.widget.visible ==> t == s.(widget := s.widget.(destroyed := true))
    ensures s.widget.visible ==> t.anim.action == DestroyAction || (t.anim.action == NoAction && t.widget.destroyed)
  {
    if !s.widget.visible then s.(widget := s.widget.(destroyed := true))
    else
      var d := s.(anim := s.anim.(action := DestroyAction), widget := s.widget.(sizeRequest := (-1, -1)));
      RefreshClosing(d, false);
      Refresh(d, false)
  }

  /** With effects off, hiding a visible icon that has a picture hides it at
      once, at size 1 with transparent overlays. */
  lemma HideWithoutEffects(s: IconState)
    requires Valid(s) && s.pics.pixbuf.Some? && s.widget.visible && !s.settings.effects && !s.widget.zoomEvent
    ensures var t := Hide(s);
      !t.widget.visible && t.anim.action == NoAction && t.anim.currentSize == 1
      && t.anim.arrowCurrent == 0 && t.anim.emblemCurrent == 0
  {
    var h := s.(anim := s.anim.(action := HideAction), widget := s.widget.(sizeRequest := (-1, -1)));
    RunToRestSettles(Jumped(h));
  }
}
