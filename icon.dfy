/** The `Icon` widget of traylib/icon.py as an object whose private fields
    the frame step, the refresh and the property setters update in place.
    Each method is proved to change the fields exactly as the matching
    function of module IconAnimation says, so the lemmas proved there
    (staging, termination, settling, anchors) hold of the object. */
module Icons {
  import opened Base
  import opened PixbufHelper
  import opened IconAnimation

  class Icon {
    /** The animated values and the running action (`__target_size`,
        `__current_size`, the three alpha pairs, `__zoom_action`). */
    var anim: Anim
    /** The pictures held (`__pixbuf`, `__pixbuf_current`, `__emblem_orig`,
        `__emblem_scaled`, `__arrow`, `__canvas`, the image shown). */
    var pics: Pictures
    /** The properties set from outside (`__size`, `__max_size`, the zoom
        factors, `__has_arrow`, `__edge`, `__effects`). */
    var settings: Settings
    /** Visibility, destruction, the size request and the timer handle. */
    var widget: Widget

    /** The icon's fields as one value. */
    function State(): IconState
      reads this
    {
      IconState(anim, pics, settings, widget)
    }

    /** `Icon.__init__`: size 32, no picture, opaque, no overlays, no action. */
    constructor ()
      ensures State() == Initial() && Valid(State())
    {
      anim := Anim(32, 1, 0xff, 0xff, 0, 0, 0, 0, NoAction);
      pics := Pictures(None, None, None, None, None, None, None, 0);
      settings := Settings(32, 48, 1.0, 1.0, 1.0, false, 0, false);
      widget := Widget(false, false, (48, -1), false, false);
    }

    /** `__update_canvas`: a new canvas only when its size changes. */
    method UpdateCanvas()
      modifies this
      ensures pics.canvas.Some? && pics.canvas.value.dims == CanvasDims(anim, pics.emblemScaled, settings)
      ensures old(pics.canvas).Some? && old(pics.canvas).value.dims == pics.canvas.value.dims ==>
        pics == old(pics)
      ensures !(old(pics.canvas).Some? && old(pics.canvas).value.dims == pics.canvas.value.dims) ==>
        pics == old(pics).(canvas := Some(Made(old(pics.made), pics.canvas.value.dims)), made := old(pics.made) + 1)
      ensures anim == old(anim) && settings == old(settings) && widget == old(widget)
    {
      var dims := CanvasDims(anim, pics.emblemScaled, settings);
      if pics.canvas.Some? && pics.canvas.value.dims == dims {
        return;
      }
      pics := pics.(canvas := Some(Made(pics.made, dims)), made := pics.made + 1);
    }

    /** `__update_size_request`: only when no action runs. */
    method UpdateSizeRequest()
      modifies this
      ensures State() == SizeRequested(old(State()))
    {
      if anim.action != NoAction {
        return;
      }
      if settings.edge == LEFT || settings.edge == RIGHT {
        widget := widget.(sizeRequest := (-1, settings.maxSize));
      } else {
        widget := widget.(sizeRequest := (settings.maxSize, -1));
      }
    }

    /** `__refresh`: draw one frame, then either finish or move every value
        one step; the result says whether another step is wanted. */
    method Tick() returns (more: bool)
      requires Valid(State())
      modifies this
      ensures (State(), more) == Step(old(State()))
    {
      if pics.pixbuf.None? {
        widget := widget.(zoomEvent := false);
        return false;
      }
      ghost var s0 := State();
      if pics.pixbufCurrent.None? || anim.currentSize != anim.targetSize {
        var scaled := Scale(pics.pixbuf.value, anim.currentSize as real, true, pics.made);
        pics := pics.(pixbufCurrent := Some(scaled.0), made := scaled.1);
      }
      UpdateCanvas();
      pics := pics.(shown := Some(Compose(anim, settings, pics.arrow, pics.canvas.value.dims, pics.pixbufCurrent.value.dims)));
      assert State() == Draw(s0);

      if AtTarget(anim) {
        if anim.action == HideAction || anim.action == DestroyAction {
          if anim.arrowCurrent > 0 || anim.emblemCurrent > 0 {
            anim := anim.(arrowTarget := 0, emblemTarget := 0);
            return true;
          } else if anim.currentSize > 1 {
            anim := anim.(targetSize := 1);
            return true;
          } else if anim.action == HideAction {
            widget := widget.(visible := false);
          } else {
            widget := widget.(destroyed := true);
          }
        }
        var ended := anim.action;
        anim := anim.(action := NoAction);
        widget := widget.(zoomEvent := false);
        if ended == ShowAction {
          UpdateSizeRequest();
        }
        return false;
      }

      var size := anim.currentSize;
      if size > anim.targetSize {
        size := size - 1;
      } else if size < anim.targetSize {
        size := size + 1;
      }
      anim := anim.(currentSize := size,
                    currentAlpha := Toward(anim.currentAlpha, anim.targetAlpha, ALPHA_STEP),
                    arrowCurrent := Toward(anim.arrowCurrent, anim.arrowTarget, ALPHA_STEP),
                    emblemCurrent := Toward(anim.emblemCurrent, anim.emblemTarget, ALPHA_STEP));
      return true;
    }

    /** `_refresh(force)`: recompute the target size unless closing, stop
        early when nothing moves or a tick is pending, then either take one
        step and install the timer, or jump to the targets and run the steps
        to the end. */
    method Refresh(force: bool)
      requires Valid(State())
      modifies this
      ensures State() == IconAnimation.Refresh(old(State()), force)
    {
      if pics.pixbuf.None? || !widget.visible {
        return;
      }
      if !Closing(anim.action) {
        anim := anim.(targetSize := TargetSize(settings.size, settings.zoomFactor, settings.maxSize));
        if !force && AtTarget(anim) {
          return;
        }
      }
      if widget.zoomEvent {
        return;
      }
      if settings.effects {
        var more := Tick();
        if more {
          widget := widget.(zoomEvent := true, timerLive := true);
        }
      } else {
        anim := anim.(arrowCurrent := anim.arrowTarget, emblemCurrent := anim.emblemTarget,
                      currentAlpha := anim.targetAlpha, currentSize := anim.targetSize);
        pics := pics.(pixbufCurrent := None);
        ghost var goal := RunToRest(State());
        var more := Tick();
        while more
          invariant Valid(State())
          invariant more ==> RunToRest(State()) == goal
          invariant !more ==> State() == goal
          decreases more, Stage(anim), Dist(anim)
        {
          ghost var before := anim;
          more := Tick();
          if more {
            AdvanceDecreases(before);
          }
        }
      }
    }

    /** The timeout callback: one step; the source goes away when the step
        wants no successor. */
    method TimerFired()
      requires Valid(State())
      modifies this
      ensures State() == IconAnimation.TimerFired(old(State()))
    {
      var more := Tick();
      if !more {
        widget := widget.(timerLive := false);
      }
    }

    /** `__update_arrow_target_alpha` */
    method UpdateArrowTargetAlpha()
      modifies this
      ensures State() == ArrowRetargeted(old(State()))
    {
      if Closing(anim.action) {
        return;
      }
      anim := anim.(arrowTarget := if settings.hasArrow then ARROW_ALPHA else 0);
    }

    /** `__update_emblem_target_alpha` */
    method UpdateEmblemTargetAlpha()
      modifies this
      ensures State() == EmblemRetargeted(old(State()))
    {
      if Closing(anim.action) {
        return;
      }
      anim := anim.(emblemTarget := if pics.emblemOrig.Some? then EMBLEM_ALPHA else 0);
    }

    /** The `emblem` setter, without the assertion that clearing trips. */
    method SetEmblem(e: Option<Picture>)
      requires Valid(State()) && (e.Some? ==> Positive(e.value.dims))
      modifies this
      ensures State() == IconAnimation.SetEmblem(old(State()), e)
    {
      var oldEmblem := pics.emblemOrig;
      pics := pics.(emblemOrig := e);
      if e.Some? {
        var scaled := Scale(e.value, (settings.maxSize / 3) as real, false, pics.made);
        pics := pics.(emblemScaled := Some(scaled.0), made := scaled.1);
      }
      UpdateEmblemTargetAlpha();
      Refresh(e != oldEmblem);
    }

    /** The `pixbuf` setter. */
    method SetPixbuf(p: Option<Picture>)
      requires Valid(State()) && (p.Some? ==> Positive(p.value.dims))
      modifies this
      ensures State() == IconAnimation.SetPixbuf(old(State()), p)
    {
      var oldPixbuf := pics.pixbuf;
      pics := pics.(pixbuf := p);
      if p.Some? && (p.value.dims.width >= MAX_SIZE || p.value.dims.height >= MAX_SIZE) {
        var scaled := ScaledDown(p.value, pics.made);
        pics := pics.(pixbuf := Some(scaled.0), made := scaled.1);
      }
      var changed := pics.pixbuf != oldPixbuf;
      if changed {
        pics := pics.(pixbufCurrent := None);
      }
      Refresh(changed);
    }

    /** The `has_arrow` setter. */
    method SetHasArrow(b: bool)
      requires Valid(State())
      modifies this
      ensures State() == IconAnimation.SetHasArrow(old(State()), b)
    {
      settings := settings.(hasArrow := b);
      UpdateArrowTargetAlpha();
      Refresh(false);
    }

    /** The `zoom_factor` setter (the pointer taken to be outside the icon). */
    method SetZoomFactor(z: real)
      requires Valid(State())
      modifies this
      ensures State() == IconAnimation.SetZoomFactor(old(State()), z)
    {
      var oldZoom := settings.zoomBase;
      settings := settings.(zoomBase := ClampZoom(z));
      settings := settings.(zoomOrig := settings.zoomBase);
      if oldZoom != settings.zoomBase {
        settings := settings.(zoomFactor := settings.zoomBase);
        Refresh(false);
      }
    }

    /** The `edge` setter; `pixmap` is the size of the arrow picture chosen. */
    method SetEdge(e: int, pixmap: Dims)
      requires Valid(State())
      modifies this
      ensures State() == IconAnimation.SetEdge(old(State()), e, pixmap)
    {
      settings := settings.(edge := e);
      pics := pics.(arrow := Some(Made(pics.made, pixmap)), made := pics.made + 1);
      Refresh(true);
    }

    /** The `effects` setter. */
    method SetEffects(b: bool)
      requires Valid(State())
      modifies this
      ensures State() == IconAnimation.SetEffects(old(State()), b)
    {
      settings := settings.(effects := b);
      Refresh(true);
    }

    /** The `alpha` setter. */
    method SetAlpha(alpha: int)
      requires Valid(State())
      modifies this
      ensures State() == IconAnimation.SetAlpha(old(State()), alpha)
    {
      if anim.targetAlpha == alpha {
        return;
      }
      anim := anim.(targetAlpha := alpha);
      Refresh(false);
    }

    /** The `size` setter. */
    method SetSize(n: int)
      requires Valid(State())
      modifies this
      ensures State() == IconAnimation.SetSize(old(State()), n)
    {
      settings := settings.(size := n, maxSize := MaxSize(n));
      UpdateSizeRequest();
      SetPixbuf(pics.pixbuf);
      SetEmblem(pics.emblemOrig);
    }

    /** `show()` */
    method Show()
      requires Valid(State())
      modifies this
      ensures State() == IconAnimation.Show(old(State()))
    {
      var wasVisible := widget.visible;
      anim := anim.(action := ShowAction);
      UpdateArrowTargetAlpha();
      UpdateEmblemTargetAlpha();
      if !wasVisible {
        widget := widget.(sizeRequest := (-1, -1));
        anim := anim.(currentSize := 1, arrowCurrent := 0, emblemCurrent := 0);
        widget := widget.(visible := true);
      }
      Refresh(false);
    }

    /** `hide()` */
    method Hide()
      requires Valid(State())
      modifies this
      ensures State() == IconAnimation.Hide(old(State()))
    {
      if !widget.visible {
        return;
      }
      widget := widget.(sizeRequest := (-1, -1));
      anim := anim.(action := HideAction);
      Refresh(false);
    }

    /** `destroy()` */
    method Destroy()
      requires Valid(State())
      modifies this
      ensures State() == IconAnimation.Destroy(old(State()))
    {
      if !widget.visible {
        widget := widget.(destroyed := true);
        return;
      }
      widget := widget.(sizeRequest := (-1, -1));
      anim := anim.(action := DestroyAction);
      Refresh(false);
    }
  }
}
