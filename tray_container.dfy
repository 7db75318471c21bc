/** The container of a tray, from traylib/tray_container.py: it turns the
    size the toolkit allocates into the icon size written to the icon
    configuration, clamped between a minimum and a maximum, and asks for
    one and a half times the minimum across the panel. The window and
    applet containers (traylib/tray_window.py, traylib/tray_applet.py)
    differ only in how they derive the icon size from the allocation, so
    they are the variants of one class here. */
module TrayContainers {
  import opened Base
  import opened ConfigStore
  import opened IconConfigs

  /** Which container: the plain one, the tray window, or the panel
      applet. */
  datatype ContainerKind = Plain | TrayWindow | TrayApplet

  /** A `set_size_request(width, height)`; -1 leaves an axis free. */
  datatype SizeRequest = SizeRequest(width: int, height: int)

  /** `get_icon_size()` of each variant, from the last allocated size: the
      size itself, half of it, or three quarters of it less two, each
      truncated to an int. */
  function IconSizeFor(kind: ContainerKind, size: int): (r: int)
    ensures kind == Plain ==> r == size
    ensures kind == TrayWindow && size >= 0 ==> 2 * r <= size < 2 * r + 2
    ensures kind == TrayApplet && size >= 3 ==> 4 * r <= 3 * size - 8 < 4 * r + 4
  {
    match kind
    case Plain => size
    case TrayWindow => Trunc(size as real * 0.5)
    case TrayApplet => Trunc(size as real * 0.75 - 2.0)
  }

  /** `max(lo, min(x, hi))` */
  function Clamp(lo: int, x: int, hi: int): int {
    if x < hi then (if lo < x then x else lo)
    else (if lo < hi then hi else lo)
  }

  /** The clamped size lies between the bounds when they are ordered, is
      the input when that already does, and is the nearer bound otherwise;
      with the bounds out of order the minimum wins. */
  lemma ClampBounds(lo: int, x: int, hi: int)
    ensures lo <= hi ==> lo <= Clamp(lo, x, hi) <= hi
    ensures lo <= x <= hi ==> Clamp(lo, x, hi) == x
    ensures x < lo ==> Clamp(lo, x, hi) == lo
    ensures lo <= hi < x ==> Clamp(lo, x, hi) == hi
    ensures hi < lo ==> Clamp(lo, x, hi) == lo
  {
  }

  /** The size request that `update_icon_size` makes: `int(min_size * 1.5)`
      across the panel, the other axis free. */
  function CrossRequest(vertical: bool, minSize: int): (r: SizeRequest)
    ensures vertical ==> r.height == -1 && (minSize >= 0 ==> 2 * r.width <= 3 * minSize < 2 * r.width + 2)
    ensures !vertical ==> r.width == -1 && (minSize >= 0 ==> 2 * r.height <= 3 * minSize < 2 * r.height + 2)
  {
    var across := Trunc(minSize as real * 1.5);
    if vertical then SizeRequest(across, -1) else SizeRequest(-1, across)
  }

  class TrayContainer {
    const kind: ContainerKind
    const vertical: bool
    /** The icon configuration whose `size` the container sets. */
    const iconConfig: IconConfig
    /** `__size`: the last allocated size along the cross axis. */
    var size: int
    var minSize: int
    var maxSize: int
    /** The last size request made, if any. */
    var request: Option<SizeRequest>

    predicate Valid()
      reads this, iconConfig, iconConfig.store
    {
      iconConfig.Valid()
    }

    constructor (minSize: int, maxSize: int, vertical: bool, kind: ContainerKind, iconConfig: IconConfig)
      requires iconConfig.Valid()
      ensures Valid()
      ensures this.minSize == minSize && this.maxSize == maxSize && this.vertical == vertical
      ensures this.kind == kind && this.iconConfig == iconConfig
      ensures size == 0 && request == None
    {
      this.kind := kind;
      this.vertical := vertical;
      this.iconConfig := iconConfig;
      this.minSize := minSize;
      this.maxSize := maxSize;
      size := 0;
      request := None;
    }

    /** `get_icon_size()` */
    function GetIconSize(): int
      reads this
    {
      IconSizeFor(kind, size)
    }

    /** `update_icon_size(min_size, max_size)`: the bounds are stored, the
        configured icon size becomes the container's icon size clamped to
        them (notifying the configuration's observers only if it changes),
        and the cross-axis size request is made. */
    method UpdateIconSize(min: int, max: int) returns (calls: seq<Call>)
      requires Valid()
      modifies this, iconConfig.store
      ensures Valid()
      ensures minSize == min && maxSize == max && size == old(size)
      ensures var target := Clamp(min, IconSizeFor(kind, old(size)), max);
        && iconConfig.store.attributes == Written(old(iconConfig.store.attributes), "size", Int(target))
        && (PyEq(old(iconConfig.store.attributes)["size"].value, Int(target)) ==> calls == [])
        && (!PyEq(old(iconConfig.store.attributes)["size"].value, Int(target)) ==>
              calls == Notify(iconConfig.store.objects, "update_option_size"))
        && (min <= max ==> min <= target <= max)
      ensures iconConfig.store.objects == old(iconConfig.store.objects)
      ensures request == Some(CrossRequest(vertical, min))
    {
      maxSize := max;
      minSize := min;
      var s := GetIconSize();
      ClampBounds(min, s, max);
      calls := iconConfig.SetOption("size", Int(Clamp(min, s, max)));
      request := Some(CrossRequest(vertical, minSize));
    }

    /** `__size_allocate`: the allocated width for a vertical container,
        else the height; an unchanged size does nothing, a new one is stored
        and the icon size updated with the stored bounds. */
    method SizeAllocate(width: int, height: int) returns (calls: seq<Call>)
      requires Valid()
      modifies this, iconConfig.store
      ensures Valid()
      ensures var s := if vertical then width else height;
        && (s == old(size) ==>
              && calls == [] && size == old(size) && minSize == old(minSize) && maxSize == old(maxSize)
              && request == old(request)
              && iconConfig.store.attributes == old(iconConfig.store.attributes))
        && (s != old(size) ==>
              && size == s && minSize == old(minSize) && maxSize == old(maxSize)
              && request == Some(CrossRequest(vertical, old(minSize)))
              && iconConfig.store.attributes ==
                   Written(old(iconConfig.store.attributes), "size",
                           Int(Clamp(old(minSize), IconSizeFor(kind, s), old(maxSize)))))
      ensures iconConfig.store.objects == old(iconConfig.store.objects)
    {
      var s := if vertical then width else height;
      if s == size {
        return [];
      }
      size := s;
      calls := UpdateIconSize(minSize, maxSize);
    }
  }
}
