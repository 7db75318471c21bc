/** The aspect-preserving scaling rule of traylib/pixbuf_helper.py, on the
    dimensions of a picture only. */
module PixbufHelper {
  import opened Base

  /** The width and height of a picture. */
  datatype Dims = Dims(width: int, height: int)

  /** A picture the toolkit can hold: both sides at least one pixel. */
  predicate Positive(d: Dims) {
    d.width >= 1 && d.height >= 1
  }

  /** Whether `scale_pixbuf_to_size` rescales a picture whose larger side
      (the width when it is strictly larger, else the height) is `major`. */
  predicate Rescales(major: int, n: int, scaleUp: bool) {
    major > n || (major < n && scaleUp)
  }

  /** Whether `scale_pixbuf_to_size` makes a new picture rather than
      returning the one it was given. */
  predicate WillRescale(d: Dims, size: real, scaleUp: bool) {
    if d.width > d.height then Rescales(d.width, Trunc(size), scaleUp)
    else Rescales(d.height, Trunc(size), scaleUp)
  }

  /** `scale_pixbuf_to_size(pixbuf, size, scale_up)`: `size` is truncated to
      an integer, the larger side becomes that size and the other side keeps
      the aspect ratio, rounded toward zero but never below one pixel. */
  function ScaleToSize(d: Dims, size: real, scaleUp: bool): (r: Dims)
    requires Positive(d)
    ensures !WillRescale(d, size, scaleUp) ==> r == d
  {
    var n := Trunc(size);
    if d.width > d.height then
      if Rescales(d.width, n, scaleUp) then Dims(n, Max1(Trunc((n * d.height) as real / d.width as real))) else d
    else
      if Rescales(d.height, n, scaleUp) then Dims(Max1(Trunc((n * d.width) as real / d.height as real)), n) else d
  }

  /** `max(1, x)` */
  function Max1(x: int): int {
    if x < 1 then 1 else x
  }

  /** The larger side, as the rule chooses it. */
  function Major(d: Dims): int {
    if d.width > d.height then d.width else d.height
  }

  /** With `scale_up` off, a picture whose larger side fits is returned as it is. */
  lemma NoScaleUpKeepsSmall(d: Dims, size: real)
    requires Positive(d) && Major(d) <= Trunc(size)
    ensures ScaleToSize(d, size, false) == d
  {
  }

  /** A picture whose larger side already has the size is never rescaled. */
  lemma ExactSizeUnchanged(d: Dims, size: real, scaleUp: bool)
    requires Positive(d) && Major(d) == Trunc(size)
    ensures ScaleToSize(d, size, scaleUp) == d
  {
  }

  /** For a positive size, a rescaled picture has the size as its larger side
      and a smaller side between 1 and the size, which is the proportional
      side rounded down (or 1 when that rounds to 0). */
  lemma {:induction false} RescaledBounds(d: Dims, size: real, scaleUp: bool)
    requires Positive(d) && Trunc(size) >= 1
    requires ScaleToSize(d, size, scaleUp) != d
    ensures var r := ScaleToSize(d, size, scaleUp); var n := Trunc(size);
      && Positive(r)
      && Major(r) == n
      && 1 <= r.width <= n && 1 <= r.height <= n
      && (d.width > d.height ==>
            r.height == 1 || r.height * d.width <= n * d.height < (r.height + 1) * d.width)
      && (d.width <= d.height ==>
            r.width == 1 || r.width * d.height <= n * d.width < (r.width + 1) * d.height)
  {
    var n := Trunc(size);
    if d.width > d.height {
      ProportionalSide(n, d.height, d.width);
    } else {
      ProportionalSide(n, d.width, d.height);
    }
  }

  /** The truncated proportional side `int(n * minor / major)` is below `n`
      when the minor side is shorter, at most `n` otherwise, and is the
      floor of the exact quotient. */
  lemma ProportionalSide(n: int, minor: int, major: int)
    requires n >= 1 && 1 <= minor <= major
    ensures var q := Trunc((n * minor) as real / major as real);
      && 0 <= q <= n
      && (minor < major ==> q < n)
      && q * major <= n * minor < (q + 1) * major
  {
    TruncQuotient(n * minor, major);
    QuotientBounds(n, minor, major);
  }

  /** The same bounds for the integer quotient. */
  lemma QuotientBounds(n: int, minor: int, major: int)
    requires n >= 1 && 1 <= minor <= major
    ensures var q := (n * minor) / major;
      && 0 <= q <= n
      && (minor < major ==> q < n)
      && q * major <= n * minor < (q + 1) * major
  {
    var p := n * minor;
    var q := p / major;
    DivBounds(p, major);
    assert (q + 1) * major == q * major + major;
    MulMonotone(minor, major, n);
    assert p <= major * n;
    if q > n {
      MulMonotone(n + 1, q, major);
    }
    if minor < major && q >= n {
      MulMonotone(n, q, major);
      MulStrict(minor, major, n);
    }
  }

  lemma DivBounds(p: int, m: int)
    requires p >= 0 && m >= 1
    ensures 0 <= p / m
    ensures (p / m) * m <= p < (p / m) * m + m
  {
  }

  lemma MulMonotone(a: int, b: int, c: int)
    requires a <= b && c >= 0
    ensures a * c <= b * c
  {
    assert b * c == a * c + (b - a) * c;
  }

  lemma MulStrict(a: int, b: int, c: int)
    requires a < b && c >= 1
    ensures c * a < b * c
  {
    assert b * c == a * c + (b - a) * c;
  }

  /** Truncating the exact quotient of naturals is integer division. */
  lemma TruncQuotient(a: int, b: int)
    requires a >= 0 && b >= 1
    ensures Trunc(a as real / b as real) == a / b
  {
    var x := a as real / b as real;
    var q := a / b;
    var r := a % b;
    assert a == q * b + r && 0 <= r < b;
    assert x == q as real + r as real / b as real by {
      assert a as real == q as real * b as real + r as real;
    }
    assert 0.0 <= r as real / b as real < 1.0;
    assert x >= 0.0;
  }

  /** Scaling a picture again to the same positive size changes nothing. */
  lemma ScaleIdempotent(d: Dims, size: real, scaleUp: bool)
    requires Positive(d) && Trunc(size) >= 1
    ensures Positive(ScaleToSize(d, size, scaleUp))
    ensures ScaleToSize(ScaleToSize(d, size, scaleUp), size, scaleUp) == ScaleToSize(d, size, scaleUp)
  {
    var r := ScaleToSize(d, size, scaleUp);
    if r != d {
      RescaledBounds(d, size, scaleUp);
      if d.width > d.height {
        ProportionalSide(Trunc(size), d.height, d.width);
      }
    }
  }
}
