/**
 * Where the remote desktop is drawn in the viewer and how points are carried between the two
 * (Src/FrmViewer.cpp), over the reals and for sizes and a zoom factor that are positive.
 */
module ViewerGeometry {
  import opened Wrappers

  datatype Mode = Original | Zoom | ZoomToWindow | KeepAspect

  datatype Point = Point(x: real, y: real)

  datatype Rect = Rect(left: real, top: real, width: real, height: real)

  type Size = r: real | 0.0 < r witness 1.0

  /** The window, the desktop and how one is fitted to the other. */
  datatype Viewer = Viewer(width: Size, height: Size, deskWidth: Size, deskHeight: Size, zoom: Size, mode: Mode)

  lemma {:induction false} QuotientPositive(a: Size, b: Size)
    ensures 0.0 < a / b
  {
    assert a / b * b == a;
  }

  lemma {:induction false} ProductPositive(a: Size, b: Size)
    ensures 0.0 < a * b
  {
  }

  /** Lines 69-95. */
  function AspectRect(v: Viewer): (r: Rect)
    ensures 0.0 < r.width && 0.0 < r.height
  {
    var rateW, rateH := v.width / v.deskWidth, v.height / v.deskHeight;
    QuotientPositive(v.width, v.deskWidth);
    QuotientPositive(v.height, v.deskHeight);
    ProductPositive(v.deskWidth, rateW);
    ProductPositive(v.deskHeight, rateW);
    ProductPositive(v.deskWidth, rateH);
    ProductPositive(v.deskHeight, rateH);
    if rateW < rateH then
      var w, h := v.deskWidth * rateW, v.deskHeight * rateW;
      Rect(0.0, (v.height - h) / 2.0, w, h)
    else if rateW > rateH then
      var w, h := v.deskWidth * rateH, v.deskHeight * rateH;
      Rect((v.width - w) / 2.0, 0.0, w, h)
    else Rect(0.0, 0.0, v.width, v.height)
  }

  /** Lines 164-165 and 175-176: a coordinate of the window as one of the desktop. */
  function ToAxis(desk: Size, size: Size, offset: real, x: real): real { desk * (x - offset) / size }

  /** Lines 201-202 and 207-208: a coordinate of the desktop as one of the window. */
  function FromAxis(desk: Size, size: Size, offset: real, x: real): real { size * x / desk + offset }

  /** Lines 149-185; None where the source returns -1. */
  function PointToRemote(v: Viewer, p: Point): Option<Point>
  {
    match v.mode
    case Original => Some(p)
    case Zoom => Some(Point(p.x / v.zoom, p.y / v.zoom))
    case ZoomToWindow =>
      Some(Point(ToAxis(v.deskWidth, v.width, 0.0, p.x), ToAxis(v.deskHeight, v.height, 0.0, p.y)))
    case KeepAspect =>
      var r := AspectRect(v);
      if !InRect(r, p) then None
      else Some(Point(ToAxis(v.deskWidth, r.width, r.left, p.x), ToAxis(v.deskHeight, r.height, r.top, p.y)))
  }

  /** Lines 170-173, negated. */
  predicate InRect(r: Rect, p: Point)
  {
    r.left <= p.x <= r.left + r.width && r.top <= p.y <= r.top + r.height
  }

  /** Lines 187-216. */
  function PointFromRemote(v: Viewer, p: Point): Point
  {
    match v.mode
    case Original => p
    case Zoom => Point(p.x * v.zoom, p.y * v.zoom)
    case ZoomToWindow =>
      Point(FromAxis(v.deskWidth, v.width, 0.0, p.x), FromAxis(v.deskHeight, v.height, 0.0, p.y))
    case KeepAspect =>
      var r := AspectRect(v);
      Point(FromAxis(v.deskWidth, r.width, r.left, p.x), FromAxis(v.deskHeight, r.height, r.top, p.y))
  }

  // ----- arithmetic -----

  lemma {:induction false} MulMonotone(a: real, b: real, c: real)
    requires a <= b && 0.0 <= c
    ensures a * c <= b * c
  {
  }

  lemma {:induction false} MulStrict(a: real, b: real, c: real)
    requires a < b && 0.0 < c
    ensures a * c < b * c
  {
  }

  // ----- the rectangle -----

  /** One factor for both sides, the smaller of the two rates. */
  lemma {:induction false} AspectScale(v: Viewer) returns (k: real)
    ensures k * v.deskWidth <= v.width && k * v.deskHeight <= v.height
    ensures k * v.deskWidth == v.width || k * v.deskHeight == v.height
    ensures var r := AspectRect(v); r.width == k * v.deskWidth && r.height == k * v.deskHeight
    ensures var r := AspectRect(v); r.left == (v.width - r.width) / 2.0 && r.top == (v.height - r.height) / 2.0
  {
    var rateW, rateH := v.width / v.deskWidth, v.height / v.deskHeight;
    RateTimesSide(v.width, v.deskWidth, rateW);
    RateTimesSide(v.height, v.deskHeight, rateH);
    k := if rateW < rateH then rateW else rateH;
    MulMonotone(k, rateW, v.deskWidth);
    MulMonotone(k, rateH, v.deskHeight);
    assert k * v.deskWidth == v.deskWidth * k && k * v.deskHeight == v.deskHeight * k;
  }

  lemma {:induction false} RateTimesSide(a: real, b: Size, rate: real)
    requires rate == a / b
    ensures rate * b == a && b * rate == a
  {
  }

  /**
   * The rectangle lies in the window, is centred, has the ratio of the desktop, and no rectangle of that
   * ratio that fits the window is wider or higher.
   */
  lemma {:induction false} AspectRectIsLargest(v: Viewer, w: real, h: real)
    requires 0.0 <= w <= v.width && 0.0 <= h <= v.height && w * v.deskHeight == h * v.deskWidth
    ensures var r := AspectRect(v);
            && 0.0 <= r.left && 0.0 <= r.top && r.left + r.width <= v.width && r.top + r.height <= v.height
            && r.left == v.width - (r.left + r.width) && r.top == v.height - (r.top + r.height)
            && 0.0 < r.width && 0.0 < r.height && r.width * v.deskHeight == r.height * v.deskWidth
            && w <= r.width && h <= r.height
  {
    var k := AspectScale(v);
    var r := AspectRect(v);
    assert r.width * v.deskHeight == k * v.deskWidth * v.deskHeight == r.height * v.deskWidth;
    if k * v.deskWidth == v.width {
      HeightFollows(v, w, h, r.width, r.height);
    } else {
      WidthFollows(v, w, h, r.width, r.height);
    }
  }

  lemma {:induction false} HeightFollows(v: Viewer, w: real, h: real, rw: real, rh: real)
    requires w <= rw && w * v.deskHeight == h * v.deskWidth && rw * v.deskHeight == rh * v.deskWidth
    ensures h <= rh
  {
    MulMonotone(w, rw, v.deskHeight);
    if rh < h {
      MulStrict(rh, h, v.deskWidth);
    }
  }

  lemma {:induction false} WidthFollows(v: Viewer, w: real, h: real, rw: real, rh: real)
    requires h <= rh && w * v.deskHeight == h * v.deskWidth && rw * v.deskHeight == rh * v.deskWidth
    ensures w <= rw
  {
    MulMonotone(h, rh, v.deskWidth);
    if rw < w {
      MulStrict(rw, w, v.deskHeight);
    }
  }

  // ----- the maps -----

  /** A coordinate and its image satisfy one equation, from either side. */
  lemma {:induction false} ToAxisMeans(desk: Size, size: Size, offset: real, x: real, y: real)
    ensures y == ToAxis(desk, size, offset, x) <==> y * size == desk * (x - offset)
  {
    RateTimesSide(desk * (x - offset), size, ToAxis(desk, size, offset, x));
    if y * size == desk * (x - offset) {
      SameFactor(y, ToAxis(desk, size, offset, x), size);
    }
  }

  lemma {:induction false} FromAxisMeans(desk: Size, size: Size, offset: real, y: real, x: real)
    ensures x == FromAxis(desk, size, offset, y) <==> y * size == desk * (x - offset)
  {
    var u := size * y / desk;
    RateTimesSide(size * y, desk, u);
    if y * size == desk * (x - offset) {
      SameFactor(x - offset, u, desk);
    }
  }

  lemma {:induction false} SameFactor(a: real, b: real, c: Size)
    requires a * c == b * c
    ensures a == b
  {
    if a < b {
      MulStrict(a, b, c);
    } else if b < a {
      MulStrict(b, a, c);
    }
  }

  /** One coordinate: from the window into the desktop and back, and the other way round. */
  lemma {:induction false} AxisRoundTrip(desk: Size, size: Size, offset: real, x: real)
    ensures FromAxis(desk, size, offset, ToAxis(desk, size, offset, x)) == x
    ensures ToAxis(desk, size, offset, FromAxis(desk, size, offset, x)) == x
  {
    ToAxisMeans(desk, size, offset, x, ToAxis(desk, size, offset, x));
    FromAxisMeans(desk, size, offset, ToAxis(desk, size, offset, x), x);
    FromAxisMeans(desk, size, offset, x, FromAxis(desk, size, offset, x));
    ToAxisMeans(desk, size, offset, FromAxis(desk, size, offset, x), x);
  }

  /** One coordinate inside the rectangle is one inside the desktop. */
  lemma {:induction false} AxisInside(desk: Size, size: Size, offset: real, x: real)
    ensures offset <= x <= offset + size <==> 0.0 <= ToAxis(desk, size, offset, x) <= desk
  {
    var y, d := ToAxis(desk, size, offset, x), x - offset;
    ToAxisMeans(desk, size, offset, x, y);
    SameSign(y, d, size, desk);
    assert (desk - y) * size == (size - d) * desk;
    SameSign(desk - y, size - d, size, desk);
  }

  lemma {:induction false} SameSign(a: real, b: real, c: Size, d: Size)
    requires a * c == b * d
    ensures 0.0 <= a <==> 0.0 <= b
  {
    if a < 0.0 {
      MulStrict(a, 0.0, c);
      if 0.0 <= b {
        MulMonotone(0.0, b, d);
      }
    } else {
      MulMonotone(0.0, a, c);
      if b < 0.0 {
        MulStrict(b, 0.0, d);
      }
    }
  }

  /** A point the viewer accepts comes back to where it was. */
  lemma {:induction false} ToAndFromRemote(v: Viewer, p: Point)
    requires PointToRemote(v, p).Some?
    ensures PointFromRemote(v, PointToRemote(v, p).value) == p
  {
    match v.mode
    case Original =>
    case Zoom =>
      RateTimesSide(p.x, v.zoom, p.x / v.zoom);
      RateTimesSide(p.y, v.zoom, p.y / v.zoom);
    case ZoomToWindow =>
      AxisRoundTrip(v.deskWidth, v.width, 0.0, p.x);
      AxisRoundTrip(v.deskHeight, v.height, 0.0, p.y);
    case KeepAspect =>
      var r := AspectRect(v);
      AxisRoundTrip(v.deskWidth, r.width, r.left, p.x);
      AxisRoundTrip(v.deskHeight, r.height, r.top, p.y);
  }

  /** A point of the desktop, drawn in the viewer, is accepted there and is that point of the desktop. */
  lemma {:induction false} FromAndToRemote(v: Viewer, p: Point)
    requires v.mode.KeepAspect? ==> OnDesktop(v, p)
    ensures PointToRemote(v, PointFromRemote(v, p)) == Some(p)
  {
    match v.mode
    case Original =>
    case Zoom =>
      var q := PointFromRemote(v, p);
      RateTimesSide(q.x, v.zoom, q.x / v.zoom);
      RateTimesSide(q.y, v.zoom, q.y / v.zoom);
      SameFactor(q.x / v.zoom, p.x, v.zoom);
      SameFactor(q.y / v.zoom, p.y, v.zoom);
    case ZoomToWindow =>
      AxisRoundTrip(v.deskWidth, v.width, 0.0, p.x);
      AxisRoundTrip(v.deskHeight, v.height, 0.0, p.y);
    case KeepAspect =>
      var r := AspectRect(v);
      AxisRoundTrip(v.deskWidth, r.width, r.left, p.x);
      AxisRoundTrip(v.deskHeight, r.height, r.top, p.y);
      AxisInside(v.deskWidth, r.width, r.left, FromAxis(v.deskWidth, r.width, r.left, p.x));
      AxisInside(v.deskHeight, r.height, r.top, FromAxis(v.deskHeight, r.height, r.top, p.y));
  }

  predicate OnDesktop(v: Viewer, p: Point) { 0.0 <= p.x <= v.deskWidth && 0.0 <= p.y <= v.deskHeight }

  /** With the ratio kept, exactly the points of the window that show the desktop are accepted. */
  lemma {:induction false} AcceptedIffOnDesktop(v: Viewer, p: Point)
    requires v.mode.KeepAspect?
    ensures PointToRemote(v, p).Some? <==> exists q :: OnDesktop(v, q) && PointFromRemote(v, q) == p
    ensures PointToRemote(v, p).Some? ==> OnDesktop(v, PointToRemote(v, p).value)
  {
    var r := AspectRect(v);
    if PointToRemote(v, p).Some? {
      AxisInside(v.deskWidth, r.width, r.left, p.x);
      AxisInside(v.deskHeight, r.height, r.top, p.y);
      ToAndFromRemote(v, p);
    }
    forall q | OnDesktop(v, q) && PointFromRemote(v, q) == p
      ensures PointToRemote(v, p).Some?
    {
      FromAndToRemote(v, q);
    }
  }

  /** A pixel of the desktop and one of the window lie at the same part of a length, `offset` being where it begins. */
  predicate SamePart(x: real, y: real, desk: real, size: real, offset: real)
  {
    y * size == desk * (x - offset)
  }

  /**
   * Where a point of the window lies on the desktop: at the same place, at the place that the zoom factor brings
   * there, at the same part of the window, or at the same part of the rectangle if it is in it.
   */
  lemma {:induction false} RemoteIs(v: Viewer, p: Point, q: Point, r: Rect)
    requires r == AspectRect(v)
    ensures v.mode.Original? ==> (PointToRemote(v, p) == Some(q) <==> q == p)
    ensures v.mode.Zoom? ==> (PointToRemote(v, p) == Some(q) <==> q.x * v.zoom == p.x && q.y * v.zoom == p.y)
    ensures v.mode.ZoomToWindow? ==>
              (PointToRemote(v, p) == Some(q) <==>
               SamePart(p.x, q.x, v.deskWidth, v.width, 0.0) && SamePart(p.y, q.y, v.deskHeight, v.height, 0.0))
    ensures v.mode.KeepAspect? ==>
              (PointToRemote(v, p) == Some(q) <==>
               && r.left <= p.x <= r.left + r.width && r.top <= p.y <= r.top + r.height
               && SamePart(p.x, q.x, v.deskWidth, r.width, r.left) && SamePart(p.y, q.y, v.deskHeight, r.height, r.top))
  {
    hide AspectRect, ToAxis, SamePart;
    match v.mode
    case Original =>
    case Zoom =>
      UnzoomMeans(v.zoom, p.x, q.x);
      UnzoomMeans(v.zoom, p.y, q.y);
    case ZoomToWindow =>
      SamePartMeans(v.deskWidth, v.width, 0.0, p.x, q.x);
      SamePartMeans(v.deskHeight, v.height, 0.0, p.y, q.y);
    case KeepAspect =>
      SamePartMeans(v.deskWidth, r.width, r.left, p.x, q.x);
      SamePartMeans(v.deskHeight, r.height, r.top, p.y, q.y);
  }

  /** Where a point of the desktop is drawn in the window, by the same equations; it need not lie on the desktop. */
  lemma {:induction false} DrawnAt(v: Viewer, q: Point, p: Point, r: Rect)
    requires r == AspectRect(v)
    ensures v.mode.Original? ==> (PointFromRemote(v, q) == p <==> q == p)
    ensures v.mode.Zoom? ==> (PointFromRemote(v, q) == p <==> q.x * v.zoom == p.x && q.y * v.zoom == p.y)
    ensures v.mode.ZoomToWindow? ==>
              (PointFromRemote(v, q) == p <==>
               SamePart(p.x, q.x, v.deskWidth, v.width, 0.0) && SamePart(p.y, q.y, v.deskHeight, v.height, 0.0))
    ensures v.mode.KeepAspect? ==>
              (PointFromRemote(v, q) == p <==>
               SamePart(p.x, q.x, v.deskWidth, r.width, r.left) && SamePart(p.y, q.y, v.deskHeight, r.height, r.top))
  {
    hide AspectRect, FromAxis, SamePart;
    match v.mode
    case Original =>
    case Zoom =>
    case ZoomToWindow =>
      DrawnMeans(v.deskWidth, v.width, 0.0, p.x, q.x);
      DrawnMeans(v.deskHeight, v.height, 0.0, p.y, q.y);
    case KeepAspect =>
      DrawnMeans(v.deskWidth, r.width, r.left, p.x, q.x);
      DrawnMeans(v.deskHeight, r.height, r.top, p.y, q.y);
  }

  lemma {:induction false} DrawnMeans(desk: Size, size: Size, offset: real, x: real, y: real)
    ensures x == FromAxis(desk, size, offset, y) <==> SamePart(x, y, desk, size, offset)
  {
    FromAxisMeans(desk, size, offset, y, x);
  }

  lemma {:induction false} SamePartMeans(desk: Size, size: Size, offset: real, x: real, y: real)
    ensures y == ToAxis(desk, size, offset, x) <==> SamePart(x, y, desk, size, offset)
  {
    ToAxisMeans(desk, size, offset, x, y);
  }

  lemma {:induction false} UnzoomMeans(zoom: Size, x: real, y: real)
    ensures y == x / zoom <==> y * zoom == x
  {
    RateTimesSide(x, zoom, x / zoom);
    if y * zoom == x {
      SameFactor(y, x / zoom, zoom);
    }
  }
}
