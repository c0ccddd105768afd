/** Aspect fit and fill: from a location in the view to the video and on to the 0..65535 range of the agent. */
module PointerGeometry {
  import opened Reals

  datatype Point = Point(x: real, y: real)

  datatype Size = Size(width: real, height: real) {
    predicate Positive() {
      width > 0.0 && height > 0.0
    }
  }

  datatype ScaleMode = AspectFit | AspectFill

  /** Where the video is drawn. */
  datatype Rect = Rect(width: real, height: real, xOffset: real, yOffset: real)

  function Draw(mode: ScaleMode, video: Size, view: Size): Rect
    requires video.Positive() && view.Positive()
  {
    var viewAspect := view.width / view.height;
    var videoAspect := video.width / video.height;
    PositiveQuotient(video.width, video.height);
    var drawWidth, drawHeight := view.height * videoAspect, view.width / videoAspect;
    var byWidth := Rect(drawWidth, view.height, (view.width - drawWidth) / 2.0, 0.0);
    var byHeight := Rect(view.width, drawHeight, 0.0, (view.height - drawHeight) / 2.0);
    match mode
    case AspectFill => if videoAspect > viewAspect then byWidth else byHeight
    case AspectFit => if videoAspect > viewAspect then byHeight else byWidth
  }

  function Clamp01(x: real): real {
    if x < 0.0 then 0.0 else if x > 1.0 then 1.0 else x
  }

  function GetNormalizedCoords(location: Point, mode: ScaleMode, video: Size, view: Size): Point
    requires video.Positive() && view.Positive()
  {
    DrawnShape(mode, video, view);
    Normalize(location, Draw(mode, video, view))
  }

  /** The clamped position of a location relative to a drawn rectangle. */
  function Normalize(location: Point, r: Rect): Point
    requires r.width > 0.0 && r.height > 0.0
  {
    Point(Clamp01((location.x - r.xOffset) / r.width), Clamp01((location.y - r.yOffset) / r.height))
  }

  /** The point of the view at which video point (u, v) appears. */
  function Appears(p: Point, r: Rect): Point {
    Point(r.xOffset + p.x * r.width, r.yOffset + p.y * r.height)
  }

  predicate UnitSquare(p: Point) {
    0.0 <= p.x <= 1.0 && 0.0 <= p.y <= 1.0
  }

  predicate Inside(p: Point, r: Rect) {
    r.xOffset <= p.x <= r.xOffset + r.width && r.yOffset <= p.y <= r.yOffset + r.height
  }

  predicate InView(p: Point, view: Size) {
    0.0 <= p.x <= view.width && 0.0 <= p.y <= view.height
  }

  // ---- The drawn rectangle ----

  /** The rectangle has the video's aspect and touches the view on one axis. */
  lemma DrawnShape(mode: ScaleMode, video: Size, view: Size)
    requires video.Positive() && view.Positive()
    ensures var r := Draw(mode, video, view);
            && r.width > 0.0 && r.height > 0.0
            && r.width * video.height == r.height * video.width
            && (r.width == view.width || r.height == view.height)
            && 2.0 * r.xOffset + r.width == view.width && 2.0 * r.yOffset + r.height == view.height
  {
  }

  /** Fit draws inside the view and fill covers it. */
  lemma FitInsideFillCovers(mode: ScaleMode, video: Size, view: Size)
    requires video.Positive() && view.Positive()
    ensures var r := Draw(mode, video, view);
            if mode == AspectFit
            then 0.0 <= r.xOffset && r.xOffset + r.width <= view.width
                 && 0.0 <= r.yOffset && r.yOffset + r.height <= view.height
            else r.xOffset <= 0.0 && view.width <= r.xOffset + r.width
                 && r.yOffset <= 0.0 && view.height <= r.yOffset + r.height
  {
    var a, b := view.width / view.height, video.width / video.height;
    PositiveQuotient(view.width, view.height);
    PositiveQuotient(video.width, video.height);
    ProductOrder(a, b, view.height);
    QuotientOfProduct(view.height, b);
    QuotientOrder(view.width, view.height * b, b);
    QuotientOrder(view.height * b, view.width, b);
  }

  // ---- Inverse and clamping ----

  /** Drawing a video point and reading its location back gives the point, in both modes. */
  lemma DrawThenRead(mode: ScaleMode, video: Size, view: Size, p: Point)
    requires video.Positive() && view.Positive() && UnitSquare(p)
    ensures GetNormalizedCoords(Appears(p, Draw(mode, video, view)), mode, video, view) == p
  {
    assert Draw(mode, video, view).width > 0.0 && Draw(mode, video, view).height > 0.0 by {
      DrawnShape(mode, video, view);
    }
    hide Draw;
    NormalizeInverse(p, Draw(mode, video, view));
  }

  lemma NormalizeInverse(p: Point, r: Rect)
    requires r.width > 0.0 && r.height > 0.0 && UnitSquare(p)
    ensures Normalize(Appears(p, r), r) == p
  {
    hide Clamp01;
    var location := Appears(p, r);
    AxisInverse(p.x, r.xOffset, r.width, location.x);
    AxisInverse(p.y, r.yOffset, r.height, location.y);
  }

  /** On one axis a fraction of the drawn length is read back, and is not clamped. */
  lemma AxisInverse(fraction: real, offset: real, length: real, location: real)
    requires length > 0.0 && 0.0 <= fraction <= 1.0 && location == offset + fraction * length
    ensures Clamp01((location - offset) / length) == fraction
  {
    QuotientOfProduct(fraction, length);
    assert location - offset == fraction * length;
  }

  /** Reading a location and drawing the result gives the location exactly when it lies in the drawn rectangle. */
  lemma ReadThenDrawIff(mode: ScaleMode, video: Size, view: Size, location: Point)
    requires video.Positive() && view.Positive()
    ensures var r := Draw(mode, video, view);
            Appears(GetNormalizedCoords(location, mode, video, view), r) == location <==> Inside(location, r)
  {
    var r := Draw(mode, video, view);
    DrawnShape(mode, video, view);
    AxisIff(location.x - r.xOffset, r.width);
    AxisIff(location.y - r.yOffset, r.height);
  }

  /** On one axis the clamp leaves a position alone exactly if it is within the drawn length. */
  lemma AxisIff(relative: real, length: real)
    requires length > 0.0
    ensures Clamp01(relative / length) * length == relative <==> 0.0 <= relative <= length
  {
    QuotientOfProduct(relative, length);
    QuotientOfProduct(0.0, length);
    QuotientOfProduct(1.0, length);
    QuotientOrder(0.0, relative, length);
    QuotientOrder(relative, length, length);
  }

  function Nearest(x: real, low: real, high: real): real {
    if x < low then low else if x > high then high else x
  }

  /** A location beside the picture is read as the nearest point of the picture. */
  lemma ReadsNearest(mode: ScaleMode, video: Size, view: Size, location: Point)
    requires video.Positive() && view.Positive()
    ensures var r := Draw(mode, video, view);
            Appears(GetNormalizedCoords(location, mode, video, view), r)
            == Point(Nearest(location.x, r.xOffset, r.xOffset + r.width),
                     Nearest(location.y, r.yOffset, r.yOffset + r.height))
  {
    var r := Draw(mode, video, view);
    assert r.width > 0.0 && r.height > 0.0 by {
      DrawnShape(mode, video, view);
    }
    hide Draw, Clamp01;
    AxisNearest(location.x - r.xOffset, r.width);
    AxisNearest(location.y - r.yOffset, r.height);
  }

  lemma AxisNearest(relative: real, length: real)
    requires length > 0.0
    ensures Clamp01(relative / length) * length == Nearest(relative, 0.0, length)
  {
    QuotientOfProduct(relative, length);
    QuotientBounds(relative, length, 0.0);
    QuotientBounds(relative, length, 1.0);
  }

  /** In fill mode no location in the view is clamped. */
  lemma FillNeverClamps(video: Size, view: Size, location: Point)
    requires video.Positive() && view.Positive() && InView(location, view)
    ensures Inside(location, Draw(AspectFill, video, view))
    ensures Appears(GetNormalizedCoords(location, AspectFill, video, view), Draw(AspectFill, video, view)) == location
  {
    hide Draw, GetNormalizedCoords;
    FitInsideFillCovers(AspectFill, video, view);
    ReadThenDrawIff(AspectFill, video, view, location);
  }

  // ---- The agent's absolute range ----

  /** The agent clamps a normalised coordinate, scales it to 65535 units and drops the fraction. */
  function AbsoluteUnits(n: real): (units: int)
    ensures 0 <= units <= 65535
  {
    (Clamp01(n) * 65535.0).Floor
  }

  /** The units for a touch at a location, on both axes. */
  function PointerPath(location: Point, mode: ScaleMode, video: Size, view: Size): (int, int)
    requires video.Positive() && view.Positive()
  {
    var p := GetNormalizedCoords(location, mode, video, view);
    (AbsoluteUnits(p.x), AbsoluteUnits(p.y))
  }

  /** Touching where video point p appears moves the pointer to p, less than one unit short on each axis. */
  lemma PathError(mode: ScaleMode, video: Size, view: Size, p: Point)
    requires video.Positive() && view.Positive() && UnitSquare(p)
    ensures var (x, y) := PointerPath(Appears(p, Draw(mode, video, view)), mode, video, view);
            && 0.0 <= p.x - x as real / 65535.0 < 1.0 / 65535.0
            && 0.0 <= p.y - y as real / 65535.0 < 1.0 / 65535.0
            && (p.x == 0.0 ==> x == 0) && (p.x == 1.0 ==> x == 65535)
            && (p.y == 0.0 ==> y == 0) && (p.y == 1.0 ==> y == 65535)
  {
    DrawThenRead(mode, video, view, p);
    hide Draw;
  }

  lemma UnitsMonotone(a: real, b: real)
    requires a <= b
    ensures AbsoluteUnits(a) <= AbsoluteUnits(b)
  {
  }

  /** Moving the touch right or down never moves the pointer left or up, inside the picture or beside it. */
  lemma PathMonotone(mode: ScaleMode, video: Size, view: Size, a: Point, b: Point)
    requires video.Positive() && view.Positive() && a.x <= b.x && a.y <= b.y
    ensures PointerPath(a, mode, video, view).0 <= PointerPath(b, mode, video, view).0
    ensures PointerPath(a, mode, video, view).1 <= PointerPath(b, mode, video, view).1
  {
    var r := Draw(mode, video, view);
    DrawnShape(mode, video, view);
    hide Draw;
    QuotientOrder(a.x - r.xOffset, b.x - r.xOffset, r.width);
    QuotientOrder(a.y - r.yOffset, b.y - r.yOffset, r.height);
    var p, q := GetNormalizedCoords(a, mode, video, view), GetNormalizedCoords(b, mode, video, view);
    UnitsMonotone(p.x, q.x);
    UnitsMonotone(p.y, q.y);
  }

  /** Every pointer position is reached by some touch inside the drawn picture. */
  lemma PathReaches(mode: ScaleMode, video: Size, view: Size, x: int, y: int) returns (location: Point)
    requires video.Positive() && view.Positive() && 0 <= x <= 65535 && 0 <= y <= 65535
    ensures Inside(location, Draw(mode, video, view)) && PointerPath(location, mode, video, view) == (x, y)
  {
    var r := Draw(mode, video, view);
    var p := Point(x as real / 65535.0, y as real / 65535.0);
    location := Appears(p, r);
    DrawThenRead(mode, video, view, p);
    ReadThenDrawIff(mode, video, view, location);
    assert p.x * 65535.0 == x as real && p.y * 65535.0 == y as real;
    hide Draw;
  }
}
