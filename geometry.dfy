/**
 * Points, sizes, rectangles and insets with exact real coordinates. The toolkit stores
 * geometry as float64 but only adds, subtracts, compares and halves it, so exact reals keep
 * every property it relies on (rounding is not modelled).
 */
module Geometry {
  import opened Wrappers

  datatype Point = Point(x: real, y: real)

  datatype Size = Size(width: real, height: real)

  /** A rectangle: its origin and its extent. */
  datatype Rect = Rect(x: real, y: real, width: real, height: real)
  {
    function Origin(): Point { Point(x, y) }
    function Extent(): Size { Size(width, height) }
  }

  /** The minimum, preferred and maximum sizes of a widget. */
  datatype Sizes = Sizes(min: Size, pref: Size, max: Size)

  /** Margins on each side, as returned by a border. */
  datatype Insets = Insets(top: real, left: real, bottom: real, right: real)

  const Zero: Point := Point(0.0, 0.0)

  function Add(p: Point, q: Point): Point { Point(p.x + q.x, p.y + q.y) }

  function Sub(p: Point, q: Point): Point { Point(p.x - q.x, p.y - q.y) }

  function Max(a: real, b: real): real { if a < b then b else a }

  function Min(a: real, b: real): real { if a < b then a else b }

  /** A rectangle covers no area when either dimension is not positive. */
  predicate IsEmpty(r: Rect) { r.width <= 0.0 || r.height <= 0.0 }

  /** The same extent with the origin moved to (0, 0). */
  function ZeroLocation(r: Rect): Rect { Rect(0.0, 0.0, r.width, r.height) }

  /** `r` moved by `d`. */
  function Translate(r: Rect, d: Point): Rect { Rect(r.x + d.x, r.y + d.y, r.width, r.height) }

  /** Every point of `inner` is a point of `outer`. */
  predicate Inside(inner: Rect, outer: Rect)
  {
    outer.x <= inner.x && outer.y <= inner.y
    && inner.x + inner.width <= outer.x + outer.width
    && inner.y + inner.height <= outer.y + outer.height
  }

  /** The point lies in the half-open area of the rectangle. */
  predicate Contains(r: Rect, p: Point)
  {
    !IsEmpty(r) && r.x <= p.x && r.y <= p.y && p.x < r.x + r.width && p.y < r.y + r.height
  }

  /** The common area of two rectangles; an empty rectangle when they do not overlap. */
  function Intersect(r: Rect, o: Rect): (q: Rect)
    ensures !IsEmpty(q) ==> !IsEmpty(r) && !IsEmpty(o) && Inside(q, r) && Inside(q, o)
    ensures forall p :: Contains(q, p) <==> Contains(r, p) && Contains(o, p)
  {
    if IsEmpty(r) || IsEmpty(o) then r.(width := 0.0, height := 0.0)
    else
      var x := Max(r.x, o.x);
      var y := Max(r.y, o.y);
      var w := Min(r.x + r.width, o.x + o.width) - x;
      var h := Min(r.y + r.height, o.y + o.height) - y;
      if w > 0.0 && h > 0.0 then Rect(x, y, w, h) else Rect(x, y, 0.0, 0.0)
  }

  /** `r` shrunk by the insets on each side, never to a negative extent. */
  function InsetRect(r: Rect, i: Insets): (q: Rect)
    ensures q.width >= 0.0 && q.height >= 0.0
  {
    Rect(r.x + i.left, r.y + i.top,
         Max(r.width - (i.left + i.right), 0.0), Max(r.height - (i.top + i.bottom), 0.0))
  }

  /** A size grown by the insets on each side. */
  function AddInsets(s: Size, i: Insets): Size
  {
    Size(s.width + i.left + i.right, s.height + i.top + i.bottom)
  }

  /** A size grown by a border's insets, when there is a border. */
  function WithBorder(s: Size, border: Option<Insets>): Size
  {
    if border.Some? then AddInsets(s, border.value) else s
  }

  /** The least whole number not below `v`. */
  function Ceil(v: real): (r: real)
    ensures r.Floor as real == r
    ensures v <= r < v + 1.0
  {
    var f := (-v).Floor;
    assert f as real <= -v < f as real + 1.0;
    (-f) as real
  }

  /** Size.GrowToInteger: each dimension rounded up to a whole number. */
  function GrowToInteger(s: Size): Size
  {
    Size(Ceil(s.width), Ceil(s.height))
  }

  /**
   * Size.ConstrainForHint: no larger than the hint in each dimension, where a hint below one
   * means no constraint.
   */
  function ConstrainForHint(s: Size, hint: Size): (r: Size)
    ensures hint.width >= 1.0 ==> r.width == Min(s.width, hint.width)
    ensures hint.width < 1.0 ==> r.width == s.width
    ensures hint.height >= 1.0 ==> r.height == Min(s.height, hint.height)
    ensures hint.height < 1.0 ==> r.height == s.height
  {
    Size(if hint.width >= 1.0 && s.width > hint.width then hint.width else s.width,
         if hint.height >= 1.0 && s.height > hint.height then hint.height else s.height)
  }

  /** Clipping a non-empty rectangle to one that contains it changes nothing. */
  lemma IntersectInside(a: Rect, b: Rect)
    requires !IsEmpty(a) && Inside(a, b)
    ensures Intersect(a, b) == a
  {
  }

  lemma InsideTransitive(a: Rect, b: Rect, c: Rect)
    requires Inside(a, b) && Inside(b, c)
    ensures Inside(a, c)
  {
  }

  lemma InsideTranslate(a: Rect, b: Rect, d: Point)
    requires Inside(a, b)
    ensures Inside(Translate(a, d), Translate(b, d))
  {
  }
}
