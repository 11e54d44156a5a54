/**
 * ImageLabel (ImageLabel.go): a non-interactive image, sized by the image itself or by a
 * requested size, and drawn centred in its inset bounds where it is smaller than them.
 * The image is known here only by its size; paint's single draw call is described by the
 * rectangle it draws in.
 */
module ImageLabels {
  import opened Wrappers
  import opened Geometry
  import opened Events

  /** The sizer a label is given: the label itself, or an imageLabelSizer with a fixed size. */
  datatype Sizer = NaturalSizer | FixedSizer(size: Size)

  datatype ImageLabel = ImageLabel(image: Size, sizer: Sizer, handlers: seq<(EventType, Handler)>)

  const PaintHandler: Handler := Handler("ImageLabel.paint")

  /**
   * NewImageLabelWithImageSize: a requested size with a non-positive dimension means the
   * image's own size.
   */
  function NewImageLabelWithImageSize(image: Size, size: Size): (l: ImageLabel)
    ensures l.image == image
    ensures l.sizer == NaturalSizer <==> size.width <= 0.0 || size.height <= 0.0
    ensures l.sizer.FixedSizer? ==> l.sizer.size == size
    ensures l.handlers == [(PaintType, PaintHandler)]
  {
    var sizer := if size.width <= 0.0 || size.height <= 0.0 then NaturalSizer else FixedSizer(size);
    ImageLabel(image, sizer, [(PaintType, PaintHandler)])
  }

  /** NewImageLabel: the image at its own size, which is the zero requested size. */
  function NewImageLabel(image: Size): (l: ImageLabel)
    ensures l.image == image && l.sizer == NaturalSizer
    ensures l == NewImageLabelWithImageSize(image, Size(0.0, 0.0))
  {
    NewImageLabelWithImageSize(image, Size(0.0, 0.0))
  }

  /** ImageLabel.Sizes: the image's size plus the border, as minimum, preferred and maximum. */
  function LabelSizes(l: ImageLabel, border: Option<Insets>): (r: Sizes)
    ensures r.min == r.pref == r.max
    ensures border.None? ==> r.pref == l.image
    ensures border.Some? ==> r.pref.width == l.image.width + border.value.left + border.value.right
    ensures border.Some? ==> r.pref.height == l.image.height + border.value.top + border.value.bottom
  {
    var s := WithBorder(l.image, border);
    Sizes(s, s, s)
  }

  /** imageLabelSizer.Sizes: the requested size plus the border, three times. */
  function FixedSizes(size: Size, border: Option<Insets>): (r: Sizes)
    ensures r.min == r.pref == r.max
    ensures border.None? ==> r.pref == size
    ensures border.Some? ==> r.pref.width == size.width + border.value.left + border.value.right
    ensures border.Some? ==> r.pref.height == size.height + border.value.top + border.value.bottom
  {
    var s := WithBorder(size, border);
    Sizes(s, s, s)
  }

  /** The sizes the installed sizer reports. */
  function SizerSizes(l: ImageLabel, border: Option<Insets>): (r: Sizes)
    ensures r.min == r.pref == r.max
  {
    match l.sizer
    case NaturalSizer => LabelSizes(l, border)
    case FixedSizer(size) => FixedSizes(size, border)
  }

  /**
   * The rectangle paint draws the image in: the inset bounds, narrowed to the image and
   * centred in each dimension where the image is smaller.
   */
  function DrawnRect(bounds: Rect, image: Size): (r: Rect)
    ensures image.width < bounds.width ==>
              r.width == image.width && r.x - bounds.x == (bounds.x + bounds.width) - (r.x + r.width)
    ensures image.width >= bounds.width ==> r.x == bounds.x && r.width == bounds.width
    ensures image.height < bounds.height ==>
              r.height == image.height && r.y - bounds.y == (bounds.y + bounds.height) - (r.y + r.height)
    ensures image.height >= bounds.height ==> r.y == bounds.y && r.height == bounds.height
    ensures image.width >= 0.0 && image.height >= 0.0 ==> Inside(r, bounds)
  {
    var b := if image.width < bounds.width
      then bounds.(x := bounds.x + (bounds.width - image.width) / 2.0, width := image.width)
      else bounds;
    if image.height < b.height then b.(y := b.y + (b.height - image.height) / 2.0, height := image.height) else b
  }
}
