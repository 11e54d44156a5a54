/**
 * The root view of a window (window/root_view.go): a block whose children are the content
 * block, the menu bar when the bar is itself a widget, and the tooltip while one is shown,
 * and the root layout that stacks the bar above the content.
 *
 * Widgets are known by identity. The children list of the embedded block is a sequence;
 * a child added to it is first taken out of the list, as Block.AddChild does with a child's
 * former parent. Repaint and SetBounds calls on the children are recorded in `log`. The
 * sizes the toolkit reports for the content and the bar are inputs.
 */
module RootViews {
  import opened Wrappers
  import opened Geometry

  type WidgetId = nat

  type WindowId = nat

  /** A menu bar; only a bar that is itself a widget takes a place among the children. */
  datatype Bar = Bar(id: WidgetId, isWidget: bool)

  /** What the root view asks of its children. */
  datatype RootEffect = RepaintWidget(w: WidgetId) | SetBoundsOf(w: WidgetId, bounds: Rect)

  datatype LayoutKind = NoLayout | RootLayout

  /** The widget a bar places among the children, if it is one. */
  function BarWidget(bar: Option<Bar>): (w: Option<WidgetId>)
    ensures w.Some? <==> bar.Some? && bar.value.isWidget
    ensures w.Some? ==> w.value == bar.value.id
  {
    if bar.Some? && bar.value.isWidget then Some(bar.value.id) else None
  }

  /** `s` with `w` in position `index`, or at the end when the index is past it. */
  function InsertAt<T>(s: seq<T>, index: nat, w: T): (r: seq<T>)
    ensures |r| == |s| + 1
    ensures index <= |s| ==> r[index] == w
    ensures index > |s| ==> r[|s|] == w
    ensures forall i | 0 <= i < |s| :: s[i] in r
    ensures index == 0 ==> r == [w] + s
  {
    var i := if index > |s| then |s| else index;
    var r := s[..i] + [w] + s[i..];
    assert forall k | 0 <= k < |s| :: s[k] == (if k < i then r[k] else r[k + 1]);
    r
  }

  /**
   * adjustSizeForBarSize: the bar's height is added, and the width becomes the larger of the
   * two widths.
   */
  function AdjustForBar(size: Size, bar: Size): (r: Size)
    ensures r.height == size.height + bar.height
    ensures r.width >= size.width && r.width >= bar.width
    ensures r.width == size.width || r.width == bar.width
  {
    Size(Max(size.width, bar.width), size.height + bar.height)
  }

  /**
   * RootLayout.Sizes: the content's sizes for the hint, each of the three adjusted by the
   * bar's preferred size when the menu bar is a widget.
   */
  function RootSizes(content: Sizes, bar: Option<Bar>, barPref: Size): (r: Sizes)
    ensures BarWidget(bar).None? ==> r == content
    ensures BarWidget(bar).Some? ==>
              r == Sizes(AdjustForBar(content.min, barPref), AdjustForBar(content.pref, barPref),
                         AdjustForBar(content.max, barPref))
  {
    if BarWidget(bar).Some? then
      Sizes(AdjustForBar(content.min, barPref), AdjustForBar(content.pref, barPref),
            AdjustForBar(content.max, barPref))
    else content
  }

  predicate SizeAtMost(a: Size, b: Size)
  {
    a.width <= b.width && a.height <= b.height
  }

  /** Adjusting for the same bar keeps minimum, preferred and maximum in order. */
  lemma RootSizesOrdered(content: Sizes, bar: Option<Bar>, barPref: Size)
    requires SizeAtMost(content.min, content.pref) && SizeAtMost(content.pref, content.max)
    ensures var r := RootSizes(content, bar, barPref);
      SizeAtMost(r.min, r.pref) && SizeAtMost(r.pref, r.max)
  {
  }

  /** RootLayout.Layout: the bar's bounds, at the origin, full width and its preferred height. */
  function BarBounds(local: Rect, barPref: Size): (r: Rect)
    ensures r.x == 0.0 && r.y == 0.0
    ensures r.width == local.width && r.height == barPref.height
  {
    Rect(0.0, 0.0, local.width, barPref.height)
  }

  /**
   * RootLayout.Layout: the content's bounds, the local bounds with the bar's height taken off
   * the top when the menu bar is a widget.
   */
  function ContentBounds(local: Rect, barHeight: Option<real>): (r: Rect)
    ensures barHeight.None? ==> r == local
    ensures r.x == local.x && r.width == local.width
    ensures r.y + r.height == local.y + local.height
    ensures barHeight.Some? ==> r.y == local.y + barHeight.value
    ensures barHeight.Some? && 0.0 <= barHeight.value <= local.height ==> Inside(r, local)
  {
    if barHeight.Some? then local.(y := local.y + barHeight.value, height := local.height - barHeight.value)
    else local
  }

  /** With local bounds at the origin, the content starts where the bar ends. */
  lemma BarAboveContent(local: Rect, barPref: Size)
    requires local.y == 0.0
    ensures var b := BarBounds(local, barPref);
      ContentBounds(local, Some(barPref.height)).y == b.y + b.height
  {
  }

  class RootView {
    const window: WindowId
    const content: WidgetId
    var layout: LayoutKind
    var children: seq<WidgetId>
    var menuBar: Option<Bar>
    var tooltip: Option<WidgetId>
    var log: seq<RootEffect>

    /**
     * The children hold no widget twice and include the content; a widget bar is the first
     * child and a tooltip is a child; the three are different widgets.
     */
    ghost predicate Valid()
      reads this
    {
      && NoDuplicates(children)
      && content in children
      && (BarWidget(menuBar).Some? ==>
            |children| > 0 && children[0] == BarWidget(menuBar).value && BarWidget(menuBar).value != content)
      && (tooltip.Some? ==> tooltip.value in children && tooltip.value != content)
      && (BarWidget(menuBar).Some? && tooltip.Some? ==> BarWidget(menuBar).value != tooltip.value)
    }

    /** newRootView: the root layout installed, and the content block as the only child. */
    constructor (window: WindowId, content: WidgetId)
      ensures this.window == window && this.content == content
      ensures layout == RootLayout && children == [content]
      ensures menuBar.None? && tooltip.None? && log == []
      ensures Valid()
    {
      this.window := window;
      this.content := content;
      layout := RootLayout;
      menuBar := None;
      tooltip := None;
      log := [];
      children := [content];
    }

    /** RemoveChild: the widget is no longer among the children; the others keep their order. */
    method RemoveChild(w: WidgetId)
      modifies this`children
      ensures children == Without(old(children), w)
    {
      children := Without(children, w);
    }

    /** AddChildAtIndex: the widget, taken out of the list first, goes in at `index`. */
    method AddChildAtIndex(w: WidgetId, index: nat)
      modifies this`children
      ensures children == InsertAt(Without(old(children), w), index, w)
    {
      children := InsertAt(Without(children, w), index, w);
    }

    /** AddChild: the widget, taken out of the list first, goes in last. */
    method AddChild(w: WidgetId)
      modifies this`children
      ensures children == Without(old(children), w) + [w]
    {
      children := Without(children, w) + [w];
    }

    /**
     * SetMenuBar: a previous widget bar leaves the children, and a new widget bar becomes
     * the first child; the content stays a child.
     */
    method SetMenuBar(bar: Option<Bar>)
      modifies this`children, this`menuBar
      ensures menuBar == bar
      ensures var rest := if BarWidget(old(menuBar)).Some? then Without(old(children), BarWidget(old(menuBar)).value)
                          else old(children);
        children == if BarWidget(bar).Some? then [bar.value.id] + Without(rest, bar.value.id) else rest
      ensures old(Valid()) && (BarWidget(bar).Some? ==> bar.value.id != content && tooltip != Some(bar.value.id))
              ==> Valid()
    {
      ghost var wasValid := Valid();
      if menuBar.Some? && menuBar.value.isWidget {
        RemoveChild(menuBar.value.id);
      } else {
        assert BarWidget(menuBar).None?;
      }
      menuBar := bar;
      if bar.Some? && bar.value.isWidget {
        AddChildAtIndex(bar.value.id, 0);
      }
      if wasValid && (BarWidget(bar).Some? ==> bar.value.id != content && tooltip != Some(bar.value.id)) {
        ValidAfterBar(old(children), old(menuBar), bar);
      }
    }

    /** The facts behind SetMenuBar's invariant, stated on the values involved. */
    lemma ValidAfterBar(before: seq<WidgetId>, oldBar: Option<Bar>, bar: Option<Bar>)
      requires NoDuplicates(before) && content in before
      requires tooltip.Some? ==> tooltip.value in before && tooltip.value != content
      requires BarWidget(oldBar).Some? ==> BarWidget(oldBar).value != content
      requires BarWidget(oldBar).Some? && tooltip.Some? ==> BarWidget(oldBar).value != tooltip.value
      requires BarWidget(bar).Some? ==> bar.value.id != content && tooltip != Some(bar.value.id)
      requires menuBar == bar
      requires var rest := if BarWidget(oldBar).Some? then Without(before, BarWidget(oldBar).value) else before;
        children == if BarWidget(bar).Some? then [bar.value.id] + Without(rest, bar.value.id) else rest
      ensures Valid()
    {
    }

    /**
     * SetTooltip: a previous tooltip is repainted and leaves the children; a new one is
     * appended and then repainted. Without a new one, the old one is no longer a child.
     */
    method SetTooltip(tip: Option<WidgetId>)
      modifies this`children, this`tooltip, this`log
      ensures tooltip == tip
      ensures var rest := if old(tooltip).Some? then Without(old(children), old(tooltip).value) else old(children);
        children == if tip.Some? then Without(rest, tip.value) + [tip.value] else rest
      ensures log == old(log) + (if old(tooltip).Some? then [RepaintWidget(old(tooltip).value)] else [])
                              + (if tip.Some? then [RepaintWidget(tip.value)] else [])
      ensures tip.None? && old(tooltip).Some? ==> old(tooltip).value !in children
      ensures tip.Some? ==> children[|children| - 1] == tip.value
      ensures old(Valid()) && (tip.Some? ==> tip.value != content && BarWidget(menuBar) != tip) ==> Valid()
    {
      ghost var wasValid := Valid();
      ghost var before := children;
      ghost var oldTip := tooltip;
      if tooltip.Some? {
        log := log + [RepaintWidget(tooltip.value)];
        RemoveChild(tooltip.value);
      }
      ghost var rest := children;
      ghost var mid := log;
      tooltip := tip;
      if tip.Some? {
        AddChild(tip.value);
        log := log + [RepaintWidget(tip.value)];
      }
      assert log == mid + (if tip.Some? then [RepaintWidget(tip.value)] else []);
      if wasValid && (tip.Some? ==> tip.value != content && BarWidget(menuBar) != tip) {
        ValidAfterTooltip(before, oldTip, rest, tip);
      }
    }

    /** The facts behind SetTooltip's invariant, stated on the values involved. */
    lemma ValidAfterTooltip(before: seq<WidgetId>, oldTip: Option<WidgetId>, rest: seq<WidgetId>, tip: Option<WidgetId>)
      requires NoDuplicates(before) && content in before
      requires BarWidget(menuBar).Some? ==>
                 |before| > 0 && before[0] == BarWidget(menuBar).value && BarWidget(menuBar).value != content
      requires oldTip.Some? ==> oldTip.value in before && oldTip.value != content
      requires BarWidget(menuBar).Some? && oldTip.Some? ==> BarWidget(menuBar).value != oldTip.value
      requires rest == if oldTip.Some? then Without(before, oldTip.value) else before
      requires tip.Some? ==> tip.value != content && BarWidget(menuBar) != tip
      requires tooltip == tip
      requires children == if tip.Some? then Without(rest, tip.value) + [tip.value] else rest
      ensures Valid()
    {
      if BarWidget(menuBar).Some? {
        var b := BarWidget(menuBar).value;
        if oldTip.Some? {
          WithoutKeepsHead(before, oldTip.value);
        }
        if tip.Some? {
          WithoutKeepsHead(rest, tip.value);
        }
      }
      if tip.Some? {
        assert NoDuplicates(children) by {
          var r := Without(rest, tip.value);
          forall i, j | 0 <= i < j < |children| ensures children[i] != children[j] {
            if j == |r| {
              assert children[j] == tip.value && children[i] == r[i];
            } else {
              assert children[i] == r[i] && children[j] == r[j];
            }
          }
        }
        assert tip.value == children[|children| - 1];
      }
    }

    /**
     * RootLayout.Layout: a widget bar is laid out across the top at its preferred height,
     * and the content below it; without one the content gets the whole local bounds.
     */
    method Layout(local: Rect, barPref: Size)
      modifies this`log
      ensures BarWidget(menuBar).None? ==> log == old(log) + [SetBoundsOf(content, ContentBounds(local, None))]
      ensures BarWidget(menuBar).Some? ==>
                log == old(log) + [SetBoundsOf(BarWidget(menuBar).value, BarBounds(local, barPref)),
                                   SetBoundsOf(content, ContentBounds(local, Some(barPref.height)))]
    {
      var bounds := local;
      if menuBar.Some? && menuBar.value.isWidget {
        log := log + [SetBoundsOf(menuBar.value.id, Rect(0.0, 0.0, local.width, barPref.height))];
        bounds := bounds.(y := bounds.y + barPref.height);
        bounds := bounds.(height := bounds.height - barPref.height);
      }
      log := log + [SetBoundsOf(content, bounds)];
    }
  }

  /** Taking out a value other than the first keeps the first element first. */
  lemma WithoutKeepsHead(s: seq<WidgetId>, x: WidgetId)
    requires |s| > 0 && s[0] != x
    ensures |Without(s, x)| > 0 && Without(s, x)[0] == s[0]
  {
    assert Without(s, x) == [s[0]] + Without(s[1..], x);
  }
}
