/**
 * Tooltip sequencing (window/tooltips.go). Each tooltip request carries the window's
 * sequence number at the time it was made; `show` and `close` act only while the window's
 * number is still the same, so a callback from an older request does nothing.
 *
 * `show` places the window's last tooltip next to the rectangle it must avoid: below it,
 * narrowed to the view's width when too wide, moved left to fit, and flipped above it when
 * it would leave the view at the bottom. The tooltip's preferred sizes, the view's size and
 * the current time are inputs; the timer the window starts becomes an entry in `timers`.
 */
module Tooltips {
  import opened Wrappers
  import opened Geometry
  import opened RootViews

  /** The delay, in milliseconds, before a shown tooltip is dismissed. */
  const TooltipDismissalMs: nat := 3000

  /** A callback a timer runs: the close of a sequencer, known by its avoid rect and number. */
  datatype Callback = CloseTooltip(avoid: Rect, sequence: int)

  /** A callback to run once `delayMs` milliseconds have passed. */
  datatype Timer = Timer(callback: Callback, delayMs: nat)

  function Clamp0(v: real): (r: real)
    ensures r >= 0.0 && r >= v
    ensures v >= 0.0 ==> r == v
  {
    if v < 0.0 then 0.0 else v
  }

  /**
   * The tooltip's size: its preferred size when that fits the view's width; otherwise the
   * height it prefers at the view's width, and that width or, when it is still too wide,
   * the view's width.
   */
  function TipSize(pref: Size, prefAtWidth: Size, viewWidth: real): (r: Size)
    ensures r.width <= viewWidth
    ensures pref.width <= viewWidth ==> r == pref
    ensures viewWidth < pref.width ==> r.height == prefAtWidth.height
    ensures viewWidth < pref.width ==> r.width == Min(viewWidth, prefAtWidth.width)
  {
    if viewWidth < pref.width then
      Size(if viewWidth < prefAtWidth.width then viewWidth else prefAtWidth.width, prefAtWidth.height)
    else pref
  }

  /**
   * The tooltip's bounds: the size above; the avoid rect's left edge, clamped to the view's
   * left, unless that runs past the view's right, in which case the tip's right edge is
   * the view's; one unit below the avoid rect, clamped to the view's top, unless that runs
   * past the view's bottom, in which case one unit above the avoid rect, clamped again.
   */
  function Placement(avoid: Rect, pref: Size, prefAtWidth: Size, view: Size): (r: Rect)
    ensures r.y >= 0.0
    ensures r.x >= 0.0 && r.x + r.width <= view.width
    ensures r.width == TipSize(pref, prefAtWidth, view.width).width
    ensures r.height == TipSize(pref, prefAtWidth, view.width).height
  {
    var size := TipSize(pref, prefAtWidth, view.width);
    var x := Clamp0(avoid.x);
    var x := if view.width < x + size.width then view.width - size.width else x;
    var below := Clamp0(avoid.y + avoid.height + 1.0);
    var y := if view.height < below + size.height then Clamp0(avoid.y - (size.height + 1.0)) else below;
    Rect(x, y, size.width, size.height)
  }

  /** Without a need to move, the tip sits directly below the avoid rect, at its left edge. */
  lemma PlacedBelow(avoid: Rect, pref: Size, prefAtWidth: Size, view: Size)
    requires avoid.x >= 0.0 && avoid.y + avoid.height + 1.0 >= 0.0
    requires var s := TipSize(pref, prefAtWidth, view.width);
      avoid.x + s.width <= view.width && avoid.y + avoid.height + 1.0 + s.height <= view.height
    ensures var r := Placement(avoid, pref, prefAtWidth, view);
      r.x == avoid.x && r.y == avoid.y + avoid.height + 1.0
  {
  }

  /**
   * A tip that would leave the view at the bottom is flipped to end one unit above the
   * avoid rect, and only then clamped to the view's top.
   */
  lemma PlacedAbove(avoid: Rect, pref: Size, prefAtWidth: Size, view: Size)
    requires var s := TipSize(pref, prefAtWidth, view.width);
      view.height < Clamp0(avoid.y + avoid.height + 1.0) + s.height
    ensures var r := Placement(avoid, pref, prefAtWidth, view);
      r.y == Clamp0(avoid.y - (r.height + 1.0))
    ensures var r := Placement(avoid, pref, prefAtWidth, view);
      avoid.y - (r.height + 1.0) >= 0.0 ==> r.y + r.height + 1.0 == avoid.y
  {
  }

  /** The computation of `show`, step by step on one rect as the source does it. */
  method Place(avoid: Rect, pref: Size, prefAtWidth: Size, view: Size) returns (bounds: Rect)
    ensures bounds == Placement(avoid, pref, prefAtWidth, view)
  {
    bounds := Rect(avoid.x, avoid.y + avoid.height + 1.0, pref.width, pref.height);
    if bounds.x < 0.0 {
      bounds := bounds.(x := 0.0);
    }
    if bounds.y < 0.0 {
      bounds := bounds.(y := 0.0);
    }
    if view.width < bounds.width {
      if view.width < prefAtWidth.width {
        bounds := bounds.(x := 0.0);
        bounds := bounds.(width := view.width);
      } else {
        bounds := bounds.(width := prefAtWidth.width);
      }
      bounds := bounds.(height := prefAtWidth.height);
    }
    assert bounds.width == TipSize(pref, prefAtWidth, view.width).width;
    if view.width < bounds.x + bounds.width {
      bounds := bounds.(x := view.width - bounds.width);
    }
    if view.height < bounds.y + bounds.height {
      bounds := bounds.(y := avoid.y - (bounds.height + 1.0));
      if bounds.y < 0.0 {
        bounds := bounds.(y := 0.0);
      }
    }
  }

  /** The root's children once its previous tooltip, if any, has been taken out. */
  function Untipped(children: seq<WidgetId>, tip: Option<WidgetId>): (r: seq<WidgetId>)
    ensures tip.None? ==> r == children
    ensures tip.Some? ==> tip.value !in r && forall c | c in r :: c in children
  {
    if tip.Some? then Without(children, tip.value) else children
  }

  /** The repaint SetTooltip requests for the previous tooltip, if any. */
  function TipRepaint(tip: Option<WidgetId>): (r: seq<RootEffect>)
    ensures |r| == if tip.Some? then 1 else 0
    ensures tip.Some? ==> r[0] == RepaintWidget(tip.value)
  {
    if tip.Some? then [RepaintWidget(tip.value)] else []
  }

  /** The parts of a window that tooltips use. */
  class Window {
    var tooltipSequence: int
    var lastToolTip: WidgetId
    const root: RootView
    var lastTooltipShownAt: int
    var timers: seq<Timer>
    var log: seq<RootEffect>

    constructor (root: RootView, tip: WidgetId)
      ensures this.root == root && lastToolTip == tip
      ensures tooltipSequence == 0 && lastTooltipShownAt == 0 && timers == [] && log == []
    {
      this.root := root;
      lastToolTip := tip;
      tooltipSequence := 0;
      lastTooltipShownAt := 0;
      timers := [];
      log := [];
    }
  }

  /** A tooltip request: the window, the rect the tip must not cover, and the window's number then. */
  class Sequencer {
    const window: Window
    const avoid: Rect
    const sequence: int

    constructor (window: Window, avoid: Rect, sequence: int)
      ensures this.window == window && this.avoid == avoid && this.sequence == sequence
    {
      this.window := window;
      this.avoid := avoid;
      this.sequence := sequence;
    }

    /**
     * show: for a current request, the window's last tooltip gets its placement, becomes
     * the root's tooltip, the time is recorded, and exactly one dismissal is scheduled after
     * TooltipDismissal. A stale request changes nothing.
     */
    method Show(pref: Size, prefAtWidth: Size, view: Size, now: int)
      modifies window`lastTooltipShownAt, window`timers, window`log
      modifies window.root`children, window.root`tooltip, window.root`log
      ensures window.tooltipSequence != sequence ==> unchanged(window) && unchanged(window.root)
      ensures window.tooltipSequence == sequence ==>
                && window.log == old(window.log) + [SetBoundsOf(window.lastToolTip, Placement(avoid, pref, prefAtWidth, view))]
                && window.root.tooltip == Some(window.lastToolTip)
                && |window.root.children| > 0 && window.root.children[|window.root.children| - 1] == window.lastToolTip
                && window.root.children == Without(Untipped(old(window.root.children), old(window.root.tooltip)), window.lastToolTip)
                                           + [window.lastToolTip]
                && window.root.log == old(window.root.log) + TipRepaint(old(window.root.tooltip)) + [RepaintWidget(window.lastToolTip)]
                && window.lastTooltipShownAt == now
                && window.timers == old(window.timers) + [Timer(CloseTooltip(avoid, sequence), TooltipDismissalMs)]
    {
      if window.tooltipSequence == sequence {
        var tip := window.lastToolTip;
        var bounds := Place(avoid, pref, prefAtWidth, view);
        window.log := window.log + [SetBoundsOf(tip, bounds)];
        ghost var shown := window.log;
        window.root.SetTooltip(Some(tip));
        assert window.log == shown;
        window.lastTooltipShownAt := now;
        window.timers := window.timers + [Timer(CloseTooltip(avoid, sequence), TooltipDismissalMs)];
      }
    }

    /**
     * close: for a current request, the old tooltip is repainted and leaves the root's
     * children, the others keeping their order, and the root has no tooltip.
     */
    method Close()
      modifies window.root`children, window.root`tooltip, window.root`log
      ensures window.tooltipSequence != sequence ==> unchanged(window.root)
      ensures window.tooltipSequence == sequence ==> window.root.tooltip.None?
      ensures window.tooltipSequence == sequence ==>
                && window.root.children == Untipped(old(window.root.children), old(window.root.tooltip))
                && window.root.log == old(window.root.log) + TipRepaint(old(window.root.tooltip))
      ensures window.tooltipSequence == sequence && old(window.root.tooltip).Some? ==>
                old(window.root.tooltip).value !in window.root.children
    {
      if window.tooltipSequence == sequence {
        window.root.SetTooltip(None);
      }
    }
  }
}
