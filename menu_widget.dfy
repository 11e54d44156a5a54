/**
 * The drawn menu item of the widget menu package (widget/menu/MenuItem.go): its highlight
 * state and how the mouse and keyboard handlers change it, the colours it paints with, and
 * its sizes.
 *
 * What the embedded widget block provides is an input here: the local inset bounds, a
 * mouse point already converted from window coordinates, the enabled and focused flags.
 * Repaint requests and dispatched events are recorded in `log`. Colours are the theme's
 * names for them; font measurements are parameters.
 */
module MenuWidget {
  import opened Wrappers
  import opened Geometry
  import opened Events
  import KeyDownEvent

  type MenuId = nat

  /** The backgrounds of the theme: the disabled, highlighted, focus-blended and plain ones. */
  datatype Background = DisabledBackground | HighlightedBackground | FocusedBackground | PlainBackground

  datatype TextColor = TextWhenDisabled | TextWhenLight | TextWhenDark

  /** What the handlers ask of the rest of the toolkit. */
  datatype Request = Repaint | DispatchClosing | DispatchSelection

  /** The theme's spacing. */
  datatype Theme = Theme(hMargin: real, vMargin: real, keySpacing: real)

  /** The measured key name and modifier text of an item whose key code has a mapping. */
  datatype KeyMeasure = KeyMeasure(keySize: Size, modSize: Size)

  const PaintHandler: Handler := Handler("MenuItem.paint")
  const MouseDownHandler: Handler := Handler("MenuItem.mouseDown")
  const MouseDraggedHandler: Handler := Handler("MenuItem.mouseDragged")
  const MouseUpHandler: Handler := Handler("MenuItem.mouseUp")
  const MouseEnteredHandler: Handler := Handler("MenuItem.mouseEntered")
  const MouseMovedHandler: Handler := Handler("MenuItem.mouseMoved")
  const MouseExitedHandler: Handler := Handler("MenuItem.mouseExited")
  const KeyDownHandler: Handler := Handler("MenuItem.keyDown")

  /** The registrations every item makes, in order. */
  const StandardHandlers: seq<(EventType, Handler)> := [
    (PaintType, PaintHandler), (MouseDownType, MouseDownHandler),
    (MouseDraggedType, MouseDraggedHandler), (MouseUpType, MouseUpHandler),
    (MouseEnteredType, MouseEnteredHandler), (MouseMovedType, MouseMovedHandler),
    (MouseExitedType, MouseExitedHandler), (KeyDownType, KeyDownHandler)]

  /** Sizes: the measured title and key texts with the theme's margins, the same three times. */
  function ItemSizes(theme: Theme, titleSize: Size, keyCode: int, key: Option<KeyMeasure>,
                     hint: Size, border: Option<Insets>): (r: Sizes)
    ensures r.min == r.pref == r.max
    ensures border.None? && hint.width >= 1.0 ==> r.pref.width <= hint.width
    ensures border.None? && hint.height >= 1.0 ==> r.pref.height <= hint.height
  {
    var pref := GrowToInteger(Size(titleSize.width + theme.hMargin * 2.0 + theme.keySpacing,
                                   titleSize.height + theme.vMargin * 2.0));
    var pref := if keyCode == 0 then pref
      else if key.None? then GrowToInteger(pref)
      else
        var k := key.value;
        GrowToInteger(Size(pref.width + k.keySize.width + GrowToInteger(k.modSize).width,
                           Max(pref.height, k.keySize.height)));
    var pref := WithBorder(ConstrainForHint(pref, hint), border);
    Sizes(pref, pref, pref)
  }

  class MenuItem {
    const title: string
    const keyCode: int
    const keyModifiers: nat
    const menu: Option<MenuId>
    const handlers: Handlers
    var enabled: bool
    var focused: bool
    var highlighted: bool
    var menuOpen: bool
    var log: seq<Request>

    /**
     * NewMenuItemWithModifiers: an item with the standard handlers, and the given one for
     * Selection when there is one.
     */
    constructor (title: string, keyCode: int, modifiers: nat, handler: Option<Handler>)
      ensures this.title == title && this.keyCode == keyCode && keyModifiers == modifiers
      ensures fresh(handlers)
      ensures handlers.entries == StandardHandlers + (if handler.Some? then [(SelectionType, handler.value)] else [])
      ensures enabled && !focused && !highlighted && !menuOpen && menu.None? && log == []
    {
      this.title := title;
      this.keyCode := keyCode;
      keyModifiers := modifiers;
      menu := None;
      enabled := true;
      focused := false;
      highlighted := false;
      menuOpen := false;
      log := [];
      var h := new Handlers();
      h.Add(PaintType, PaintHandler);
      h.Add(MouseDownType, MouseDownHandler);
      h.Add(MouseDraggedType, MouseDraggedHandler);
      h.Add(MouseUpType, MouseUpHandler);
      h.Add(MouseEnteredType, MouseEnteredHandler);
      h.Add(MouseMovedType, MouseMovedHandler);
      h.Add(MouseExitedType, MouseExitedHandler);
      h.Add(KeyDownType, KeyDownHandler);
      if handler.Some? {
        h.Add(SelectionType, handler.value);
      }
      handlers := h;
    }

    /** currentBackground: disabled first, then highlighted or open, then focused, else plain. */
    function CurrentBackground(): (b: Background)
      reads this`enabled, this`highlighted, this`menuOpen, this`focused
      ensures b == DisabledBackground <==> !enabled
      ensures b == HighlightedBackground <==> enabled && (highlighted || menuOpen)
      ensures b == FocusedBackground <==> enabled && !highlighted && !menuOpen && focused
      ensures b == PlainBackground <==> enabled && !highlighted && !menuOpen && !focused
    {
      if !enabled then DisabledBackground
      else if highlighted || menuOpen then HighlightedBackground
      else if focused then FocusedBackground
      else PlainBackground
    }

    /**
     * textColor: the disabled text colour whenever the item is disabled, else the one that
     * reads on the background, by whether its luminance is above 0.65.
     */
    function TextColorOf(isLight: Background -> bool): (c: TextColor)
      reads this`enabled, this`highlighted, this`menuOpen, this`focused
      ensures c == TextWhenDisabled <==> !enabled
      ensures enabled ==> (c == TextWhenLight <==> isLight(CurrentBackground()))
    {
      if !enabled then TextWhenDisabled
      else if isLight(CurrentBackground()) then TextWhenLight
      else TextWhenDark
    }

    /** mouseDown: highlights the item and repaints it. */
    method MouseDown()
      modifies this`highlighted, this`log
      ensures highlighted && log == old(log) + [Repaint]
    {
      highlighted := true;
      log := log + [Repaint];
    }

    /**
     * mouseOver, behind mouseDragged, mouseEntered, mouseMoved and mouseExited: while enabled,
     * the item is highlighted exactly when the point is in its inset bounds, and repaints
     * only when that changes.
     */
    method MouseOver(bounds: Rect, local: Point)
      modifies this`highlighted, this`log
      ensures !enabled ==> highlighted == old(highlighted) && log == old(log)
      ensures enabled ==> highlighted == Contains(bounds, local)
      ensures enabled ==> log == old(log) + (if highlighted != old(highlighted) then [Repaint] else [])
    {
      if enabled {
        var h := Contains(bounds, local);
        if highlighted != h {
          highlighted := h;
          log := log + [Repaint];
        }
      }
    }

    /**
     * mouseUp: always ends the highlight and repaints; a release inside the inset bounds then
     * dispatches Closing and Selection, in that order.
     */
    method MouseUp(bounds: Rect, local: Point)
      modifies this`highlighted, this`log
      ensures !highlighted
      ensures log == old(log) + [Repaint] + (if Contains(bounds, local) then [DispatchClosing, DispatchSelection] else [])
    {
      highlighted := false;
      log := log + [Repaint];
      if Contains(bounds, local) {
        log := log + [DispatchClosing];
        log := log + [DispatchSelection];
      }
    }

    /**
     * keyDown: a control-action key finishes the event and then dispatches Selection; any
     * other key leaves the event and the log alone.
     */
    method KeyDown(evt: KeyDownEvent.KeyDown, isControlAction: int -> bool)
      modifies evt`finished, this`log
      ensures isControlAction(evt.code) ==> evt.finished && log == old(log) + [DispatchSelection]
      ensures !isControlAction(evt.code) ==> evt.finished == old(evt.finished) && log == old(log)
      ensures evt.discarded == old(evt.discarded)
    {
      if isControlAction(evt.code) {
        evt.Finish();
        log := log + [DispatchSelection];
      }
    }

    /** SubMenu: the menu this item opens, if any. */
    function SubMenu(): (m: Option<MenuId>)
      ensures m == menu
    {
      menu
    }
  }
}
