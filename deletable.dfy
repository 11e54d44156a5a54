/**
 * The standard Delete menu item (widget/Deletable.go): an item with no key modifiers and two
 * handlers. On Selection it deletes through the key window's focus when that focus can be
 * deleted from; on Validate it marks the event invalid unless deleting is possible now.
 * Which window is the key window and what its focus is are inputs, summed up as a `Focus`.
 */
module Deletables {
  import opened Events
  import opened MenuItems

  /** The key window's focus, as far as the Delete item is concerned. */
  datatype Focus =
    | NoKeyWindow
    | NotDeletable
    | Deletable(canDelete: bool)

  /** A call the handlers make on the focus. */
  datatype FocusCall = CallDelete

  const SelectionHandler: Handler := Handler("Delete.Selection")

  const ValidateHandler: Handler := Handler("Delete.Validate")

  /** The Validate event: handlers may mark it invalid, or finish it. */
  class Validate {
    var valid: bool
    var finished: bool

    constructor ()
      ensures valid && !finished
    {
      valid := true;
      finished := false;
    }

    method MarkInvalid()
      modifies this`valid
      ensures !valid
    {
      valid := false;
    }
  }

  /** The Selection handler's calls: one Delete exactly when the focus is Deletable. */
  function SelectionCalls(f: Focus): (calls: seq<FocusCall>)
    ensures CallDelete in calls <==> f.Deletable?
    ensures |calls| <= 1
  {
    match f
    case Deletable(_) => [CallDelete]
    case _ => []
  }

  /** Whether the Validate handler leaves the event valid: only a focus that can delete now. */
  function DeleteValid(f: Focus): (valid: bool)
    ensures !valid <==> f.NoKeyWindow? || f.NotDeletable? || (f.Deletable? && !f.canDelete)
  {
    match f
    case Deletable(can) => can
    case _ => false
  }

  /**
   * The Validate handler: marks the event invalid unless the focus can delete; it never
   * finishes the event.
   */
  method ValidateDelete(evt: Validate, f: Focus)
    modifies evt`valid
    ensures evt.valid == (old(evt.valid) && DeleteValid(f))
  {
    var valid := false;
    if f.Deletable? {
      valid := f.canDelete;
    }
    if !valid {
      evt.MarkInvalid();
    }
  }

  /**
   * AddDeleteItem: the item the menu adds, with its modifiers cleared and the Selection and
   * Validate handlers registered in that order.
   */
  method AddDeleteItem(platform: PlatformItem, defaultModifiers: nat) returns (item: Item)
    ensures fresh(item) && item.title == "Delete" && item.keyModifiers == 0
    ensures item.eventHandlers != null && fresh(item.eventHandlers)
    ensures item.eventHandlers.entries == [(SelectionType, SelectionHandler), (ValidateType, ValidateHandler)]
  {
    item := new Item(platform, "Delete", defaultModifiers);
    item.SetKeyModifiers(0);
    var handlers := item.EventHandlers();
    handlers.Add(SelectionType, SelectionHandler);
    handlers.Add(ValidateType, ValidateHandler);
  }
}
