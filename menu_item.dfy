/**
 * The item of the menu package (menu/MenuItem.go): a platform item with a title, the
 * lazily created handler registry, and the lookups of its submenu and parent target.
 * The platform calls behind it are not part of this model: the submenu the platform reports
 * is a parameter, and the key-modifier mask it is given is kept in a field.
 */
module MenuItems {
  import opened Wrappers
  import opened Events

  type PlatformItem = nat

  type PlatformMenu = nat

  type MenuId = nat

  /** The package's registry from platform menus to menus. */
  type MenuMap = map<PlatformMenu, MenuId>

  class Item {
    const item: PlatformItem
    const title: string
    var eventHandlers: Handlers?
    var keyModifiers: nat

    /** An item as the menu package creates it: no handler registry yet. */
    constructor (item: PlatformItem, title: string, keyModifiers: nat)
      ensures this.item == item && this.title == title && this.keyModifiers == keyModifiers
      ensures eventHandlers == null
    {
      this.item := item;
      this.title := title;
      this.keyModifiers := keyModifiers;
      eventHandlers := null;
    }

    /** PlatformPtr: the platform item the menu item was made from. */
    function PlatformPtr(): (p: PlatformItem)
      ensures p == item
    {
      item
    }

    /** Title: the title given at creation. */
    function Title(): (t: string)
      ensures t == title
    {
      title
    }

    /** SetKeyModifiers: hands the mask to the platform item, kept here as a field. */
    method SetKeyModifiers(mask: nat)
      modifies this`keyModifiers
      ensures keyModifiers == mask
    {
      keyModifiers := mask;
    }

    /** SubMenu: the menu registered for the platform's submenu, or none. */
    function SubMenu(menuMap: MenuMap, platformSub: PlatformMenu): (r: Option<MenuId>)
      ensures r.None? <==> platformSub !in menuMap
      ensures r.Some? ==> r.value == menuMap[platformSub]
    {
      if platformSub in menuMap then Some(menuMap[platformSub]) else None
    }

    /**
     * EventHandlers: the registry, created empty on the first call and the same object on
     * every later one.
     */
    method EventHandlers() returns (h: Handlers)
      modifies this`eventHandlers
      ensures eventHandlers == h
      ensures old(eventHandlers) != null ==> h == old(eventHandlers)
      ensures old(eventHandlers) == null ==> fresh(h) && h.entries == []
    {
      if eventHandlers == null {
        eventHandlers := new Handlers();
      }
      h := eventHandlers;
    }

    /** ParentTarget: whatever the package-level ParentTarget reports. */
    function ParentTarget(packageParent: Option<TargetId>): (t: Option<TargetId>)
      ensures t == packageParent
    {
      packageParent
    }
  }
}
