/**
 * The menu item of the top-level ui package (MenuItem.go): the same lazily created handler
 * registry and submenu lookup as the menu package's item, with the application object as
 * its parent target. The submenu the platform reports is a parameter, and the modifier mask
 * handed to the platform item is kept in a field.
 */
module AppMenuItems {
  import opened Wrappers
  import opened Events

  type PlatformMenu = nat

  type MenuId = nat

  /** The application singleton, at the root of every target chain. */
  const App: TargetId := 0

  class MenuItem {
    const title: string
    var eventHandlers: Handlers?
    /** The key-equivalent modifier mask last handed to the platform item. */
    var keyModifiers: nat

    constructor (title: string, keyModifiers: nat)
      ensures this.title == title && this.keyModifiers == keyModifiers && eventHandlers == null
    {
      this.title := title;
      this.keyModifiers := keyModifiers;
      eventHandlers := null;
    }

    /** Title: the title given at creation. */
    function Title(): (t: string)
      ensures t == title
    {
      title
    }

    /** SetKeyModifiers: the platform item now carries the given mask. */
    method SetKeyModifiers(mask: nat)
      modifies this`keyModifiers
      ensures keyModifiers == mask
    {
      keyModifiers := mask;
    }

    /** SubMenu: the menu registered for the platform's submenu, or none. */
    function SubMenu(menuMap: map<PlatformMenu, MenuId>, platformSub: PlatformMenu): (r: Option<MenuId>)
      ensures r.None? <==> platformSub !in menuMap
      ensures r.Some? ==> r.value == menuMap[platformSub]
    {
      if platformSub in menuMap then Some(menuMap[platformSub]) else None
    }

    /**
     * EventHandlers: the registry, created empty on the first call and the same object on
     * every later one.
     */
    method EventHandlers() returns (h: Handlers)
      modifies this`eventHandlers
      ensures eventHandlers == h
      ensures old(eventHandlers) != null ==> h == old(eventHandlers)
      ensures old(eventHandlers) == null ==> fresh(h) && h.entries == []
    {
      if eventHandlers == null {
        eventHandlers := new Handlers();
      }
      h := eventHandlers;
    }

    /** ParentTarget: always the application. */
    function ParentTarget(): (t: TargetId)
      ensures t == App
    {
      App
    }
  }
}
