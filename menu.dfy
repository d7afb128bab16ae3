/**
 * The floating context menu of components/ContextMenu.tsx and the host state that shows it
 * (`menu` / `setMenu` in components/DealsTable.tsx:134, 565).
 */
module Menu {
  import opened Wrappers

  /** `MenuItem`: `caption` is the source's `label`; `onSelect` is whatever action the item carries. */
  datatype MenuItem<A> = MenuItem(caption: string, onSelect: A, shortcut: Option<string>,
                                  disabled: Option<bool>)

  /** `disabled` is optional; only an explicit `true` disables the item. */
  predicate IsDisabled<A>(it: MenuItem<A>) {
    it.disabled == Some(true)
  }

  /** A click on an item, `!it.disabled && it.onSelect()`: the action it runs, if any. */
  function Activate<A>(it: MenuItem<A>): (invoked: Option<A>)
    ensures invoked.Some? <==> !IsDisabled(it)
    ensures invoked.Some? ==> invoked.value == it.onSelect
  {
    if IsDisabled(it) then None else Some(it.onSelect)
  }

  /**
   * The `mousedown` / `contextmenu` listener's decision: close when the menu element or the
   * event target is missing, or when the target lies outside the menu (`menuNodes` are the
   * nodes the menu element contains, itself included).
   */
  function PressCloses<N>(menuNodes: Option<set<N>>, target: Option<N>): (closes: bool)
    ensures menuNodes.None? || target.None? ==> closes
    ensures menuNodes.Some? && target.Some? ==> (closes <==> target.value !in menuNodes.value)
  {
    menuNodes.None? || target.None? || target.value !in menuNodes.value
  }

  /** The `keydown` listener's decision. */
  function KeyCloses(key: string): (closes: bool)
    ensures closes <==> key == "Escape"
  {
    key == "Escape"
  }

  /**
   * How many times each of the menu's three document listeners (`mousedown` and
   * `contextmenu` with `onDoc`, `keydown` with `onKey`) is registered.
   */
  datatype Registrations = Registrations(mouseDown: nat, contextMenu: nat, keyDown: nat)

  /** The effect: `addEventListener` for each of the three. */
  function Add(r: Registrations): (a: Registrations)
    ensures a.mouseDown > 0 && a.contextMenu > 0 && a.keyDown > 0
    ensures Remove(a) == r
  {
    Registrations(r.mouseDown + 1, r.contextMenu + 1, r.keyDown + 1)
  }

  /** The cleanup: `removeEventListener` for each of the three (no-op when absent). */
  function Remove(r: Registrations): (a: Registrations)
    ensures a.mouseDown <= r.mouseDown && a.contextMenu <= r.contextMenu && a.keyDown <= r.keyDown
    ensures r == Installed ==> a == NoListeners
    ensures r == NoListeners ==> a == NoListeners
  {
    Registrations(if r.mouseDown > 0 then r.mouseDown - 1 else 0,
                  if r.contextMenu > 0 then r.contextMenu - 1 else 0,
                  if r.keyDown > 0 then r.keyDown - 1 else 0)
  }

  const NoListeners := Registrations(0, 0, 0)
  const Installed := Registrations(1, 1, 1)

  /** The `{ x, y, items }` a host keeps while a menu is shown. */
  datatype MenuState<A> = MenuState(x: int, y: int, items: seq<MenuItem<A>>)

  /**
   * A host of one menu: the `menu` state (`None` is `null`) and the document's listener
   * registrations belonging to the mounted menu.
   */
  class MenuHost<A> {
    var menu: Option<MenuState<A>>
    var listeners: Registrations

    /** Registration and removal are balanced: each listener exists once exactly while shown. */
    ghost predicate Valid()
      reads this
    {
      listeners == if menu.Some? then Installed else NoListeners
    }

    constructor ()
      ensures Valid() && menu == None
    {
      menu := None;
      listeners := NoListeners;
    }

    /** The effect's cleanup followed by the effect (a render with a new `onClose`). */
    method Rerender()
      requires Valid()
      modifies this
      ensures Valid() && menu == old(menu) && listeners == old(listeners)
    {
      if menu.Some? {
        listeners := Add(Remove(listeners));
      }
    }

    /** `setMenu({ x, y, items })`: the menu is (re)mounted at the new position. */
    method Open(x: int, y: int, items: seq<MenuItem<A>>)
      requires Valid()
      modifies this
      ensures Valid() && menu == Some(MenuState(x, y, items))
    {
      if menu.Some? {
        listeners := Remove(listeners);
      }
      menu := Some(MenuState(x, y, items));
      listeners := Add(listeners);
    }

    /** `onClose`, i.e. `setMenu(null)`: the menu unmounts and its cleanup runs. */
    method Close()
      requires Valid()
      modifies this
      ensures Valid() && menu == None
    {
      if menu.Some? {
        listeners := Remove(listeners);
      }
      menu := None;
    }

    /** A `mousedown` or `contextmenu` anywhere in the document while the menu is shown. */
    method OnDocumentPress<N>(menuNodes: Option<set<N>>, target: Option<N>)
      requires Valid() && menu.Some?
      modifies this
      ensures Valid()
      ensures menu == if PressCloses(menuNodes, target) then None else old(menu)
    {
      if PressCloses(menuNodes, target) {
        Close();
      }
    }

    /** A `keydown` in the document while the menu is shown. */
    method OnKeyDown(key: string)
      requires Valid() && menu.Some?
      modifies this
      ensures Valid()
      ensures menu == if KeyCloses(key) then None else old(menu)
    {
      if KeyCloses(key) {
        Close();
      }
    }

    /**
     * A click on item `i`: the action it runs, if enabled.  The item's handler does not call
     * `onClose`, so the menu stays as it is.
     */
    method ClickItem(i: nat) returns (invoked: Option<A>)
      requires Valid() && menu.Some? && i < |menu.value.items|
      ensures invoked == Activate(menu.value.items[i])
    {
      invoked := Activate(menu.value.items[i]);
    }
  }

  /**
   * Choosing an item does not close the menu: the click's own `mousedown` lands inside the
   * menu, and the click itself leaves the host untouched.
   */
  method ChooseInside<A, N>(host: MenuHost<A>, nodes: set<N>, target: N, i: nat)
    returns (invoked: Option<A>)
    requires host.Valid() && host.menu.Some? && i < |host.menu.value.items| && target in nodes
    modifies host
    ensures host.Valid() && host.menu == old(host.menu)
    ensures invoked == Activate(old(host.menu.value.items[i]))
  {
    host.OnDocumentPress(Some(nodes), Some(target));
    invoked := host.ClickItem(i);
  }
}
