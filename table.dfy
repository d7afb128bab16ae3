/**
 * The `DealsTable` component of components/DealsTable.tsx as one object: its React state
 * (`data`, `sorting`, `columnOrder`, `columnSizing`, `focus`, the two menus), the drags in
 * progress, and the UI store it reads and writes.  The row and column models that
 * `@tanstack/react-table` derives from this state are not part of the model; where a handler
 * needs one of their figures (the number of rendered rows, a column's visibility) it is a
 * parameter.
 */
module Table {
  import opened Wrappers
  import opened Data
  import opened Deals
  import opened Records
  import opened Editors
  import Navigation
  import opened Columns
  import opened Store
  import opened Menu

  /** One header drag whose `mousemove` / `mouseup` window listeners are registered. */
  datatype Drag = Drag(startX: int, startOrder: seq<string>, idx: int)

  predicate DragOk(d: Drag) {
    |d.startOrder| > 0 && -1 <= d.idx < |d.startOrder|
  }

  /** What one drag's `onMove` does to the column order `order` for a pointer at `x`. */
  function MoveOne(d: Drag, x: int, order: seq<string>): (r: seq<string>)
    requires DragOk(d)
    ensures !Moves(d, x) ==> r == order
    ensures Moves(d, x) ==> r == ReorderStep(d.startOrder, d.idx, x - d.startX).value
    ensures Moves(d, x) ==> multiset(r) == multiset(d.startOrder)
  {
    ReorderPermutes(d.startOrder, d.idx, x - d.startX);
    match ReorderStep(d.startOrder, d.idx, x - d.startX)
    case Some(o) => o
    case None => order
  }

  /** The column order after the `onMove` of every drag in `ds`, in registration order. */
  function AfterMoves(ds: seq<Drag>, x: int, order: seq<string>): (r: seq<string>)
    requires forall k :: 0 <= k < |ds| ==> DragOk(ds[k])
    ensures |order| > 0 ==> |r| > 0
  {
    if ds == [] then order else MoveOne(ds[|ds| - 1], x, AfterMoves(ds[..|ds| - 1], x, order))
  }

  /** Whether the drag's `onMove` calls `setColumnOrder` for a pointer at `x`. */
  predicate Moves(d: Drag, x: int)
    requires DragOk(d)
  {
    ReorderStep(d.startOrder, d.idx, x - d.startX).Some?
  }

  /** Whether any drag in `ds` calls `setColumnOrder` for a pointer at `x`. */
  predicate AnyMoves(ds: seq<Drag>, x: int)
    requires forall k :: 0 <= k < |ds| ==> DragOk(ds[k])
  {
    ds != [] && (AnyMoves(ds[..|ds| - 1], x) || Moves(ds[|ds| - 1], x))
  }

  /** `AnyMoves` holds exactly when some drag of `ds` moves. */
  lemma {:induction false} AnyMovesSome(ds: seq<Drag>, x: int)
    requires forall k :: 0 <= k < |ds| ==> DragOk(ds[k])
    ensures AnyMoves(ds, x) <==> exists k :: 0 <= k < |ds| && Moves(ds[k], x)
  {
    if ds != [] {
      var init := ds[..|ds| - 1];
      AnyMovesSome(init, x);
      if AnyMoves(init, x) {
        var k :| 0 <= k < |init| && Moves(init[k], x);
        assert ds[k] == init[k];
      }
      if exists k :: 0 <= k < |ds| && Moves(ds[k], x) {
        var k :| 0 <= k < |ds| && Moves(ds[k], x);
        if k < |init| {
          assert init[k] == ds[k];
        }
      }
    }
  }

  /** What one `onMove` of a drag on a known column can leave: the start order or one swap. */
  lemma MoveOneOutcome(d: Drag, x: int)
    requires DragOk(d) && d.idx >= 0
    ensures var r := MoveOne(d, x, d.startOrder);
      r == d.startOrder
      || (d.idx + 1 < |d.startOrder| && r == Swap(d.startOrder, d.idx, d.idx + 1))
      || (d.idx > 0 && r == Swap(d.startOrder, d.idx - 1, d.idx))
  {
    var order, delta := d.startOrder, x - d.startX;
    var r := MoveOne(d, x, order);
    if Abs(delta) < Threshold {
      ReorderBelowThreshold(order, d.idx, delta);
      assert r == order;
    } else if delta > 0 && d.idx + 1 < |order| {
      ReorderRight(order, d.idx, delta);
      assert r == Swap(order, d.idx, d.idx + 1);
    } else if delta < 0 && d.idx > 0 {
      ReorderLeft(order, d.idx, delta);
      assert r == Swap(order, d.idx - 1, d.idx);
    } else {
      ReorderAtEnd(order, d.idx, delta);
      assert r == order;
    }
  }

  /** The listeners of `ds` run in order: listener `k` acts on what the first `k` left. */
  lemma AfterMovesStep(ds: seq<Drag>, k: int, x: int, order: seq<string>)
    requires 0 <= k < |ds| && forall j :: 0 <= j < |ds| ==> DragOk(ds[j])
    ensures AfterMoves(ds[..k + 1], x, order) == MoveOne(ds[k], x, AfterMoves(ds[..k], x, order))
    ensures AnyMoves(ds[..k + 1], x) <==> AnyMoves(ds[..k], x) || Moves(ds[k], x)
  {
    var all := ds[..k + 1];
    assert all[..k] == ds[..k] && all[k] == ds[k];
  }

  /**
   * One window `mousemove` at `x`: the `onMove` listeners of `ds` run in registration order,
   * each computing from its own start order and calling `setColumnOrder` only when its step
   * yields an order.  Returns the final order and whether any of them called the setter.
   */
  method RunMoves(ds: seq<Drag>, x: int, order0: seq<string>) returns (order: seq<string>, moved: bool)
    requires forall k :: 0 <= k < |ds| ==> DragOk(ds[k])
    ensures order == AfterMoves(ds, x, order0)
    ensures moved <==> AnyMoves(ds, x)
    ensures !moved ==> order == order0
  {
    order, moved := order0, false;
    var k := 0;
    while k < |ds|
      invariant 0 <= k <= |ds|
      invariant order == AfterMoves(ds[..k], x, order0)
      invariant !moved ==> order == order0
      invariant moved <==> AnyMoves(ds[..k], x)
    {
      AfterMovesStep(ds, k, x, order0);
      var d := ds[k];
      var step := ReorderStep(d.startOrder, d.idx, x - d.startX);
      if step.Some? {
        order, moved := step.value, true;
      }
      k := k + 1;
    }
    assert ds[..k] == ds;
  }

  /** `r` is the order a drag started with, or that order with the dragged column swapped once. */
  predicate AtMostOneSwap(d: Drag, r: seq<string>)
    requires DragOk(d) && d.idx >= 0
  {
    || r == d.startOrder
    || (d.idx + 1 < |d.startOrder| && r == Swap(d.startOrder, d.idx, d.idx + 1))
    || (d.idx > 0 && r == Swap(d.startOrder, d.idx - 1, d.idx))
  }

  /** The column order after the pointer positions `xs` of one drag, in order, from `order`. */
  function AfterDrag(d: Drag, xs: seq<int>, order: seq<string>): seq<string>
    requires DragOk(d)
  {
    if xs == [] then order else AfterDrag(d, xs[1..], AfterMoves([d], xs[0], order))
  }

  /** Each move keeps the order within one swap of the start, whatever it was before. */
  lemma {:induction false} AfterDragKeepsOneSwap(d: Drag, xs: seq<int>, order: seq<string>)
    requires DragOk(d) && d.idx >= 0 && AtMostOneSwap(d, order)
    ensures AtMostOneSwap(d, AfterDrag(d, xs, order))
  {
    if xs != [] {
      var x := xs[0];
      assert [d][..0] == [];
      assert AfterMoves([d][..0], x, order) == order;
      var next := AfterMoves([d], x, order);
      assert next == MoveOne(d, x, order);
      MoveOneOutcome(d, x);
      assert next == order || next == MoveOne(d, x, d.startOrder);
      AfterDragKeepsOneSwap(d, xs[1..], next);
    }
  }

  /**
   * Every `onMove` computes from the order the drag started with, so a whole drag, any
   * sequence of pointer moves from the order it started with, ends at that order or one
   * adjacent swap away from it, however far and however often the pointer moves.
   */
  lemma OneDragOneSwap(d: Drag, xs: seq<int>)
    requires DragOk(d) && d.idx >= 0
    ensures var r := AfterDrag(d, xs, d.startOrder);
      r == d.startOrder
      || (d.idx + 1 < |d.startOrder| && r == Swap(d.startOrder, d.idx, d.idx + 1))
      || (d.idx > 0 && r == Swap(d.startOrder, d.idx - 1, d.idx))
  {
    AfterDragKeepsOneSwap(d, xs, d.startOrder);
  }

  /** Later moves of the same drag do not accumulate: a second move is judged from the start. */
  lemma MovesDoNotAccumulate(d: Drag, x1: int, x2: int, order: seq<string>)
    requires DragOk(d)
    ensures AfterMoves([d], x2, AfterMoves([d], x1, order)) == AfterMoves([d], x2, order)
            || ReorderStep(d.startOrder, d.idx, x2 - d.startX).None?
  {
    assert [d][..0] == [];
  }

  /** A change of the sort state: tanstack hands over a new value or an updater. */
  datatype SortUpdate = Replace(next: seq<SortKey>) | Update(f: seq<SortKey> -> seq<SortKey>)

  /** The actions of the row menu, each bound to the row object it was opened on. */
  datatype RowAction = OpenDetails(row: DealObj) | DuplicateRow(row: DealObj) | DeleteRow(row: DealObj)

  /** The row menu: "Open details", "Duplicate", "Delete" (shortcut "Del"), none disabled. */
  function RowMenuItems(row: DealObj): (items: seq<MenuItem<RowAction>>)
    ensures |items| == 3 && forall k :: 0 <= k < 3 ==> !IsDisabled(items[k])
    ensures items[1].onSelect == DuplicateRow(row) && items[2].onSelect == DeleteRow(row)
  {
    [ MenuItem("Open details", OpenDetails(row), None, None),
      MenuItem("Duplicate", DuplicateRow(row), None, None),
      MenuItem("Delete", DeleteRow(row), Some("Del"), None) ]
  }

  /** The actions of the column menu; all of them are calls into the table library. */
  datatype HeaderAction = ToggleVisibility | Autosize | SortAscending | SortDescending | ClearSort

  /** The column menu; its first caption depends on whether the column is visible. */
  function HeaderMenuItems(visible: bool): (items: seq<MenuItem<HeaderAction>>)
    ensures |items| == 5 && forall k :: 0 <= k < 5 ==> !IsDisabled(items[k])
    ensures items[0].caption == if visible then "Hide column" else "Show column"
  {
    [ MenuItem(if visible then "Hide column" else "Show column", ToggleVisibility, None, None),
      MenuItem("Autosize to fit", Autosize, None, None),
      MenuItem("Sort asc", SortAscending, Some("A"), None),
      MenuItem("Sort desc", SortDescending, Some("Z"), None),
      MenuItem("Clear sort", ClearSort, None, None) ]
  }

  class DealsTable {
    const ui: UIStore
    /** The module-level `deals` array: the same objects `data` starts with. */
    const seed: seq<DealObj>
    /** The values the seed records held when the table mounted. */
    const initial: seq<Deal>
    const rowMenu: MenuHost<RowAction>
    const headerMenu: MenuHost<HeaderAction>
    var data: seq<DealObj>
    var sorting: seq<SortKey>
    var columnOrder: seq<string>
    var columnSizing: map<string, int>
    var focus: Navigation.Focus
    var drags: seq<Drag>

    ghost predicate Valid()
      reads this, rowMenu, headerMenu
    {
      && Distinct(data) && Distinct(seed)
      && |columnOrder| > 0
      && (forall k :: 0 <= k < |drags| ==> DragOk(drags[k]))
      && rowMenu.Valid() && headerMenu.Valid()
    }

    /** The table's own state agrees with what the store holds. */
    ghost predicate Synced()
      reads this, ui
    {
      ui.sort == sorting && ui.column.order == columnOrder && ui.column.widths == columnSizing
    }

    /** The records' current values, in `data` order. */
    ghost function Snapshot(): seq<Deal>
      reads this, data
    {
      Values(data)
    }

    /**
     * Mounting: `data` is `[...initialDeals]`, the sort and widths come from the store, the
     * order from the store unless it is empty; then the effect of lines 246-248 runs once.
     */
    constructor (ui: UIStore, seed: seq<DealObj>)
      requires Distinct(seed)
      modifies ui
      ensures Valid() && Synced()
      ensures this.ui == ui && this.seed == seed && data == seed && initial == Values(seed)
      ensures sorting == old(ui.sort) && columnSizing == old(ui.column.widths)
      ensures columnOrder == if |old(ui.column.order)| > 0 then old(ui.column.order)
                             else DefaultColumnOrder()
      ensures focus == Navigation.Origin && drags == []
      ensures rowMenu.menu == None && headerMenu.menu == None
      ensures ui.column.hidden == old(ui.column.hidden) && ui.filters == old(ui.filters)
      ensures ui.selection == old(ui.selection)
      ensures fresh(rowMenu) && fresh(headerMenu)
    {
      var order := if |ui.column.order| > 0 then ui.column.order else DefaultColumnOrder();
      var sizing := ui.column.widths;
      this.ui := ui;
      this.seed := seed;
      initial := Values(seed);
      data := seed;
      sorting := ui.sort;
      columnOrder := order;
      columnSizing := sizing;
      focus := Navigation.Origin;
      drags := [];
      rowMenu := new MenuHost();
      headerMenu := new MenuHost();
      new;
      assert Valid();
      ui.SetColumn((c: ColumnState) => c.(order := order, widths := sizing));
    }

    /** The effect of lines 246-248, run after `columnOrder` or `columnSizing` changed. */
    method SyncColumns()
      modifies ui
      ensures ui.column == old(ui.column).(order := columnOrder, widths := columnSizing)
      ensures ui.sort == old(ui.sort) && ui.filters == old(ui.filters)
      ensures ui.selection == old(ui.selection)
    {
      var order, sizing := columnOrder, columnSizing;
      ui.SetColumn((c: ColumnState) => c.(order := order, widths := sizing));
    }
  
    /**
     * The text editor on row `i`: click, type `text`, blur.  Exactly that column of that
     * record is written; every other record keeps its value.  (`onDataChange` re-renders with
     * `[...data]`, the same objects in the same order.)
     */
    method CommitText(i: nat, column: TextColumn, text: string)
      requires Valid() && i < |data|
      modifies data[i]
      ensures Valid()
      ensures Snapshot() == old(Snapshot())[i := WriteText(old(Snapshot())[i], column, Some(text))]
    {
      ghost var before := Snapshot();
      var editor := new TextEditor(data[i], column);
      editor.Click();
      editor.Input(text);
      var changed := editor.Blur();
      assert forall k :: 0 <= k < |data| && k != i ==> data[k] != data[i];
      ValuesAfterWrite(data, before, i, WriteText(before[i], column, Some(text)));
    }

    /** The stage dropdown on row `i`: open it and choose `s`. */
    method CommitStage(i: nat, s: Stage)
      requires Valid() && i < |data|
      modifies data[i]
      ensures Valid()
      ensures Snapshot() == old(Snapshot())[i := WriteStage(old(Snapshot())[i], s)]
    {
      ghost var before := Snapshot();
      var editor := new StageEditor(data[i]);
      editor.Toggle();
      var changed := editor.Choose(s);
      assert forall k :: 0 <= k < |data| && k != i ==> data[k] != data[i];
      ValuesAfterWrite(data, before, i, WriteStage(before[i], s));
    }

    /**
     * The amount editor on row `i`: click, type `text`, commit.  `changed` says whether
     * `onDataChange` was signalled.
     */
    method CommitAmount(i: nat, text: string) returns (changed: bool)
      requires Valid() && i < |data|
      modifies data[i]
      ensures Valid()
      ensures Snapshot() == old(Snapshot())[i := Deals.CommitAmount(old(Snapshot())[i], text)]
      ensures changed <==> Numbers.ParseNumber(Numbers.StripSeparators(text)).Some?
    {
      ghost var before := Snapshot();
      var editor := new AmountEditor(data[i]);
      editor.Click();
      editor.Input(text);
      changed := editor.Commit();
      assert forall k :: 0 <= k < |data| && k != i ==> data[k] != data[i];
      ValuesAfterWrite(data, before, i, Deals.CommitAmount(before[i], text));
    }

    /** The notes box of the details panel: `row.original.notes = value`, with no data-change signal. */
    method EditDetailsNotes(i: nat, text: string)
      requires Valid() && i < |data|
      modifies data[i]
      ensures Valid()
      ensures Snapshot() == old(Snapshot())[i := WriteText(old(Snapshot())[i], Notes, Some(text))]
    {
      ghost var before := Snapshot();
      data[i].notes := Some(text);
      assert forall k :: 0 <= k < |data| && k != i ==> data[k] != data[i];
      ValuesAfterWrite(data, before, i, WriteText(before[i], Notes, Some(text)));
    }
  
    /**
     * The Duplicate action on `row`: `setData(ds => [...ds, { ...row, id: row.id + "-copy" }])`.
     * One new object is appended; the existing records stay as they were.
     */
    method Duplicate(row: DealObj)
      requires Valid()
      modifies this
      ensures Valid() && Synced() == old(Synced())
      ensures |data| == |old(data)| + 1 && data[..|old(data)|] == old(data) && fresh(data[|old(data)|])
      ensures Snapshot() == old(Snapshot()) + [CopyOf(old(row.Value()))]
      ensures forall i :: 0 <= i < |old(data)| && old(data)[i] == row ==>
                Snapshot() == Duplicated(old(Snapshot()), i)
      ensures sorting == old(sorting) && columnOrder == old(columnOrder)
      ensures columnSizing == old(columnSizing) && focus == old(focus) && drags == old(drags)
    {
      data := AppendCopy(data, row);
    }

    /** The Delete action on `row`: `setData(ds => ds.filter(d => d.id !== row.id))`. */
    method Delete(row: DealObj)
      requires Valid()
      modifies this
      ensures Valid() && Synced() == old(Synced())
      ensures Snapshot() == Deleted(old(Snapshot()), old(row.id))
      ensures forall k :: 0 <= k < |data| ==> data[k] in old(data)
      ensures sorting == old(sorting) && columnOrder == old(columnOrder)
      ensures columnSizing == old(columnSizing) && focus == old(focus) && drags == old(drags)
    {
      KeepOthersDistinct(data, row.id);
      KeepOthersValues(data, row.id);
      data := KeepOthers(data, row.id);
    }

    /** What a chosen row-menu item does; expanding a row belongs to the table library. */
    method RunRowAction(a: RowAction)
      requires Valid()
      modifies this
      ensures Valid() && Synced() == old(Synced())
      ensures sorting == old(sorting) && columnOrder == old(columnOrder)
      ensures columnSizing == old(columnSizing) && focus == old(focus) && drags == old(drags)
      ensures match a
        case OpenDetails(_) => data == old(data)
        case DuplicateRow(row) =>
          Snapshot() == old(Snapshot()) + [CopyOf(old(row.Value()))]
        case DeleteRow(row) => Snapshot() == Deleted(old(Snapshot()), old(row.id))
    {
      match a {
        case OpenDetails(_) =>
        case DuplicateRow(row) => Duplicate(row);
        case DeleteRow(row) => Delete(row);
      }
    }

    /** `onRowContext`: a right-click on `row` opens the row menu at the pointer. */
    method OnRowContext(row: DealObj, x: int, y: int)
      requires Valid()
      modifies rowMenu
      ensures Valid() && rowMenu.menu == Some(MenuState(x, y, RowMenuItems(row)))
    {
      rowMenu.Open(x, y, RowMenuItems(row));
    }

    /**
     * `onHeaderContext`: a right-click on a header opens the column menu, unless the table
     * knows no column of that id.  `visible` is the column's visibility in the table library.
     */
    method OnHeaderContext(columnKnown: bool, visible: bool, x: int, y: int)
      requires Valid()
      modifies headerMenu
      ensures Valid()
      ensures headerMenu.menu == if columnKnown then Some(MenuState(x, y, HeaderMenuItems(visible)))
                                 else old(headerMenu.menu)
    {
      if !columnKnown {
        return;
      }
      headerMenu.Open(x, y, HeaderMenuItems(visible));
    }

    /** A click on item `k` of the open row menu: run its action if it is enabled. */
    method ChooseRowItem(k: nat)
      requires Valid() && rowMenu.menu.Some? && k < |rowMenu.menu.value.items|
      modifies this
      ensures Valid() && rowMenu.menu == old(rowMenu.menu)
      ensures sorting == old(sorting) && columnOrder == old(columnOrder)
      ensures columnSizing == old(columnSizing) && focus == old(focus) && drags == old(drags)
      ensures var it := old(rowMenu.menu.value.items[k]);
        IsDisabled(it) ==> data == old(data)
      ensures var it := old(rowMenu.menu.value.items[k]);
        !IsDisabled(it) ==> match it.onSelect
          case OpenDetails(_) => data == old(data)
          case DuplicateRow(row) => Snapshot() == old(Snapshot()) + [CopyOf(old(row.Value()))]
          case DeleteRow(row) => Snapshot() == Deleted(old(Snapshot()), old(row.id))
    {
      var invoked := rowMenu.ClickItem(k);
      if invoked.Some? {
        RunRowAction(invoked.value);
      }
    }

    /** The footer's figures, over all records whatever the filters show. */
    function Totals(): (t: Deals.Totals)
      reads this, data
      ensures t == TotalsOf(Snapshot())
    {
      TotalsOf(Values(data))
    }

    /** `moveFocus(dr, dc)` with `rows` the number of rows the table renders. */
    method MoveFocus(dr: int, dc: int, rows: nat)
      requires Valid()
      modifies this
      ensures Valid() && Synced() == old(Synced()) && data == old(data)
      ensures focus == Navigation.MoveFocus(old(focus), dr, dc, rows, LeafColumnCount)
      ensures sorting == old(sorting) && columnOrder == old(columnOrder)
      ensures columnSizing == old(columnSizing) && drags == old(drags)
    {
      focus := Navigation.MoveFocus(focus, dr, dc, rows, LeafColumnCount);
    }

    /** A key press in a body cell. */
    method OnCellKey(key: string, rows: nat)
      requires Valid()
      modifies this
      ensures Valid() && Synced() == old(Synced()) && data == old(data)
      ensures focus == Navigation.OnCellKey(old(focus), key, rows, LeafColumnCount)
      ensures sorting == old(sorting) && columnOrder == old(columnOrder)
      ensures columnSizing == old(columnSizing) && drags == old(drags)
    {
      match Navigation.ArrowDelta(key) {
        case Some((dr, dc)) => MoveFocus(dr, dc, rows);
        case None =>
      }
    }

    /**
     * `mousedown` on a header's drag handle: snapshot the order, find the column in it and
     * register the drag's window listeners.
     */
    method BeginDrag(columnId: string, x: int)
      requires Valid()
      modifies this
      ensures Valid() && Synced() == old(Synced()) && data == old(data)
      ensures drags == old(drags) + [Drag(x, old(columnOrder), IndexOf(old(columnOrder), columnId))]
      ensures sorting == old(sorting) && columnOrder == old(columnOrder)
      ensures columnSizing == old(columnSizing) && focus == old(focus)
    {
      drags := drags + [Drag(x, columnOrder, IndexOf(columnOrder, columnId))];
    }

    /**
     * A window `mousemove` at `x`: every registered drag's `onMove` runs; when one of them set
     * the order, the effect copies order and widths into the store.
     */
    method MouseMove(x: int)
      requires Valid()
      modifies this, ui
      ensures Valid() && data == old(data) && drags == old(drags)
      ensures old(Synced()) ==> Synced()
      ensures columnOrder == AfterMoves(drags, x, old(columnOrder))
      ensures AnyMoves(drags, x) ==>
                ui.column == old(ui.column).(order := columnOrder, widths := columnSizing)
      ensures !AnyMoves(drags, x) ==> ui.column == old(ui.column)
      ensures ui.sort == old(ui.sort) && ui.filters == old(ui.filters)
      ensures ui.selection == old(ui.selection)
      ensures sorting == old(sorting) && columnSizing == old(columnSizing) && focus == old(focus)
    {
      var order, moved := RunMoves(drags, x, columnOrder);
      columnOrder := order;
      if moved {
        SyncColumns();
      }
    }

    /** A window `mouseup`: every drag's `onUp` removes its two listeners. */
    method MouseUp()
      requires Valid()
      modifies this
      ensures Valid() && Synced() == old(Synced()) && data == old(data) && drags == []
      ensures sorting == old(sorting) && columnOrder == old(columnOrder)
      ensures columnSizing == old(columnSizing) && focus == old(focus)
    {
      drags := [];
    }

    /** `onColumnSizingChange`: the widths the resize handler computed, then the effect. */
    method OnColumnSizingChange(sizing: map<string, int>)
      requires Valid()
      modifies this, ui
      ensures Valid() && data == old(data)
      ensures columnSizing == sizing
      ensures old(Synced()) ==> Synced()
      ensures ui.column == old(ui.column).(order := columnOrder, widths := sizing)
      ensures ui.sort == old(ui.sort) && ui.filters == old(ui.filters)
      ensures ui.selection == old(ui.selection)
      ensures sorting == old(sorting) && columnOrder == old(columnOrder)
      ensures focus == old(focus) && drags == old(drags)
    {
      columnSizing := sizing;
      SyncColumns();
    }

    /** `onSortingChange`: the next sort state goes both into the table and into the store. */
    method OnSortingChange(u: SortUpdate)
      requires Valid()
      modifies this, ui
      ensures Valid() && data == old(data)
      ensures sorting == (match u case Replace(s) => s case Update(f) => f(old(sorting)))
      ensures ui.sort == sorting && ui.column == old(ui.column) && ui.filters == old(ui.filters)
      ensures ui.selection == old(ui.selection)
      ensures old(Synced()) ==> Synced()
      ensures columnOrder == old(columnOrder) && columnSizing == old(columnSizing)
      ensures focus == old(focus) && drags == old(drags)
    {
      var next := match u case Replace(s) => s case Update(f) => f(sorting);
      sorting := next;
      ui.SetSort(next);
    }

    /**
     * `clearFilters`: re-set the column slice to itself, then give every filter key present
     * at the start the value `undefined`.  (Resetting the library's own column filters is not
     * modelled.)
     */
    method ClearFilters()
      requires Valid()
      modifies ui
      ensures Valid()
      ensures ui.filters == ClearedFilters(old(ui.filters))
      ensures ui.sort == old(ui.sort) && ui.column == old(ui.column)
      ensures ui.selection == old(ui.selection)
    {
      ui.SetColumn((c: ColumnState) => c);
      var keys := ui.filters.Keys;
      ghost var original := ui.filters;
      while keys != {}
        invariant keys <= original.Keys && ui.filters.Keys == original.Keys
        invariant forall k :: k in original && k !in keys ==> ui.filters[k] == Undefined
        invariant forall k :: k in keys ==> ui.filters[k] == original[k]
        invariant ui.sort == old(ui.sort) && ui.column == old(ui.column)
        invariant ui.selection == old(ui.selection)
        decreases keys
      {
        var k :| k in keys;
        ui.SetFilter(k, Undefined);
        keys := keys - {k};
      }
      assert ui.filters == ClearedFilters(original);
    }

    /**
     * The Reset button as written: `setData([...initialDeals])`, `ui.setSort([])` and
     * `ui.setColumn(() => ({ hidden: {}, order: [], widths: {} }))`.  `data` gets the seed's
     * objects back, with whatever the editors wrote into them, and the table's own sort,
     * order and widths stay as they were.
     */
    method Reset()
      requires Valid()
      modifies this, ui
      ensures Valid() && data == seed
      ensures forall k :: 0 <= k < |seed| ==> seed[k].Value() == old(seed[k].Value())
      ensures ui.sort == [] && ui.column == EmptyColumnState
      ensures ui.filters == old(ui.filters) && ui.selection == old(ui.selection)
      ensures sorting == old(sorting) && columnOrder == old(columnOrder)
      ensures columnSizing == old(columnSizing) && focus == old(focus) && drags == old(drags)
    {
      data := seed;
      ui.SetSort([]);
      ui.SetColumn((c: ColumnState) => EmptyColumnState);
    }

    /**
     * Reset as intended: fresh records holding the seed's values as they were at mount (the
     * seed objects are then never written), and the table's sort, order
     * and widths reset together with the store's (the effect then copies the default order
     * into the store).
     */
    method ResetToSeed()
      requires Valid()
      modifies this, ui
      ensures Valid() && Synced() && Snapshot() == initial
      ensures forall k :: 0 <= k < |data| ==> fresh(data[k])
      ensures sorting == [] && columnOrder == DefaultColumnOrder() && columnSizing == map[]
      ensures ui.column.hidden == map[]
      ensures ui.filters == old(ui.filters) && ui.selection == old(ui.selection)
      ensures focus == old(focus) && drags == old(drags)
    {
      ResetView();
      var objs := MakeObjects(initial);
      data := objs;
    }

    /** The view half of `ResetToSeed`: table and store sort, order and widths back to default. */
    method ResetView()
      requires Valid()
      modifies this, ui
      ensures Valid() && Synced() && data == old(data)
      ensures sorting == [] && columnOrder == DefaultColumnOrder() && columnSizing == map[]
      ensures ui.column.hidden == map[]
      ensures ui.filters == old(ui.filters) && ui.selection == old(ui.selection)
      ensures focus == old(focus) && drags == old(drags)
    {
      sorting := [];
      columnOrder := DefaultColumnOrder();
      columnSizing := map[];
      ui.SetSort([]);
      ui.SetColumn((c: ColumnState) => EmptyColumnState);
      SyncColumns();
    }
  }

  /**
   * Reset as written, on a table freshly mounted over records holding `vs`: rename the first
   * company to `name`, press Reset.  The record shown first after the reset is the seed's own
   * object, still carrying the edit, whatever the seed held.
   */
  method ResetKeepsEdits(vs: seq<Deal>, name: string) returns (seeded: string, afterReset: string)
    requires |vs| > 0
    ensures seeded == vs[0].company && afterReset == name
  {
    var ui := new UIStore();
    var objs := MakeObjects(vs);
    var t := new DealsTable(ui, objs);
    seeded := t.data[0].company;
    t.CommitText(0, Company, name);
    t.Reset();
    afterReset := t.data[0].company;
  }

  /**
   * Reset as written, after sorting by company: the store's sort is cleared but the table's
   * own sort state, which decides the displayed order, is not.
   */
  method ResetKeepsSort(vs: seq<Deal>) returns (shown: seq<SortKey>, stored: seq<SortKey>)
    ensures shown == [SortKey("company", false)] && stored == []
  {
    var ui := new UIStore();
    var objs := MakeObjects(vs);
    var t := new DealsTable(ui, objs);
    t.OnSortingChange(Replace([SortKey("company", false)]));
    t.Reset();
    shown, stored := t.sorting, ui.sort;
  }

  /** The corrected reset on the same sequence of events: the seed's values are back. */
  method ResetToSeedUndoesEdits(vs: seq<Deal>, name: string) returns (afterReset: string, shown: seq<SortKey>)
    requires |vs| > 0
    ensures afterReset == vs[0].company && shown == []
  {
    var ui := new UIStore();
    var objs := MakeObjects(vs);
    var t := new DealsTable(ui, objs);
    t.CommitText(0, Company, name);
    t.OnSortingChange(Replace([SortKey("company", false)]));
    t.ResetToSeed();
    afterReset := t.data[0].company;
    shown := t.sorting;
  }
}
