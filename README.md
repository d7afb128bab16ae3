# Deals table — a Dafny model

This project models the editable deals grid of a small Next.js dashboard: the `DealsTable`
component (components/DealsTable.tsx), the persisted UI store it reads and writes
(lib/store.ts), the seed records (lib/data.ts) and the right-click menu component
(components/ContextMenu.tsx).

The grid holds deal records. Each record is a JavaScript object that the cell editors write
into in place. The same objects sit in the module-level seed array and in the table's `data`
state, because `[...initialDeals]` copies only the array. The model therefore keeps records
as heap objects (`Records.DealObj`) and the table as a class (`Table.DealsTable`) whose
fields are the component's React state: `data`, `sorting`, `columnOrder`, `columnSizing`,
`focus`, the two menus and the header drags in progress. The UI store is a class
(`Store.UIStore`) with one method per setter. Each setter replaces one slice and leaves the
others alone.

Modules, following the source's structure:

- `Wrappers`: `Option`.
- `Data`: the `Deal` record, the stage and status vocabularies and the ten seed records.
- `Numbers`: the part of JavaScript's `Number(...)` conversion the amount editor relies on,
  the `/[, ]/g` separator stripping, and integer `toString`.
- `Deals`: pure value-level meaning of every data operation: writing a text column, choosing
  a stage, committing an amount, duplicating, deleting, and the footer totals.
- `Store`: the UI store.
- `Records`: the mutable record objects and their value snapshots.
- `Editors`: the three cell editors (`EditableTextCell`, `StageCell`, `AmountCell`) as
  objects with their local React state.
- `Navigation`: arrow-key focus movement.
- `Columns`: the default column order, drag-to-reorder arithmetic and the visibility map.
- `Menu`: `ContextMenu`, with its document listeners.
- `Table`: the `DealsTable` component and its handlers.

A few behaviours of the code worth knowing:

- Arrow-key movement clamps the column index against all eight leaf columns
  (`getAllLeafColumns`), hidden ones included, not against the visible columns only.
- The amount editor starts from `v.toString()`, not from the grouped display text.
- A negative amount such as `-5` is accepted, because `Number("-5")` is not NaN.
- The Status column uses the free-text editor. Any text can therefore be stored as a
  status, although the record type allows only four values (`Deals.WriteTextWellTyped`,
  `Deals.StatusTextEscapesUnion`).
- Column visibility comes only from the store's `hidden` map. Nothing but Reset writes that
  map, and the table's `toggleVisibility` never reaches it.
- `ui.filters` is never written by the filter inputs. Clear filters only sets the keys
  already in that map to `undefined`.
- When the dragged column is not in the order, `indexOf` gives -1. JavaScript's
  `splice(-1, 1)` then takes the last column, and the drag moves that column to the front.
- Escape in the amount editor commits the typed text, although its own handler only ends editing: the key press bubbles to the cell, which blurs the input, and the blur commits.
- The row menu stays open after an item is chosen. Only an outside press or Escape closes it.

## Model

| member | source | states |
|---|---|---|
| Data.StageName | lib/data.ts:6 | every stage is one of the four names `New`, `Qualified`, `Won`, `Lost` |
| Data.StageNamesDistinct | lib/data.ts:6 | the four stage names are pairwise distinct, so a name determines its stage |
| Data.Seed | lib/data.ts:14-25 | the seed holds exactly ten records |
| Data.SeedWellTyped | lib/data.ts:8 | every seed record has one of the four declared status values |
| Data.SeedIdsDistinct | lib/data.ts:14-25 | the seed's deal ids are pairwise distinct |
| Data.SeedAmountsPositive | lib/data.ts:14-25 | every seed amount is positive |
| Numbers.StripSeparators | components/DealsTable.tsx:104 | the result has no comma and no space and is no longer than the input |
| Numbers.StripKeepsOthers | components/DealsTable.tsx:104 | every character other than comma and space occurs as often after stripping as before |
| Numbers.StripAppend | components/DealsTable.tsx:104 | stripping distributes over concatenation |
| Numbers.StripNoSeparators | components/DealsTable.tsx:104 | text without separators is left unchanged |
| Numbers.StripIdempotent | components/DealsTable.tsx:104 | stripping twice is the same as stripping once |
| Numbers.LeadingSpaces | components/DealsTable.tsx:104 | counts exactly the leading JavaScript whitespace characters |
| Numbers.TrailingSpaces | components/DealsTable.tsx:104 | counts exactly the trailing JavaScript whitespace characters |
| Numbers.Trim | components/DealsTable.tsx:104 | a non-empty trimmed string starts and ends with a non-space |
| Numbers.ParseNumber | components/DealsTable.tsx:104-105 | blank or all-space text converts to 0, as `Number("")` does |
| Numbers.ParseRejectsForeign | components/DealsTable.tsx:104-105 | in this integer-only parser, text containing a character that is not a digit, a sign or whitespace is NaN |
| Numbers.NatToString | components/DealsTable.tsx:99 | the decimal text is non-empty, all digits, and has no leading zero unless the value is 0 |
| Numbers.IntToString | components/DealsTable.tsx:99 | the text starts with `-` exactly when the number is negative |
| Numbers.NatToStringValue | components/DealsTable.tsx:99 | reading the digits of `toString` back gives the number |
| Numbers.ParseIntToString | components/DealsTable.tsx:99-105 | `Number(n.toString())` is `n` for every integer |
| Numbers.ParseGrouped | components/DealsTable.tsx:104-105 | `12,000 ` strips to `12000` and converts to 12000 |
| Numbers.ParseUntouched | components/DealsTable.tsx:99-106 | the editor's initial text survives stripping and conversion: it round-trips to the amount |
| Deals.TextOf | components/DealsTable.tsx:23-27 | every text column except notes always has a value |
| Deals.WriteText | components/DealsTable.tsx:29-33 | blur writes the edited value into exactly that column; the other text columns, id, close date, stage and amount are unchanged |
| Deals.WriteTextUnchanged | components/DealsTable.tsx:29-33 | writing back the column's current value leaves the record as it was |
| Deals.WriteTextWellTyped | components/DealsTable.tsx:31 | an edit keeps the record well-typed if and only if it is not a status edit, or the text is one of the four status values |
| Deals.StatusTextEscapesUnion | components/DealsTable.tsx:191-193 | typing `Closed` in a status cell stores a status outside the declared union |
| Deals.WriteStage | components/DealsTable.tsx:79-83 | choosing a stage sets that stage and changes nothing else; well-typedness is kept |
| Deals.CommitAmount | components/DealsTable.tsx:103-110 | NaN leaves the record unchanged; when the stripped text converts, the record is the old one with the converted number as amount; no text column, key or stage changes |
| Deals.CommitUntouchedAmount | components/DealsTable.tsx:99-110 | committing the editor's untouched initial text leaves the record unchanged |
| Deals.CommitLettersKeepsAmount | components/DealsTable.tsx:104-105 | committing `abc` leaves the record unchanged |
| Deals.CommitEmptyIsZero | components/DealsTable.tsx:104-106 | committing an empty field sets the amount to 0 |
| Deals.CommitGroupedAmount | components/DealsTable.tsx:104-106 | committing `12,000 ` sets the amount to 12000 |
| Deals.CopyOf | components/DealsTable.tsx:264 | the copy's id is the old id plus `-copy`, so it differs; every text column, the stage, the amount and the close date are copied |
| Deals.Duplicated | components/DealsTable.tsx:264 | the existing records stay in place and one copy with id `<id>-copy` is appended |
| Deals.DuplicateTwiceCollides | components/DealsTable.tsx:264 | duplicating the same record twice yields two records with the same id |
| Deals.DuplicatedWellTyped | components/DealsTable.tsx:264 | duplicating keeps every record well-typed |
| Deals.Deleted | components/DealsTable.tsx:265 | no remaining record has the deleted id, and every remaining record was there before |
| Deals.DeletedCounts | components/DealsTable.tsx:265 | deletion keeps each record with another id exactly as often as before and removes every record with the id |
| Deals.DeletedAppend | components/DealsTable.tsx:265 | filtering distributes over concatenation |
| Deals.DeletedAbsent | components/DealsTable.tsx:265 | deleting an id no record has changes nothing |
| Deals.DeleteCopyRemovesBoth | components/DealsTable.tsx:264-265 | after two duplicates of a record, deleting one copy removes both copies and restores the original list |
| Deals.Sum | components/DealsTable.tsx:251 | the sum of no records is 0, of one record its amount, and of records with non-negative amounts non-negative |
| Deals.SumAppend | components/DealsTable.tsx:251 | the amount sum distributes over concatenation |
| Deals.TotalsOf | components/DealsTable.tsx:250-254 | count is the number of records, sum is the amount sum, and the average times the count is the sum (0 for no records) |
| Deals.DuplicatedSum | components/DealsTable.tsx:251-254 | a duplicate raises the sum by the duplicated record's amount |
| Deals.SeedTotals | components/DealsTable.tsx:250-254 | the seed's totals are 10 deals, 300500 in sum and 30050 on average |
| Store.ClearedFilters | components/DealsTable.tsx:308 | the same filter keys, each mapped to `undefined` |
| Store.UIStore.constructor | lib/store.ts:23-26 | the store starts with no sort, no filters, an empty column slice and no selection |
| Store.UIStore.SetSort | lib/store.ts:27 | replaces the sort and leaves filters, column slice and selection unchanged |
| Store.UIStore.SetFilter | lib/store.ts:28 | sets exactly one filter key; every other filter and slice is unchanged |
| Store.UIStore.SetColumn | lib/store.ts:29 | the column slice becomes the updater applied to the old slice; the other slices are unchanged |
| Store.UIStore.SetSelection | lib/store.ts:30 | replaces the selection and leaves the other slices unchanged |
| Records.DealObj.constructor | lib/data.ts:14-25 | a new record object holds the given value |
| Records.DealObj.CopyWithId | components/DealsTable.tsx:264 | the spread copy has the source's fields and the new id |
| Records.Values | components/DealsTable.tsx:132 | the snapshot lists the current value of each object, in order |
| Records.KeepOthers | components/DealsTable.tsx:265 | the filtered array is no longer than before and keeps only objects that were there and do not carry the id |
| Records.KeepOthersDistinct | components/DealsTable.tsx:265 | filtering an array without repeated objects repeats none |
| Records.KeepOthersValues | components/DealsTable.tsx:265 | the filtered objects hold exactly the value-level deletion `Deals.Deleted` of what the array held |
| Records.AppendCopy | components/DealsTable.tsx:264 | the old objects stay in place, one fresh object holding the record with id `<id>-copy` is appended, and no object is repeated |
| Records.MakeObjects | lib/data.ts:14-25 | distinct fresh objects whose values are the given records |
| Editors.TextEditor.constructor | components/DealsTable.tsx:23-26 | the editor shows the column's current value and is not editing |
| Editors.TextEditor.Click | components/DealsTable.tsx:47 | a click enters editing and keeps the value |
| Editors.TextEditor.Input | components/DealsTable.tsx:40 | typing replaces the local value |
| Editors.TextEditor.Rerender | components/DealsTable.tsx:27 | the local value is reset only when the cell's value changed since it was last seen |
| Editors.TextEditor.Blur | components/DealsTable.tsx:29-33 | blur leaves editing, writes the local value into the record's column and signals a data change |
| Editors.StageOptions | components/DealsTable.tsx:57 | four distinct stages |
| Editors.StageOptionsComplete | components/DealsTable.tsx:57 | every stage is offered |
| Editors.StageEditor.constructor | components/DealsTable.tsx:56 | the dropdown starts closed |
| Editors.StageEditor.Toggle | components/DealsTable.tsx:65 | the button flips the dropdown |
| Editors.StageEditor.Choose | components/DealsTable.tsx:79-83 | choosing sets the record's stage, signals a data change and closes the dropdown |
| Editors.StageEditor.Escape | components/DealsTable.tsx:73 | Escape closes the dropdown |
| Editors.AmountEditor.constructor | components/DealsTable.tsx:98-100 | the editor text is the amount's `toString` and it is not editing |
| Editors.AmountEditor.Click | components/DealsTable.tsx:123 | a click enters editing |
| Editors.AmountEditor.Input | components/DealsTable.tsx:118 | typing replaces the editor text |
| Editors.AmountEditor.Rerender | components/DealsTable.tsx:101 | a changed amount resets the editor text to its `toString` |
| Editors.AmountEditor.Commit | components/DealsTable.tsx:103-110 | commit leaves editing and writes the converted amount; it signals a data change exactly when the text is not NaN |
| Editors.AmountEditor.Escape | components/DealsTable.tsx:118-120 | as written: Escape bubbles to the cell, whose handler blurs the input, so the record gets the converted text as on commit; a data change is signalled exactly when the text converts |
| Editors.AmountEditor.Cancel | components/DealsTable.tsx:120 | corrected: Escape leaves editing and the record keeps its value |
| Editors.EscapeCommits | components/DealsTable.tsx:119-120 | typing `5` and pressing Escape sets the record's amount to 5, whatever it held |
| Editors.CancelKeepsAmount | components/DealsTable.tsx:120 | with the corrected Escape, the same events leave the record as it was |
| Navigation.Clamp | components/DealsTable.tsx:296-297 | the index lands in range when the range is non-empty, is unchanged when already in range, and is -1 for an empty range |
| Navigation.MoveFocus | components/DealsTable.tsx:292-298 | the new focus is inside the grid, moves by the requested step when that stays inside, and is -1 on an empty axis |
| Navigation.ArrowDelta | components/DealsTable.tsx:467-470 | ArrowRight, ArrowLeft, ArrowDown and ArrowUp ask for (0, 1), (0, -1), (1, 0) and (-1, 0); exactly these four keys ask for a move |
| Navigation.OnCellKey | components/DealsTable.tsx:466-477 | an arrow key calls `moveFocus` with its step; every other key leaves the focus alone |
| Navigation.NoWrapAround | components/DealsTable.tsx:292-298 | at an edge the arrow pointing out of the grid keeps the focus where it is |
| Navigation.OppositeArrowsCancel | components/DealsTable.tsx:292-298 | away from the far edge, right then left, and down then up, return to the start |
| Navigation.ArrowsMoveOneCell | components/DealsTable.tsx:467-470 | inside the grid and away from the edge it points at, each arrow moves the focus exactly one cell its way |
| Navigation.KeyKeepsInside | components/DealsTable.tsx:292-298 | from a cell inside the grid every key leaves the focus inside the grid |
| Columns.DefaultColumnOrder | components/DealsTable.tsx:138-213 | the fallback order is the eight column ids, `select` first, pairwise distinct |
| Columns.IndexOf | components/DealsTable.tsx:405 | the first position of the id, or -1 exactly when it is absent |
| Columns.RemoveAt | components/DealsTable.tsx:412 | `splice(k, 1)` leaves the elements before k in place and shifts those after it down by one |
| Columns.InsertAt | components/DealsTable.tsx:413 | `splice(k, 0, x)` puts x at k, leaves the elements before k in place and shifts the rest up by one |
| Columns.ReorderStep | components/DealsTable.tsx:406-416 | a reorder keeps the number of columns |
| Columns.ReorderBelowThreshold | components/DealsTable.tsx:408 | a pointer less than 12 pixels from the start does not reorder |
| Columns.MovePermutes | components/DealsTable.tsx:411-412 | taking a column out and inserting it elsewhere permutes the order |
| Columns.ReorderPermutes | components/DealsTable.tsx:411-414 | a reordered column list is a permutation of the order the drag started with |
| Columns.ReorderAtEnd | components/DealsTable.tsx:409-410 | dragging the last column right, or the first column left, does not reorder |
| Columns.ReorderRight | components/DealsTable.tsx:409-414 | dragging right 12 or more pixels swaps the column with its right neighbour |
| Columns.ReorderLeft | components/DealsTable.tsx:409-414 | dragging left 12 or more pixels swaps the column with its left neighbour |
| Columns.ReorderMissingColumn | components/DealsTable.tsx:405-414 | when the column is not in the order, the drag moves the last column to the front |
| Columns.Visibility | components/DealsTable.tsx:225 | the visibility map has the same keys as `hidden`, each negated |
| Columns.VisibilityInvolution | components/DealsTable.tsx:225 | negating twice gives back the hidden map |
| Columns.VisibilityOfColumn | components/DealsTable.tsx:225 | a column listed as hidden is visible exactly when its flag is false |
| Menu.Activate | components/ContextMenu.tsx:39 | a click invokes the item's action exactly when the item is not disabled |
| Menu.PressCloses | components/ContextMenu.tsx:12-15 | a press closes the menu when there is no menu node or no target, and otherwise exactly when the target is outside the menu |
| Menu.KeyCloses | components/ContextMenu.tsx:16-18 | exactly Escape closes the menu |
| Menu.Add | components/ContextMenu.tsx:19-21 | after the effect each of the three listeners is registered, and the cleanup undoes exactly this registration |
| Menu.Remove | components/ContextMenu.tsx:22-26 | removal never adds a registration, empties the installed set, and is a no-op when nothing is registered |
| Menu.MenuHost.constructor | components/DealsTable.tsx:134-135 | no menu is open and no listener is installed |
| Menu.MenuHost.Rerender | components/ContextMenu.tsx:11-27 | re-rendering keeps the open menu, and the listeners stay installed exactly while it is shown |
| Menu.MenuHost.Open | components/ContextMenu.tsx:11-27 | opening shows the menu and installs the three listeners, once each |
| Menu.MenuHost.Close | components/ContextMenu.tsx:22-26 | closing hides the menu and removes every listener |
| Menu.MenuHost.OnDocumentPress | components/ContextMenu.tsx:12-15 | a document press closes the menu exactly when it is outside it |
| Menu.MenuHost.OnKeyDown | components/ContextMenu.tsx:16-18 | a key press closes the menu exactly on Escape |
| Menu.MenuHost.ClickItem | components/ContextMenu.tsx:36-39 | clicking an item invokes its action when it is enabled |
| Menu.ChooseInside | components/ContextMenu.tsx:12-15 | the press on an item is inside the menu, so the menu stays open while the item's action runs |
| Table.AfterMoves | components/DealsTable.tsx:406-416 | the listeners of all drags in progress keep the order non-empty |
| Table.AnyMovesSome | components/DealsTable.tsx:406-416 | the order is set during a pointer move exactly when some drag's step yields an order |
| Table.AfterMovesStep | components/DealsTable.tsx:406-416 | the listeners run in registration order: the one registered k-th acts on the order the earlier ones left |
| Table.RunMoves | components/DealsTable.tsx:406-416 | the loop over the registered listeners ends with `AfterMoves`, reports whether any set the order, and leaves the order alone when none did |
| Table.MoveOneOutcome | components/DealsTable.tsx:406-416 | one listener call on the drag's start order leaves it unchanged or one adjacent swap away |
| Table.MoveOne | components/DealsTable.tsx:406-416 | a listener that does not reach the threshold, or would not change the index, leaves the order alone; otherwise it sets the order computed from the drag's start order, whatever the current order, and that order is a permutation of the start order |
| Table.AfterDragKeepsOneSwap | components/DealsTable.tsx:404-416 | from an order within one adjacent swap of the start, any further pointer moves of the drag stay within one swap |
| Table.OneDragOneSwap | components/DealsTable.tsx:403-416 | a whole drag, any sequence of pointer moves from its start order, ends at that order or one adjacent swap away, however far and however often the pointer moves |
| Table.MovesDoNotAccumulate | components/DealsTable.tsx:404-414 | a second move of the same drag is judged from the start order, not from the order the first move produced |
| Table.RowMenuItems | components/DealsTable.tsx:262-266 | three enabled items; Duplicate and Delete are bound to the row |
| Table.HeaderMenuItems | components/DealsTable.tsx:278-284 | five enabled items; the first reads Hide or Show column according to the column's visibility |
| Table.DealsTable.constructor | components/DealsTable.tsx:132-248 | `data` is the seed array's objects; sort and widths come from the store; order comes from the store unless it is empty; the mount effect leaves store and table in agreement |
| Table.DealsTable.SyncColumns | components/DealsTable.tsx:246-248 | the store's column order and widths become the table's; `hidden` and the other slices are unchanged |
| Table.DealsTable.CommitText | components/DealsTable.tsx:23-33 | editing row i changes exactly that record's column; every other record keeps its value |
| Table.DealsTable.CommitStage | components/DealsTable.tsx:54-95 | choosing a stage on row i changes exactly that record's stage |
| Table.DealsTable.CommitAmount | components/DealsTable.tsx:97-110 | committing on row i changes at most that record's amount; a data change is signalled exactly when the text converts |
| Table.DealsTable.EditDetailsNotes | components/DealsTable.tsx:514-517 | the details panel writes exactly that record's notes |
| Table.DealsTable.Duplicate | components/DealsTable.tsx:264 | the existing objects stay and one fresh copy with id `<id>-copy` is appended, as in `Deals.Duplicated` |
| Table.DealsTable.Delete | components/DealsTable.tsx:265 | the snapshot becomes the value-level deletion; no object is created |
| Table.DealsTable.RunRowAction | components/DealsTable.tsx:263-265 | Open details leaves the data alone; Duplicate and Delete do as above; the table's sort, order, widths, focus and drags are unchanged |
| Table.DealsTable.OnRowContext | components/DealsTable.tsx:257-268 | the row menu opens at the pointer with the row's three items |
| Table.DealsTable.OnHeaderContext | components/DealsTable.tsx:271-286 | the column menu opens at the pointer, unless the column is unknown |
| Table.DealsTable.ChooseRowItem | components/ContextMenu.tsx:39 | the menu stays open; a disabled item leaves the data alone; an enabled item runs its action: Open details leaves the data, Duplicate appends the copy, Delete leaves the value-level deletion; the table's sort, order, widths, focus and drags are unchanged |
| Table.DealsTable.Totals | components/DealsTable.tsx:250-254 | the footer figures are `Deals.TotalsOf` of the current records |
| Table.DealsTable.MoveFocus | components/DealsTable.tsx:292-298 | focus moves as `Navigation.MoveFocus` with all eight leaf columns; nothing else changes |
| Table.DealsTable.OnCellKey | components/DealsTable.tsx:466-470 | arrow keys move the focus; other keys leave it alone |
| Table.DealsTable.BeginDrag | components/DealsTable.tsx:401-423 | a drag is registered with the pointer position, a snapshot of the order, and the column's index |
| Table.DealsTable.MouseMove | components/DealsTable.tsx:406-416 | every registered drag's listener runs in order; the order is `AfterMoves`; the store is written only when some listener set the order; agreement with the store is kept |
| Table.DealsTable.MouseUp | components/DealsTable.tsx:417-420 | every drag's listeners are removed |
| Table.DealsTable.OnColumnSizingChange | components/DealsTable.tsx:240-248 | the widths are stored and copied into the store; agreement is kept |
| Table.DealsTable.OnSortingChange | components/DealsTable.tsx:233-237 | the next sort state, given or computed by the updater from the current one, goes into both table and store |
| Table.DealsTable.ClearFilters | components/DealsTable.tsx:306-310 | every filter key present before is set to `undefined`; no key is added; the other slices are unchanged |
| Table.DealsTable.Reset | components/DealsTable.tsx:554-558 | as written: `data` is the seed array's objects with their current values; the store's sort and column slice are cleared; the table's own sort, order and widths are unchanged |
| Table.DealsTable.ResetToSeed | components/DealsTable.tsx:554-558 | corrected: the records hold the values the seed held at mount, in fresh objects, and sort, order and widths are reset in the table and the store alike |
| Table.DealsTable.ResetView | components/DealsTable.tsx:554-558 | corrected, view part: table sort, order and widths return to default and the store agrees with them; `hidden` is cleared; the data is untouched |
| Table.ResetKeepsEdits | components/DealsTable.tsx:132 | over any seed, after renaming the first company and pressing Reset, the first record still reads the new name, not the seed's |
| Table.ResetKeepsSort | components/DealsTable.tsx:554-558 | over any seed, after sorting by company and pressing Reset, the table still sorts by company while the store holds no sort |
| Table.ResetToSeedUndoesEdits | components/DealsTable.tsx:554-558 | with the corrected reset, the same events end with the seed's first company and no sort |

## Left out

- Row models of `@tanstack/react-table` are left out: sorting, multi-sort, column filtering, search, row selection, expansion, header groups and column resizing. Handlers that need one of their figures take it as a parameter: the number of rendered rows, whether a column exists, whether it is visible, and a resize's new widths.
- Table.DealsTable.RunRowAction: Open details calls `row.toggleExpanded()` inside the table library, so the model states only that the data is unchanged.
- The header menu actions are left out (hide/show, autosize 200, sort asc/desc, clear sort). All of them call into the table library. The menu's items are modelled by `Table.HeaderMenuItems`.
- Table.DealsTable.ClearFilters: `table.resetColumnFilters()` is library state and is not modelled.
- The bulk action's `alert`, the stage and status filter selects and the per-column filter selects are left out. Each only feeds the table library or the browser.
- Rendering is left out: JSX, CSS classes, icons, animation, `Intl.NumberFormat` grouping and `Math.round` of the average in the footer.
- DOM focus is left out. The effect that focuses the `data-cell` element and Enter clicking the cell's first control are not modelled. Enter in an editor is the same as blur or commit, which are modelled. Escape in the amount editor is modelled (`Editors.AmountEditor.Escape`). Escape in a text editor blurs it the same way, which is its modelled `Blur`.
- An arrow key pressed inside an editor also bubbles to the cell: the focus moves, the focus effect focuses a cell, and the editor's input loses focus, so its blur commits. The model has that commit (`Blur`, `Commit`) and the move (`OnCellKey`) as separate events, not as one key press.
- zustand's `persist` middleware (localStorage under `deals-ui`) and the re-render subscription are left out. The store is modelled as plain state.
- Numbers.ParseNumber models `Number(...)` only for blank text and optionally signed decimal integers. Fractions, exponents, hex, `Infinity` and floating-point rounding are left out, and such input counts as NaN here, so amounts are integers. `toString` of amounts of 1e21 and above (exponent form) and the loss of precision above 2^53 are left out too.
- Deals.TotalsOf: the average is an exact rational, not an IEEE double.
- Blur when an editor unmounts, and the order of React's batched state updates, are left out. Each handler runs to completion before the next.
- Menu.MenuHost: the document listeners are counted per event type (`mousedown`, `contextmenu`, `keydown`), not kept as function identities, so a removal is matched to an earlier add by type alone.
- The two menus are independent objects. A press that would close one menu while opening the other is not modelled as one event.
- `Object.keys` order in Clear filters is left out. The loop visits the keys in any order, and the result does not depend on it.
- app/page.tsx and app/layout.tsx only mount the component and are not part of this model.

## Findings

| source | as written | input that shows it | evidently intended | confidence | as-written member | corrected member |
|---|---|---|---|---|---|---|
| components/DealsTable.tsx:132 | Reset does `setData([...initialDeals])`, a shallow copy, while the editors write into the record objects themselves, so the seed objects carry every edit | rename `Acme Corp` to `Renamed` in the first row, then press Reset: the first row still reads `Renamed` | Reset shows the seed records as they were at load | high, not executed | Table.ResetKeepsEdits | Table.DealsTable.ResetToSeed |
| components/DealsTable.tsx:554-558 | Reset clears the store's sort and column slice, but not the table's own `sorting`, `columnOrder` and `columnSizing` state, which decide what is displayed | sort by company, then press Reset: the rows stay sorted by company while the store holds no sort | Reset also resets the table's sort, order and widths, so the store and the view agree | medium, not executed | Table.ResetKeepsSort | Table.DealsTable.ResetToSeed |
| components/DealsTable.tsx:119-120 | the amount input's Escape handler only calls `setEditing(false)`, but the key press bubbles to the cell's handler (474-475), which blurs the still-mounted input, and `onBlur={commit}` writes the typed number | type `5` over an amount and press Escape: the amount becomes 5 | Escape abandons the edit and the amount keeps its value | medium, not executed | Editors.EscapeCommits | Editors.AmountEditor.Cancel |
