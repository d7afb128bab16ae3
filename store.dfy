/**
 * The UI preferences store of lib/store.ts: one state object with four slices, each
 * replaced by its own setter.
 */
module Store {

  /** One key of the sort specification: `{ id, desc }`. */
  datatype SortKey = SortKey(id: string, desc: bool)

  /** A filter value is `unknown` in the source; `Undefined` is the value clearing writes. */
  datatype FilterValue = Undefined | Given(text: string)

  /** `ColumnState`: hidden flags, column order and widths, keyed by column id. */
  datatype ColumnState = ColumnState(
    hidden: map<string, bool>,
    order: seq<string>,
    widths: map<string, int>)

  /** `{ hidden: {}, order: [], widths: {} }`. */
  const EmptyColumnState := ColumnState(map[], [], map[])

  /** `{ ...filters, [k]: undefined }` for every key `k` already present. */
  function ClearedFilters(filters: map<string, FilterValue>): (r: map<string, FilterValue>)
    ensures r.Keys == filters.Keys
    ensures forall k :: k in r ==> r[k] == Undefined
  {
    map k | k in filters :: Undefined
  }

  class UIStore {
    var sort: seq<SortKey>
    var filters: map<string, FilterValue>
    var column: ColumnState
    var selection: seq<string>

    /** The store's initial state. */
    constructor ()
      ensures sort == [] && filters == map[] && column == EmptyColumnState && selection == []
    {
      sort := [];
      filters := map[];
      column := EmptyColumnState;
      selection := [];
    }

    /** `setSort(s)`: `set({ sort: s })`. */
    method SetSort(s: seq<SortKey>)
      modifies this
      ensures sort == s
      ensures filters == old(filters) && column == old(column) && selection == old(selection)
    {
      sort := s;
    }

    /** `setFilter(col, value)`: `set({ filters: { ...get().filters, [col]: value } })`. */
    method SetFilter(col: string, value: FilterValue)
      modifies this
      ensures filters == old(filters)[col := value]
      ensures forall k :: k in old(filters) && k != col ==> k in filters && filters[k] == old(filters)[k]
      ensures sort == old(sort) && column == old(column) && selection == old(selection)
    {
      filters := filters[col := value];
    }

    /** `setColumn(updater)`: `set({ column: updater(get().column) })`, the updater applied once. */
    method SetColumn(updater: ColumnState -> ColumnState)
      modifies this
      ensures column == updater(old(column))
      ensures sort == old(sort) && filters == old(filters) && selection == old(selection)
    {
      column := updater(column);
    }

    /** `setSelection(ids)`: `set({ selection: ids })`. */
    method SetSelection(ids: seq<string>)
      modifies this
      ensures selection == ids
      ensures sort == old(sort) && filters == old(filters) && column == old(column)
    {
      selection := ids;
    }
  }
}
