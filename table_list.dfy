/**
 * The list view of `src/components/Tables/TableList.tsx`, used by the alumno
 * and encargado pages: newest-first view of the data, search over the full
 * data, column sort and pagination.
 */
module TablesTableList {

  import opened Common
  import opened Text
  import opened TableCore

  class TableList {
    const headers: seq<string>
    var data: seq<Row>
    var currentPage: nat
    var rowsPerPage: nat
    var sortedData: seq<Row>
    var filteredData: seq<Row>
    var searchQuery: string
    var sortConfig: Option<SortConfig>

    /** Pages count from 1, a page holds at least one row, and every shown row comes from `data`. */
    ghost predicate Valid()
      reads this
    {
      |headers| > 0 && currentPage >= 1 && rowsPerPage >= 1
      && multiset(filteredData) <= multiset(data)
    }

    /**
     * Mounting: the first render, where the view is `data` reversed and the sort
     * state claims the first header descending. The effects that follow are
     * `DataChanged` with the same data.
     */
    constructor (headers: seq<string>, data: seq<Row>, initialRowsPerPage: nat)
      requires |headers| > 0 && initialRowsPerPage >= 1
      ensures Valid()
      ensures this.headers == headers && this.data == data
      ensures sortedData == Reverse(data) && filteredData == Reverse(data)
      ensures currentPage == 1 && rowsPerPage == initialRowsPerPage && searchQuery == ""
      ensures sortConfig == Some(SortConfig(headers[0], Desc))
    {
      this.headers := headers;
      this.data := data;
      currentPage := 1;
      rowsPerPage := initialRowsPerPage;
      sortedData := Reverse(data);
      filteredData := Reverse(data);
      searchQuery := "";
      sortConfig := Some(SortConfig(headers[0], Desc));
    }

    /**
     * The two effects on `data`, run after mounting and whenever the prop
     * changes. `stored` is the sort configuration saved in the browser under
     * `tableSortConfig`, if any. A stored one with a key becomes the sort state
     * and sends the page back to 1; the sort it starts is overwritten by the
     * second effect, so the view is always the new data reversed. Without one,
     * the page and the sort state are kept.
     */
    method DataChanged(newData: seq<Row>, stored: Option<SortConfig>)
      requires Valid()
      modifies this
      ensures Valid()
      ensures data == newData && sortedData == Reverse(newData) && filteredData == Reverse(newData)
      ensures stored.Some? && stored.value.key != "" ==> sortConfig == stored && currentPage == 1
      ensures !(stored.Some? && stored.value.key != "") ==>
        sortConfig == old(sortConfig) && currentPage == old(currentPage)
      ensures rowsPerPage == old(rowsPerPage) && searchQuery == old(searchQuery)
    {
      var view := Reverse(newData);
      if stored.Some? && stored.value.key != "" {
        // `handleSort(key, direction, data)`; its lists are replaced just below
        sortConfig := stored;
        currentPage := 1;
      }
      data := newData;
      sortedData := view;
      filteredData := view;
    }

    function TotalPages(): nat
      reads this
      requires Valid()
    {
      PageCount(|filteredData|, rowsPerPage)
    }

    /** The rows the table body shows. */
    function Paginated(): (r: seq<Row>)
      reads this
      requires Valid()
      ensures r == Window(filteredData, currentPage, rowsPerPage)
      ensures |r| <= rowsPerPage
      ensures forall i :: 0 <= i < |r| ==>
        (currentPage - 1) * rowsPerPage + i < |filteredData| && r[i] == filteredData[(currentPage - 1) * rowsPerPage + i]
    {
      Window(filteredData, currentPage, rowsPerPage)
    }

    function PrevDisabled(): bool
      reads this
    {
      currentPage == 1
    }

    /** "next" is disabled on the last page only; with nothing to show it stays enabled. */
    function NextDisabled(): (r: bool)
      reads this
      requires Valid()
      ensures |filteredData| == 0 ==> !r
    {
      currentPage == TotalPages()
    }

    method RowsPerPageChange(n: nat)
      requires Valid() && n >= 1
      modifies this
      ensures Valid()
      ensures rowsPerPage == n && currentPage == 1
      ensures data == old(data) && filteredData == old(filteredData) && sortedData == old(sortedData)
      ensures searchQuery == old(searchQuery) && sortConfig == old(sortConfig)
    {
      rowsPerPage := n;
      currentPage := 1;
    }

    method PageChange(page: nat)
      requires Valid() && page >= 1
      modifies this
      ensures Valid()
      ensures currentPage == page
      ensures data == old(data) && filteredData == old(filteredData) && sortedData == old(sortedData)
      ensures rowsPerPage == old(rowsPerPage) && searchQuery == old(searchQuery) && sortConfig == old(sortConfig)
    {
      currentPage := page;
    }

    /** The "<" button: goes back one page unless it is disabled on page 1, so the page stays at least 1. */
    method ClickPrevious()
      requires Valid()
      modifies this
      ensures Valid()
      ensures currentPage == if old(PrevDisabled()) then old(currentPage) else old(currentPage) - 1
      ensures data == old(data) && filteredData == old(filteredData) && sortedData == old(sortedData)
      ensures rowsPerPage == old(rowsPerPage) && searchQuery == old(searchQuery) && sortConfig == old(sortConfig)
    {
      if !PrevDisabled() {
        PageChange(currentPage - 1);
      }
    }

    /** The ">" button: goes forward one page unless the page equals the page count. */
    method ClickNext()
      requires Valid()
      modifies this
      ensures Valid()
      ensures currentPage == if old(NextDisabled()) then old(currentPage) else old(currentPage) + 1
      ensures data == old(data) && filteredData == old(filteredData) && sortedData == old(sortedData)
      ensures rowsPerPage == old(rowsPerPage) && searchQuery == old(searchQuery) && sortConfig == old(sortConfig)
    {
      if !NextDisabled() {
        PageChange(currentPage + 1);
      }
    }

    /**
     * `handleSort(key, direction)`: the current view sorted by `row[key]`,
     * recorded as the sort state, from page 1.
     */
    method HandleSort(key: string, direction: Direction)
      requires Valid()
      modifies this
      ensures Valid()
      ensures filteredData == SortRows(old(filteredData), key, direction) && sortedData == filteredData
      ensures multiset(filteredData) == multiset(old(filteredData))
      ensures InKeyOrder(filteredData, key, direction)
      ensures sortConfig == Some(SortConfig(key, direction)) && currentPage == 1
      ensures data == old(data) && rowsPerPage == old(rowsPerPage) && searchQuery == old(searchQuery)
    {
      var sorted := SortRows(filteredData, key, direction);
      sortedData := sorted;
      filteredData := sorted;
      sortConfig := Some(SortConfig(key, direction));
      currentPage := 1;
    }

    /** The sort button: the opposite direction on the current key, or on the first header. */
    method ToggleSortOrder()
      requires Valid()
      modifies this
      ensures Valid()
      ensures var key := KeyOrFirst(old(sortConfig), headers);
        var dir := Opposite(old(sortConfig));
        filteredData == SortRows(old(filteredData), key, dir) && sortedData == filteredData
        && sortConfig == Some(SortConfig(key, dir)) && currentPage == 1
      ensures data == old(data) && rowsPerPage == old(rowsPerPage) && searchQuery == old(searchQuery)
    {
      HandleSort(KeyOrFirst(sortConfig, headers), Opposite(sortConfig));
    }

    /**
     * A click on a header sorts by it in the opposite of the current direction,
     * whichever key the current sort uses.
     */
    method HeaderClick(header: string)
      requires Valid() && header in headers
      modifies this
      ensures Valid()
      ensures filteredData == SortRows(old(filteredData), header, Opposite(old(sortConfig)))
      ensures sortedData == filteredData
      ensures sortConfig == Some(SortConfig(header, Opposite(old(sortConfig)))) && currentPage == 1
      ensures data == old(data) && rowsPerPage == old(rowsPerPage) && searchQuery == old(searchQuery)
    {
      HandleSort(header, Opposite(sortConfig));
    }

    /**
     * Typing in the search box: the lowercased query is stored and the view
     * becomes the matching rows of `data` in `data` order, dropping any sort
     * or reversal; the page goes back to 1.
     */
    method HandleSearch(value: string)
      requires Valid()
      modifies this
      ensures Valid()
      ensures searchQuery == Lower(value)
      ensures filteredData == Search(data, headers, Lower(value))
      ensures currentPage == 1
      ensures data == old(data) && sortedData == old(sortedData)
      ensures rowsPerPage == old(rowsPerPage) && sortConfig == old(sortConfig)
    {
      var query := Lower(value);
      searchQuery := query;
      var filtered := Search(data, headers, query);
      assert multiset(filtered) <= multiset(data);
      filteredData := filtered;
      currentPage := 1;
    }

    /**
     * An action button of shown row `i` passes that row, which is a row of
     * `data`, together with the action.
     */
    function ActionClick(i: nat, action: Action): (r: (Row, Action))
      reads this
      requires Valid() && i < |Paginated()|
      ensures r.0 == Paginated()[i] && r.1 == action
      ensures r.0 in data
    {
      var row := Paginated()[i];
      assert row in multiset(filteredData);
      (row, action)
    }

    /** The cells of shown row `i`: `'-'` under every header the row lacks. */
    function Cells(i: nat): (r: seq<Cell>)
      reads this
      requires Valid() && i < |Paginated()|
      ensures |r| == |headers|
      ensures forall k :: 0 <= k < |headers| ==> (r[k] == Dash <==> headers[k] !in Paginated()[i])
    {
      RenderRow(Paginated()[i], headers)
    }
  }
}
