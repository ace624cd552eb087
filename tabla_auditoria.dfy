/**
 * The audit table of `src/components/Tables/TablaAuditoria.tsx`: records
 * sorted by time in a toggled direction, a date-range filter request, and
 * clamped pagination.
 */
module TablaAuditoria {

  import opened Common
  import opened Sorting
  import opened TableCore
  import opened Entities

  const InsertStyle := "bg-green-100 text-green-800 dark:bg-green-700 dark:text-green-100"
  const DeleteStyle := "bg-red-100 text-red-800 dark:bg-red-700 dark:text-red-100"
  const UpdateStyle := "bg-orange-100 text-orange-800 dark:bg-orange-700 dark:text-orange-100"
  const DefaultStyle := "bg-gray-100 text-gray-800 dark:bg-gray-700 dark:text-gray-100"

  /** The classes of an operation badge: one per known operation, a common default for the rest. */
  function OperationStyle(operation: string): (r: string)
    ensures r == InsertStyle <==> operation == "INSERT"
    ensures r == DeleteStyle <==> operation == "DELETE"
    ensures r == UpdateStyle <==> operation == "UPDATE"
    ensures r == DefaultStyle <==> operation !in {"INSERT", "DELETE", "UPDATE"}
  {
    match operation
    case "INSERT" => InsertStyle
    case "DELETE" => DeleteStyle
    case "UPDATE" => UpdateStyle
    case _ => DefaultStyle
  }

  predicate TimeLe(ascending: bool, a: Auditoria, b: Auditoria)
  {
    if ascending then a.FechaHora <= b.FechaHora else b.FechaHora <= a.FechaHora
  }

  /** The records ordered by time, oldest first when `ascending`, newest first otherwise. */
  function SortedByTime(data: seq<Auditoria>, ascending: bool): (r: seq<Auditoria>)
    ensures multiset(r) == multiset(data)
    ensures forall i, j :: 0 <= i < j < |r| ==>
      if ascending then r[i].FechaHora <= r[j].FechaHora else r[i].FechaHora >= r[j].FechaHora
  {
    var le := (a, b) => TimeLe(ascending, a, b);
    assert TotalPreorder(le);
    var r := SortBy(data, le);
    assert forall i, j :: 0 <= i < j < |r| ==> TimeLe(ascending, r[i], r[j]);
    r
  }

  /** A line of the table body. */
  datatype BodyRow =
    | Placeholder
    | Line(when: string, user: string, operation: string, style: string, registro: int, details: Details)

  /** The body: one line per record of the page, or the single placeholder when the page is empty. */
  function Body(page: seq<Auditoria>, formatTime: int -> string): (r: seq<BodyRow>)
    ensures page == [] <==> r == [Placeholder]
    ensures page != [] ==> |r| == |page| && forall i :: 0 <= i < |page| ==>
      r[i] == Line(formatTime(page[i].FechaHora), page[i].UsuarioNombre, page[i].Operacion,
                   OperationStyle(page[i].Operacion), page[i].IdRegistro, page[i].Detalles)
  {
    if page == [] then [Placeholder]
    else
      var r := seq(|page|, i requires 0 <= i < |page| =>
        Line(formatTime(page[i].FechaHora), page[i].UsuarioNombre, page[i].Operacion,
             OperationStyle(page[i].Operacion), page[i].IdRegistro, page[i].Detalles));
      assert r[0].Line?;
      r
  }

  class TablaAuditoria {
    var data: seq<Auditoria>
    var startDate: string
    var endDate: string
    var currentPage: nat
    var rowsPerPage: nat
    var isAscending: bool

    ghost predicate Valid()
      reads this
    {
      currentPage >= 1 && rowsPerPage >= 1
    }

    constructor (data: seq<Auditoria>)
      ensures Valid()
      ensures this.data == data && startDate == "" && endDate == ""
      ensures currentPage == 1 && rowsPerPage == 10 && isAscending
    {
      this.data := data;
      startDate := "";
      endDate := "";
      currentPage := 1;
      rowsPerPage := 10;
      isAscending := true;
    }

    /** The `data` prop changes; the view state is kept. */
    method DataChanged(newData: seq<Auditoria>)
      requires Valid()
      modifies this
      ensures Valid()
      ensures data == newData
      ensures startDate == old(startDate) && endDate == old(endDate) && currentPage == old(currentPage)
      ensures rowsPerPage == old(rowsPerPage) && isAscending == old(isAscending)
    {
      data := newData;
    }

    function SortedData(): seq<Auditoria>
      reads this
    {
      SortedByTime(data, isAscending)
    }

    function TotalPages(): nat
      reads this
      requires Valid()
    {
      PageCount(|data|, rowsPerPage)
    }

    /** The records on the current page: `sorted.slice((p - 1) * n, p * n)`. */
    function Paginated(): (r: seq<Auditoria>)
      reads this
      requires Valid()
      ensures r == Window(SortedByTime(data, isAscending), currentPage, rowsPerPage)
      ensures |r| <= rowsPerPage
      ensures multiset(r) <= multiset(data)
    {
      var r := Window(SortedData(), currentPage, rowsPerPage);
      WindowInMultiset(SortedData(), currentPage, rowsPerPage);
      r
    }

    method SetStartDate(value: string)
      requires Valid()
      modifies this
      ensures Valid()
      ensures startDate == value && endDate == old(endDate) && data == old(data)
      ensures currentPage == old(currentPage) && rowsPerPage == old(rowsPerPage) && isAscending == old(isAscending)
    {
      startDate := value;
    }

    method SetEndDate(value: string)
      requires Valid()
      modifies this
      ensures Valid()
      ensures endDate == value && startDate == old(startDate) && data == old(data)
      ensures currentPage == old(currentPage) && rowsPerPage == old(rowsPerPage) && isAscending == old(isAscending)
    {
      endDate := value;
    }

    /** "Filtrar": asks the parent for the date range only when both dates are set. */
    method FilterClick() returns (request: Option<(string, string)>)
      ensures request.Some? <==> startDate != "" && endDate != ""
      ensures request.Some? ==> request.value == (startDate, endDate)
    {
      if startDate != "" && endDate != "" {
        request := Some((startDate, endDate));
      } else {
        request := None;
      }
    }

    /** Advances only while a later page exists. */
    method HandleNextPage()
      requires Valid()
      modifies this
      ensures Valid()
      ensures currentPage == if old(currentPage) < old(TotalPages()) then old(currentPage) + 1 else old(currentPage)
      ensures data == old(data) && rowsPerPage == old(rowsPerPage) && isAscending == old(isAscending)
      ensures startDate == old(startDate) && endDate == old(endDate)
    {
      if currentPage < TotalPages() {
        currentPage := currentPage + 1;
      }
    }

    /** Goes back only from a page after the first, so the page never drops below 1. */
    method HandlePreviousPage()
      requires Valid()
      modifies this
      ensures Valid()
      ensures currentPage == if old(currentPage) > 1 then old(currentPage) - 1 else old(currentPage)
      ensures data == old(data) && rowsPerPage == old(rowsPerPage) && isAscending == old(isAscending)
      ensures startDate == old(startDate) && endDate == old(endDate)
    {
      if currentPage > 1 {
        currentPage := currentPage - 1;
      }
    }

    /** A choice of 5, 10, 25 or 50 rows per page, back on page 1. */
    method HandleRowsPerPageChange(n: nat)
      requires Valid() && n in {5, 10, 25, 50}
      modifies this
      ensures Valid()
      ensures rowsPerPage == n && currentPage == 1
      ensures data == old(data) && isAscending == old(isAscending)
      ensures startDate == old(startDate) && endDate == old(endDate)
    {
      rowsPerPage := n;
      currentPage := 1;
    }

    /** The time header flips the direction and nothing else. */
    method ToggleSortOrder()
      requires Valid()
      modifies this
      ensures Valid()
      ensures isAscending == !old(isAscending)
      ensures data == old(data) && currentPage == old(currentPage) && rowsPerPage == old(rowsPerPage)
      ensures startDate == old(startDate) && endDate == old(endDate)
    {
      isAscending := !isAscending;
    }
  }

  lemma WindowInMultiset<T>(rows: seq<T>, page: nat, n: nat)
    requires page >= 1 && n >= 1
    ensures multiset(Window(rows, page, n)) <= multiset(rows)
  {
    var start := Min((page - 1) * n, |rows|);
    var end := Min((page - 1) * n + n, |rows|);
    assert Window(rows, page, n) == rows[start..end];
    assert rows == rows[..start] + rows[start..end] + rows[end..];
  }
}
