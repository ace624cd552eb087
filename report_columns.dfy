/**
 * The columns of the student report of `src/components/reports/ReportAlumno.tsx`
 * and the checkbox toggle that keeps the selected columns in the offered order.
 */
module ReportColumns {

  import opened Common
  import opened Sorting

  /** A column the report offers; `Label` is its header text. */
  datatype Column =
    | Id | Nombre | Apellido | FechaNacimiento | Sexo | Grado | Turno | Encargado
    | NIE | EsBecado | NombrePadrino | Administrador | FechaRegistro

  function Label(c: Column): string
  {
    match c
    case Id => "Id"
    case Nombre => "Nombre"
    case Apellido => "Apellido"
    case FechaNacimiento => "FechaNacimiento"
    case Sexo => "Sexo"
    case Grado => "Grado"
    case Turno => "Turno"
    case Encargado => "Encargado"
    case NIE => "NIE"
    case EsBecado => "EsBecado"
    case NombrePadrino => "Nombre del Padrino"
    case Administrador => "Administrador"
    case FechaRegistro => "Fecha de Registro"
  }

  /** Every column the report offers, in display order (`allHeaders`). */
  const AllHeaders: seq<Column> := [
    Id, Nombre, Apellido, FechaNacimiento, Sexo, Grado, Turno, Encargado,
    NIE, EsBecado, NombrePadrino, Administrador, FechaRegistro]

  /** The columns selected when the dialog mounts. */
  const InitialHeaders: seq<Column> := [Id, Nombre, Apellido, Grado, Turno, Encargado, NIE, EsBecado, FechaRegistro]

  /** `allHeaders.indexOf(column)`: the position of a column in the offered order. */
  function Position(c: Column): (r: nat)
    ensures r < |AllHeaders|
  {
    match c
    case Id => 0
    case Nombre => 1
    case Apellido => 2
    case FechaNacimiento => 3
    case Sexo => 4
    case Grado => 5
    case Turno => 6
    case Encargado => 7
    case NIE => 8
    case EsBecado => 9
    case NombrePadrino => 10
    case Administrador => 11
    case FechaRegistro => 12
  }

  /** `Position` is where the column sits in `allHeaders`. */
  lemma PositionLocates(c: Column)
    ensures AllHeaders[Position(c)] == c
  {
  }

  /** The comparator `(a, b) => allHeaders.indexOf(a) - allHeaders.indexOf(b)`, as an order. */
  predicate ByPosition(a: Column, b: Column)
  {
    Position(a) <= Position(b)
  }

  lemma ByPositionIsTotalPreorder()
    ensures TotalPreorder(ByPosition)
  {
  }

  /** Two columns at the same position are the same column. */
  lemma PositionInjective()
    ensures forall a, b :: ByPosition(a, b) && ByPosition(b, a) ==> a == b
  {
    forall a, b | ByPosition(a, b) && ByPosition(b, a) ensures a == b {
      PositionLocates(a);
      PositionLocates(b);
    }
  }

  /** Each column at most once, in `allHeaders` order. */
  predicate InOfferedOrder(cols: seq<Column>)
  {
    forall i, j :: 0 <= i < j < |cols| ==> Position(cols[i]) < Position(cols[j])
  }

  lemma AllAndInitialInOrder()
    ensures InOfferedOrder(AllHeaders) && InOfferedOrder(InitialHeaders)
  {
  }

  /** `prev.filter(h => h !== header)` when the column is selected, `[...prev, header]` otherwise. */
  function Updated(prev: seq<Column>, header: Column): (r: seq<Column>)
    ensures forall x :: x != header ==> multiset(r)[x] == multiset(prev)[x]
    ensures multiset(r)[header] == if header in prev then 0 else multiset(prev)[header] + 1
  {
    if header in prev then Filter(prev, h => h != header) else prev + [header]
  }

  /** A checkbox click: the column is removed when selected, appended otherwise, and the list re-sorted by position. */
  function ToggleHeader(prev: seq<Column>, header: Column): (r: seq<Column>)
    ensures header in prev ==> header !in r
    ensures header !in prev ==> header in r
    ensures forall x :: x != header ==> (x in r <==> x in prev)
    ensures multiset(r) == multiset(Updated(prev, header))
    ensures SortedBy(r, ByPosition)
  {
    ByPositionIsTotalPreorder();
    var r := SortBy(Updated(prev, header), ByPosition);
    assert forall x :: x in r <==> x in multiset(Updated(prev, header));
    r
  }

  /** A value at two indices is counted at least twice. */
  lemma RepeatedCounted(s: seq<Column>, i: nat, j: nat)
    requires i < j < |s| && s[i] == s[j]
    ensures multiset(s)[s[i]] >= 2
  {
    assert s == s[..j] + s[j..];
    assert s[..j][i] == s[i];
    assert s[j..][0] == s[i];
    assert multiset(s[..j])[s[i]] >= 1 && multiset(s[j..])[s[i]] >= 1;
  }

  /** A sorted list that holds each column at most once is in the offered order. */
  lemma SortedSingleInOrder(s: seq<Column>)
    requires SortedBy(s, ByPosition)
    requires forall x :: multiset(s)[x] <= 1
    ensures InOfferedOrder(s)
  {
    forall i, j | 0 <= i < j < |s| ensures Position(s[i]) < Position(s[j]) {
      if Position(s[i]) == Position(s[j]) {
        PositionInjective();
        assert ByPosition(s[i], s[j]) && ByPosition(s[j], s[i]);
        RepeatedCounted(s, i, j);
        assert false;
      }
    }
  }

  lemma SingleCounts(s: seq<Column>)
    requires InOfferedOrder(s)
    ensures forall x :: multiset(s)[x] == if x in s then 1 else 0
  {
    assert Distinct(s);
    forall x ensures multiset(s)[x] == if x in s then 1 else 0 {
      DistinctCount(s, x);
    }
  }

  /** Toggling a column keeps the selection in the offered order, each column once. */
  lemma ToggleKeepsOrder(prev: seq<Column>, header: Column)
    requires InOfferedOrder(prev)
    ensures InOfferedOrder(ToggleHeader(prev, header))
  {
    var r := ToggleHeader(prev, header);
    SingleCounts(prev);
    assert forall x :: multiset(r)[x] <= 1;
    SortedSingleInOrder(r);
  }

  /** A selection in the offered order is determined by which columns it holds. */
  lemma OrderDetermined(a: seq<Column>, b: seq<Column>)
    requires InOfferedOrder(a) && InOfferedOrder(b)
    requires forall x :: x in a <==> x in b
    ensures a == b
  {
    SingleCounts(a);
    SingleCounts(b);
    assert multiset(a) == multiset(b);
    PositionInjective();
    SortedUnique(a, b, ByPosition);
  }

  /** Toggling the same column twice gives the selection back. */
  lemma ToggleTwice(prev: seq<Column>, header: Column)
    requires InOfferedOrder(prev)
    ensures ToggleHeader(ToggleHeader(prev, header), header) == prev
  {
    ToggleKeepsOrder(prev, header);
    ToggleKeepsOrder(ToggleHeader(prev, header), header);
    OrderDetermined(ToggleHeader(ToggleHeader(prev, header), header), prev);
  }
}
