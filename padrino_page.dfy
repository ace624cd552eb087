/**
 * The sponsor list page of `src/app/padrino/page.tsx`: it stores only the
 * projected rows of the sponsors, resolves a row action by name among those
 * rows, and shows the selection in a details dialog.
 */
module PadrinoPage {

  import opened Common
  import Entities

  const TableHeaders: seq<string> := ["Nombre", "Apellido", "Correo", "Fecha de Registro"]

  /** The keys of a stored row: the four columns and nothing else, in particular no id. */
  const StoredKeys: set<string> := {"Nombre", "Apellido", "Correo", "Fecha de Registro"}

  /** The row stored for a sponsor: names, mail and the formatted registration date. */
  function Projection(p: Entities.Padrino, formatDate: string -> string): (r: Row)
    ensures r.Keys == StoredKeys
    ensures Get(r, "Id") == None
    ensures Get(r, "Nombre") == Some(Str(p.Nombre)) && Get(r, "Apellido") == Some(Str(p.Apellido))
    ensures Get(r, "Correo") == Some(Str(p.Correo))
    ensures Get(r, "Fecha de Registro") == Some(Str(formatDate(p.RegistrationDate)))
  {
    map[
      "Nombre" := Str(p.Nombre), "Apellido" := Str(p.Apellido), "Correo" := Str(p.Correo),
      "Fecha de Registro" := Str(formatDate(p.RegistrationDate))
    ]
  }

  function Projections(padrinos: seq<Entities.Padrino>, formatDate: string -> string): (r: seq<Row>)
    ensures |r| == |padrinos|
    ensures forall i :: 0 <= i < |padrinos| ==> r[i] == Projection(padrinos[i], formatDate)
  {
    seq(|padrinos|, i requires 0 <= i < |padrinos| => Projection(padrinos[i], formatDate))
  }

  /** `p.Nombre === row.Nombre && p.Apellido === row.Apellido` (two missing fields are equal). */
  predicate SameNames(p: Row, row: Row)
  {
    Get(p, "Nombre") == Get(row, "Nombre") && Get(p, "Apellido") == Get(row, "Apellido")
  }

  /** `padrinos.find(..)` over the stored rows: the first with the row's names. */
  function Resolve(stored: seq<Row>, row: Row): (r: Option<Row>)
    ensures r.None? <==> forall i :: 0 <= i < |stored| ==> !SameNames(stored[i], row)
    ensures r.Some? ==> r.value in stored && SameNames(r.value, row)
    ensures r.Some? ==>
      exists i :: 0 <= i < |stored| && stored[i] == r.value && forall j :: 0 <= j < i ==> !SameNames(stored[j], row)
  {
    match FirstIndex(stored, (p: Row) => SameNames(p, row))
    case None => None
    case Some(i) => Some(stored[i])
  }

  /** Every stored row resolves, to itself or to an earlier row with the same names. */
  lemma ResolveStored(stored: seq<Row>, k: nat)
    requires k < |stored|
    ensures Resolve(stored, stored[k]).Some? && SameNames(Resolve(stored, stored[k]).value, stored[k])
  {
    assert SameNames(stored[k], stored[k]);
  }

  /**
   * What the page's own `formatDate` (lines 11-17) prints for `undefined`:
   * `new Date(undefined)` is an invalid date, so day and month print as
   * "NaN" and the last two characters of the year "NaN" are "aN".
   */
  const UndefinedDateText: string := "NaN/NaN/aN"

  /**
   * The nine lines of the details dialog: eight are the field they read
   * (`None` for `undefined`), the last is the text of the formatted date.
   */
  datatype Details = Details(
    id: Option<Value>, nombre: Option<Value>, apellido: Option<Value>, telefono: Option<Value>,
    correo: Option<Value>, role: Option<Value>, adminName: Option<Value>, adminLastName: Option<Value>,
    registrationDate: string)

  /**
   * The dialog as written: every line reads a field of the selected stored
   * row; the date line formats `RegistrationDate`, which a missing field
   * turns into the invalid-date text. Stored rows never hold that field, so
   * only its text and missing cases arise on this page.
   */
  function DetailsOf(selected: Row, formatDate: string -> string): Details
  {
    Details(Get(selected, "Id"), Get(selected, "Nombre"), Get(selected, "Apellido"), Get(selected, "Telefono"),
      Get(selected, "Correo"), Get(selected, "RoleName"), Get(selected, "AdminName"), Get(selected, "AdminLastName"),
      match Get(selected, "RegistrationDate")
      case Some(Str(date)) => formatDate(date)
      case _ => UndefinedDateText)
  }

  /**
   * A stored row lacks the id, phone, role, administrator and raw date
   * fields: those lines are empty and the date line is the invalid-date text,
   * while the name and mail lines show the row's values.
   */
  lemma StoredRowDetails(selected: Row, formatDate: string -> string)
    requires selected.Keys == StoredKeys
    ensures var d := DetailsOf(selected, formatDate);
      d.id.None? && d.telefono.None? && d.role.None? && d.adminName.None? && d.adminLastName.None?
      && d.registrationDate == UndefinedDateText
      && d.nombre == Get(selected, "Nombre") && d.apellido == Get(selected, "Apellido")
      && d.correo == Get(selected, "Correo") && d.nombre.Some? && d.apellido.Some? && d.correo.Some?
  {
  }

  /** The dialog as evidently intended: the lines of the full sponsor, with its date formatted. */
  function DetailsOfPadrino(p: Entities.Padrino, formatDate: string -> string): (r: Details)
    ensures r.id == Some(Num(p.Id)) && r.telefono == Some(Str(p.Telefono)) && r.role == Some(Str(p.RoleName))
    ensures r.adminName == Some(Str(p.AdminName)) && r.adminLastName == Some(Str(p.AdminLastName))
    ensures r.registrationDate == formatDate(p.RegistrationDate)
  {
    Details(Some(Num(p.Id)), Some(Str(p.Nombre)), Some(Str(p.Apellido)), Some(Str(p.Telefono)), Some(Str(p.Correo)),
      Some(Str(p.RoleName)), Some(Str(p.AdminName)), Some(Str(p.AdminLastName)), formatDate(p.RegistrationDate))
  }

  predicate SponsorOf(p: Entities.Padrino, row: Row)
  {
    Get(row, "Nombre") == Some(Str(p.Nombre)) && Get(row, "Apellido") == Some(Str(p.Apellido))
  }

  /** The corrected lookup: the first full sponsor with the row's names. */
  function ResolveFull(padrinos: seq<Entities.Padrino>, row: Row): (r: Option<Entities.Padrino>)
    ensures r.None? <==> forall i :: 0 <= i < |padrinos| ==> !SponsorOf(padrinos[i], row)
    ensures r.Some? ==> r.value in padrinos && SponsorOf(r.value, row)
    ensures r.Some? ==>
      exists i :: 0 <= i < |padrinos| && padrinos[i] == r.value && forall j :: 0 <= j < i ==> !SponsorOf(padrinos[j], row)
  {
    match FirstIndex(padrinos, (p: Entities.Padrino) => SponsorOf(p, row))
    case None => None
    case Some(i) => Some(padrinos[i])
  }

  /**
   * With the lookup over the full sponsors, the row of any listed sponsor
   * resolves to a sponsor with its names, and the dialog shows every line of
   * that sponsor: id, names, phone, mail, role, administrator and formatted date.
   */
  lemma CorrectedDetails(padrinos: seq<Entities.Padrino>, k: nat, formatDate: string -> string)
    requires k < |padrinos|
    ensures var r := ResolveFull(padrinos, Projection(padrinos[k], formatDate));
      r.Some? && r.value.Nombre == padrinos[k].Nombre && r.value.Apellido == padrinos[k].Apellido
      && DetailsOfPadrino(r.value, formatDate) == Details(
        Some(Num(r.value.Id)), Some(Str(padrinos[k].Nombre)), Some(Str(padrinos[k].Apellido)),
        Some(Str(r.value.Telefono)), Some(Str(r.value.Correo)), Some(Str(r.value.RoleName)),
        Some(Str(r.value.AdminName)), Some(Str(r.value.AdminLastName)), formatDate(r.value.RegistrationDate))
  {
    assert SponsorOf(padrinos[k], Projection(padrinos[k], formatDate));
  }

  /** No two listed sponsors share both names. */
  ghost predicate DistinctNames(padrinos: seq<Entities.Padrino>)
  {
    forall i, j :: 0 <= i < j < |padrinos| ==>
      padrinos[i].Nombre != padrinos[j].Nombre || padrinos[i].Apellido != padrinos[j].Apellido
  }

  /** When names are distinct, the corrected dialog shows exactly the sponsor whose row was clicked. */
  lemma CorrectedDetailsDistinct(padrinos: seq<Entities.Padrino>, k: nat, formatDate: string -> string)
    requires k < |padrinos| && DistinctNames(padrinos)
    ensures ResolveFull(padrinos, Projection(padrinos[k], formatDate)) == Some(padrinos[k])
  {
    var row := Projection(padrinos[k], formatDate);
    assert SponsorOf(padrinos[k], row);
    var r := ResolveFull(padrinos, row);
    var j :| 0 <= j < |padrinos| && padrinos[j] == r.value;
    assert SponsorOf(padrinos[j], row);
    assert padrinos[j].Nombre == padrinos[k].Nombre && padrinos[j].Apellido == padrinos[k].Apellido;
  }

  class PadrinoPage {
    const formatDate: string -> string
    var padrinos: seq<Row>
    var loading: bool
    var isCreateModalOpen: bool
    var selectedPadrino: Option<Row>

    /** Every stored row is a projection, and a selection is one of the stored rows. */
    ghost predicate Valid()
      reads this
    {
      (forall i :: 0 <= i < |padrinos| ==> padrinos[i].Keys == StoredKeys)
      && (selectedPadrino.Some? ==> selectedPadrino.value.Keys == StoredKeys)
    }

    constructor (formatDate: string -> string)
      ensures Valid()
      ensures this.formatDate == formatDate && padrinos == [] && loading && !isCreateModalOpen && selectedPadrino == None
    {
      this.formatDate := formatDate;
      padrinos := [];
      loading := true;
      isCreateModalOpen := false;
      selectedPadrino := None;
    }

    /** `fetchPadrinos`, once the request has settled: on success the projections are stored; loading is over. */
    method FetchPadrinos(result: Fetched<seq<Entities.Padrino>>)
      requires Valid()
      modifies this
      ensures Valid()
      ensures !loading
      ensures padrinos == if result.Loaded? then Projections(result.data, formatDate) else old(padrinos)
      ensures selectedPadrino == old(selectedPadrino) && isCreateModalOpen == old(isCreateModalOpen)
    {
      loading := true;
      if result.Loaded? {
        padrinos := Projections(result.data, formatDate);
      }
      loading := false;
    }

    /** The table receives exactly the stored rows. */
    function TableData(): (r: seq<Row>)
      reads this
      requires Valid()
      ensures r == padrinos
      ensures forall i :: 0 <= i < |r| ==> Get(r[i], "Id") == None
    {
      padrinos
    }

    /** `handleActionClick`: whatever the action, the selection becomes the first stored row with the row's names. */
    method HandleActionClick(row: Row)
      requires Valid()
      modifies this
      ensures Valid()
      ensures selectedPadrino == Resolve(padrinos, row)
      ensures padrinos == old(padrinos) && loading == old(loading) && isCreateModalOpen == old(isCreateModalOpen)
    {
      var found := Resolve(padrinos, row);
      if found.Some? {
        var i :| 0 <= i < |padrinos| && padrinos[i] == found.value;
      }
      selectedPadrino := found;
    }

    /** The details dialog is open exactly while a sponsor is selected. */
    predicate DetailsOpen()
      reads this
    {
      selectedPadrino.Some?
    }

    /**
     * What the open dialog shows: the id, phone, role and administrator lines
     * are always empty and the date line always reads "NaN/NaN/aN".
     */
    function ShownDetails(): (r: Details)
      reads this
      requires Valid() && DetailsOpen()
      ensures r == DetailsOf(selectedPadrino.value, formatDate)
      ensures r.id.None? && r.telefono.None? && r.role.None? && r.adminName.None? && r.adminLastName.None?
      ensures r.registrationDate == UndefinedDateText
      ensures r.nombre == Get(selectedPadrino.value, "Nombre") && r.correo == Get(selectedPadrino.value, "Correo")
    {
      StoredRowDetails(selectedPadrino.value, formatDate);
      DetailsOf(selectedPadrino.value, formatDate)
    }

    method CloseDetails()
      requires Valid()
      modifies this
      ensures Valid()
      ensures selectedPadrino == None && !DetailsOpen()
      ensures padrinos == old(padrinos) && loading == old(loading) && isCreateModalOpen == old(isCreateModalOpen)
    {
      selectedPadrino := None;
    }

    method SetCreateModalOpen(open: bool)
      requires Valid()
      modifies this
      ensures Valid()
      ensures isCreateModalOpen == open
      ensures padrinos == old(padrinos) && loading == old(loading) && selectedPadrino == old(selectedPadrino)
    {
      isCreateModalOpen := open;
    }
  }
}
