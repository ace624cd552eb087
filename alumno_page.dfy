/**
 * The student list page of `src/app/alumno/page.tsx`: the table rows it
 * projects from the students, the resolution of a row action back to the full
 * student, the update request it builds, and the dialog state.
 */
module AlumnoPage {

  import opened Common
  import TableCore
  import Entities
  import EditAlumnoForm

  /** The columns the page hands to the table; `Id` travels in each row without being a column. */
  const TableHeaders: seq<string> := ["NIE", "Nombre", "Apellido", "Sexo", "Grado", "Fecha de Registro"]

  /** The row the table shows for a student. */
  function Projection(a: Entities.AlumnoGet, formatDate: string -> string): (r: Row)
    ensures Get(r, "Id") == Some(Num(a.Id)) && Get(r, "NIE") == Some(Str(a.NumDocumento))
    ensures Get(r, "Fecha de Registro") == Some(Str(formatDate(a.RegistrationDate)))
    ensures r.Keys == {"Id", "NIE", "Nombre", "Apellido", "Sexo", "Grado", "Fecha de Registro"}
    ensures forall h :: h in TableHeaders ==> h in r
  {
    map[
      "Id" := Num(a.Id), "NIE" := Str(a.NumDocumento), "Nombre" := Str(a.Nombre),
      "Apellido" := Str(a.Apellido), "Sexo" := Str(a.Sexo), "Grado" := Str(a.Grado),
      "Fecha de Registro" := Str(formatDate(a.RegistrationDate))
    ]
  }

  function Projections(alumnos: seq<Entities.AlumnoGet>, formatDate: string -> string): (r: seq<Row>)
    ensures |r| == |alumnos|
    ensures forall i :: 0 <= i < |alumnos| ==> r[i] == Projection(alumnos[i], formatDate)
  {
    seq(|alumnos|, i requires 0 <= i < |alumnos| => Projection(alumnos[i], formatDate))
  }

  predicate HasRowId(row: Row, a: Entities.AlumnoGet)
  {
    Get(row, "Id") == Some(Num(a.Id))
  }

  /** No student before position `i` has the row's id. */
  predicate FirstWithId(alumnos: seq<Entities.AlumnoGet>, row: Row, i: nat)
    requires i <= |alumnos|
  {
    forall j :: 0 <= j < i ==> !HasRowId(row, alumnos[j])
  }

  /** `alumnos.find(a => a.Id === row.Id)`: the first student whose id is the row's. */
  function Resolve(alumnos: seq<Entities.AlumnoGet>, row: Row): (r: Option<Entities.AlumnoGet>)
    ensures r.None? <==> forall i :: 0 <= i < |alumnos| ==> !HasRowId(row, alumnos[i])
    ensures r.Some? ==> HasRowId(row, r.value) && r.value in alumnos
    ensures r.Some? ==> exists i :: 0 <= i < |alumnos| && alumnos[i] == r.value && FirstWithId(alumnos, row, i)
  {
    match FirstIndex(alumnos, (a: Entities.AlumnoGet) => HasRowId(row, a))
    case None => None
    case Some(i) => Some(alumnos[i])
  }

  predicate UniqueIds(alumnos: seq<Entities.AlumnoGet>)
  {
    forall i, j :: 0 <= i < j < |alumnos| ==> alumnos[i].Id != alumnos[j].Id
  }

  /** With distinct ids, the row of a student resolves back to that very student. */
  lemma ResolveProjection(alumnos: seq<Entities.AlumnoGet>, k: nat, formatDate: string -> string)
    requires UniqueIds(alumnos) && k < |alumnos|
    ensures Resolve(alumnos, Projection(alumnos[k], formatDate)) == Some(alumnos[k])
  {
    var row := Projection(alumnos[k], formatDate);
    assert HasRowId(row, alumnos[k]);
    var found := Resolve(alumnos, row).value;
    var i :| 0 <= i < |alumnos| && alumnos[i] == found;
    assert Get(row, "Id") == Some(Num(found.Id));
    assert alumnos[i].Id == alumnos[k].Id;
  }

  /** The fields of the request body `AlumnoPost`. */
  const PostKeys: set<string> := {"Nombre", "Apellido", "FechaNacimiento", "IdSexo", "IdRole", "IdGrado", "IdTurno",
                                  "IdEncargado", "IdTipoDocumento", "NumDocumento", "EsBecado", "IdPadrino"}

  /** `mapAlumnoGetToPost`; `parse` is `parseInt`, with `None` for NaN. */
  function MapAlumnoGetToPost(a: Entities.AlumnoGet, parse: string -> Option<int>): Row
  {
    map[
      "Nombre" := Str(a.Nombre), "Apellido" := Str(a.Apellido), "FechaNacimiento" := Str(a.FechaNacimiento),
      "IdSexo" := Num(match parse(a.Sexo) case None => 0 case Some(n) => n), "IdRole" := Num(2),
      "IdGrado" := Num(match parse(a.Grado) case None => 0 case Some(n) => n), "IdTurno" := Num(1),
      "IdEncargado" := Num(1), "IdTipoDocumento" := Num(2), "NumDocumento" := Str(a.NumDocumento),
      "EsBecado" := Bool(a.EsBecado),
      "IdPadrino" := if a.PadrinoNombre.Some? && a.PadrinoNombre.value != "" then Num(1) else Null
    ]
  }

  /**
   * The ids of the mapped student: role 2, shift 1, guardian 1 and document
   * type 2 whatever the student has; sex and grade through `parseInt(..) || 0`;
   * sponsor 1 exactly when the student has a (non-empty) sponsor name, null
   * otherwise.
   */
  lemma MappedIds(a: Entities.AlumnoGet, parse: string -> Option<int>)
    ensures var r := MapAlumnoGetToPost(a, parse);
      r.Keys == PostKeys
      && r["IdRole"] == Num(2) && r["IdTurno"] == Num(1) && r["IdEncargado"] == Num(1) && r["IdTipoDocumento"] == Num(2)
      && r["IdSexo"] == Num(if parse(a.Sexo).Some? then parse(a.Sexo).value else 0)
      && r["IdGrado"] == Num(if parse(a.Grado).Some? then parse(a.Grado).value else 0)
      && (r["IdPadrino"] == Num(1) <==> a.PadrinoNombre.Some? && a.PadrinoNombre.value != "")
      && (r["IdPadrino"] != Num(1) ==> r["IdPadrino"] == Null)
  {
  }

  /** The mapped student copies the names, birth date, document and scholarship as they are. */
  lemma MappedCopies(a: Entities.AlumnoGet, parse: string -> Option<int>)
    ensures var r := MapAlumnoGetToPost(a, parse);
      r.Keys == PostKeys
      && r["Nombre"] == Str(a.Nombre) && r["Apellido"] == Str(a.Apellido)
      && r["FechaNacimiento"] == Str(a.FechaNacimiento) && r["NumDocumento"] == Str(a.NumDocumento)
      && r["EsBecado"] == Bool(a.EsBecado)
  {
  }

  /** `{ ...mapped, ...updated }`: every field the update carries wins; the rest keep the mapped values. */
  function Merge(mapped: Row, updated: Row): (r: Row)
    ensures r.Keys == mapped.Keys + updated.Keys
    ensures forall k :: k in updated ==> r[k] == updated[k]
    ensures forall k :: k in mapped && k !in updated ==> r[k] == mapped[k]
  {
    mapped + updated
  }

  /** An update carrying every mapped field sends exactly the update. */
  lemma MergeCovered(mapped: Row, updated: Row)
    requires mapped.Keys <= updated.Keys
    ensures Merge(mapped, updated) == updated
  {
  }

  /**
   * The edit form's data carries every field of the mapped student, so merging
   * it sends the form as it is: none of the fixed ids of the mapping survive.
   */
  lemma EditFormOverridesMapping(a: Entities.AlumnoGet, edited: Entities.AlumnoGet, parse: string -> Option<int>)
    ensures Merge(MapAlumnoGetToPost(a, parse), EditAlumnoForm.InitialForm(edited)) == EditAlumnoForm.InitialForm(edited)
  {
    MappedCopies(a, parse);
    MergeCovered(MapAlumnoGetToPost(a, parse), EditAlumnoForm.InitialForm(edited));
  }

  class AlumnoPage {
    var alumnos: seq<Entities.AlumnoGet>
    var loading: bool
    var isCreateModalOpen: bool
    var selectedAlumno: Option<Entities.AlumnoGet>
    var modalType: Option<TableCore.Action>
    var isPDFModalOpen: bool

    constructor ()
      ensures alumnos == [] && loading && !isCreateModalOpen
      ensures selectedAlumno == None && modalType == None && !isPDFModalOpen
    {
      alumnos := [];
      loading := true;
      isCreateModalOpen := false;
      selectedAlumno := None;
      modalType := None;
      isPDFModalOpen := false;
    }

    /** `fetchAlumnos`, once the request has settled: the list is replaced on success and kept on failure; loading is over. */
    method FetchAlumnos(result: Fetched<seq<Entities.AlumnoGet>>)
      modifies this
      ensures !loading
      ensures alumnos == if result.Loaded? then result.data else old(alumnos)
      ensures selectedAlumno == old(selectedAlumno) && modalType == old(modalType)
      ensures isCreateModalOpen == old(isCreateModalOpen) && isPDFModalOpen == old(isPDFModalOpen)
    {
      loading := true;
      if result.Loaded? {
        alumnos := result.data;
      }
      loading := false;
    }

    /** The rows the table receives. */
    function TableData(formatDate: string -> string): (r: seq<Row>)
      reads this
      ensures |r| == |alumnos|
      ensures forall i :: 0 <= i < |r| ==> r[i] == Projection(alumnos[i], formatDate)
      ensures forall i :: 0 <= i < |r| ==> HasRowId(r[i], alumnos[i]) && forall h :: h in TableHeaders ==> h in r[i]
    {
      Projections(alumnos, formatDate)
    }

    /**
     * `handleActionClick`: a row whose id matches no student changes nothing;
     * otherwise the first student with that id, not the row, is selected and
     * the dialog kind becomes the action.
     */
    method HandleActionClick(row: Row, action: TableCore.Action)
      modifies this
      ensures Resolve(alumnos, row).None? ==> selectedAlumno == old(selectedAlumno) && modalType == old(modalType)
      ensures Resolve(alumnos, row).Some? ==> selectedAlumno == Resolve(alumnos, row) && modalType == Some(action)
      ensures alumnos == old(alumnos) && loading == old(loading)
      ensures isCreateModalOpen == old(isCreateModalOpen) && isPDFModalOpen == old(isPDFModalOpen)
    {
      var found := Resolve(alumnos, row);
      if found.None? {
        return;
      }
      selectedAlumno := found;
      modalType := Some(action);
    }

    /** The view, edit or delete dialog is shown only for a selection with that dialog kind. */
    predicate DialogShown(kind: TableCore.Action)
      reads this
    {
      selectedAlumno.Some? && modalType == Some(kind)
    }

    /**
     * `handleUpdateAlumno`: without a selection nothing happens. Otherwise the
     * selected student's id is sent with the mapped student overridden by the
     * update; success asks for a refetch and clears the dialog and the
     * selection, failure changes nothing.
     */
    method HandleUpdateAlumno(updatedData: Row, parse: string -> Option<int>, outcome: Outcome)
      returns (request: Option<(int, Row)>, refetch: bool)
      modifies this
      ensures old(selectedAlumno).None? ==> request == None && !refetch
      ensures old(selectedAlumno).Some? ==>
        request == Some((old(selectedAlumno).value.Id, Merge(MapAlumnoGetToPost(old(selectedAlumno).value, parse), updatedData)))
      ensures refetch <==> request.Some? && outcome.Done?
      ensures refetch ==> selectedAlumno == None && modalType == None
      ensures !refetch ==> selectedAlumno == old(selectedAlumno) && modalType == old(modalType)
      ensures alumnos == old(alumnos) && loading == old(loading)
      ensures isCreateModalOpen == old(isCreateModalOpen) && isPDFModalOpen == old(isPDFModalOpen)
    {
      if selectedAlumno.None? {
        return None, false;
      }
      var a := selectedAlumno.value;
      request := Some((a.Id, Merge(MapAlumnoGetToPost(a, parse), updatedData)));
      refetch := outcome.Done?;
      if refetch {
        modalType := None;
        selectedAlumno := None;
      }
    }

    /**
     * `handleDeleteAlumno`: without a selection nothing happens. Otherwise the
     * selected id is deleted; success asks for a refetch and clears the dialog
     * and the selection, failure only alerts.
     */
    method HandleDeleteAlumno(outcome: Outcome) returns (request: Option<int>, refetch: bool)
      modifies this
      ensures request == if old(selectedAlumno).Some? then Some(old(selectedAlumno).value.Id) else None
      ensures refetch <==> request.Some? && outcome.Done?
      ensures refetch ==> selectedAlumno == None && modalType == None
      ensures !refetch ==> selectedAlumno == old(selectedAlumno) && modalType == old(modalType)
      ensures alumnos == old(alumnos) && loading == old(loading)
      ensures isCreateModalOpen == old(isCreateModalOpen) && isPDFModalOpen == old(isPDFModalOpen)
    {
      if selectedAlumno.None? {
        return None, false;
      }
      request := Some(selectedAlumno.value.Id);
      refetch := outcome.Done?;
      if refetch {
        modalType := None;
        selectedAlumno := None;
      }
    }

    /** Closing or cancelling any of the three dialogs, or a save of the edit form: selection and kind are cleared. */
    method CloseDialog()
      modifies this
      ensures selectedAlumno == None && modalType == None
      ensures forall kind :: !DialogShown(kind)
      ensures alumnos == old(alumnos) && loading == old(loading)
      ensures isCreateModalOpen == old(isCreateModalOpen) && isPDFModalOpen == old(isPDFModalOpen)
    {
      selectedAlumno := None;
      modalType := None;
    }

    method SetCreateModalOpen(open: bool)
      modifies this
      ensures isCreateModalOpen == open
      ensures alumnos == old(alumnos) && loading == old(loading) && isPDFModalOpen == old(isPDFModalOpen)
      ensures selectedAlumno == old(selectedAlumno) && modalType == old(modalType)
    {
      isCreateModalOpen := open;
    }

    method SetPDFModalOpen(open: bool)
      modifies this
      ensures isPDFModalOpen == open
      ensures alumnos == old(alumnos) && loading == old(loading) && isCreateModalOpen == old(isCreateModalOpen)
      ensures selectedAlumno == old(selectedAlumno) && modalType == old(modalType)
    {
      isPDFModalOpen := open;
    }
  }
}
