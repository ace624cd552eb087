/**
 * The guardian list page of `src/app/encargado/page.tsx`: the table rows it
 * projects, the resolution of a row action, the record it hands to the edit
 * form, and the dialog state around updates and deletes.
 */
module EncargadoPage {

  import opened Common
  import TableCore
  import Entities
  import EditEncargadoForm

  const TableHeaders: seq<string> := ["Nombre", "Apellido", "Correo", "Fecha de Registro"]

  /** The row the table shows for a guardian: its id, which is not a column, and the four columns. */
  function Projection(e: Entities.Encargado, formatDate: string -> string): (r: Row)
    ensures r.Keys == {"Id", "Nombre", "Apellido", "Correo", "Fecha de Registro"}
    ensures Get(r, "Id") == Some(Num(e.Id))
    ensures Get(r, "Fecha de Registro") == Some(Str(formatDate(e.RegistrationDate)))
    ensures "Id" !in TableHeaders && forall h :: h in TableHeaders ==> h in r
  {
    map[
      "Id" := Num(e.Id), "Nombre" := Str(e.Nombre), "Apellido" := Str(e.Apellido), "Correo" := Str(e.Correo),
      "Fecha de Registro" := Str(formatDate(e.RegistrationDate))
    ]
  }

  function Projections(encargados: seq<Entities.Encargado>, formatDate: string -> string): (r: seq<Row>)
    ensures |r| == |encargados|
    ensures forall i :: 0 <= i < |encargados| ==> r[i] == Projection(encargados[i], formatDate)
  {
    seq(|encargados|, i requires 0 <= i < |encargados| => Projection(encargados[i], formatDate))
  }

  predicate HasRowId(row: Row, e: Entities.Encargado)
  {
    Get(row, "Id") == Some(Num(e.Id))
  }

  /** No guardian before position `i` has the row's id. */
  predicate FirstWithId(encargados: seq<Entities.Encargado>, row: Row, i: nat)
    requires i <= |encargados|
  {
    forall j :: 0 <= j < i ==> !HasRowId(row, encargados[j])
  }

  /** `encargados.find(e => e.Id === row.Id)`, with `None` for `undefined`. */
  function Resolve(encargados: seq<Entities.Encargado>, row: Row): (r: Option<Entities.Encargado>)
    ensures r.None? <==> forall i :: 0 <= i < |encargados| ==> !HasRowId(row, encargados[i])
    ensures r.Some? ==> HasRowId(row, r.value) && r.value in encargados
    ensures r.Some? ==> exists i :: 0 <= i < |encargados| && encargados[i] == r.value && FirstWithId(encargados, row, i)
  {
    match FirstIndex(encargados, (e: Entities.Encargado) => HasRowId(row, e))
    case None => None
    case Some(i) => Some(encargados[i])
  }

  predicate UniqueIds(encargados: seq<Entities.Encargado>)
  {
    forall i, j :: 0 <= i < j < |encargados| ==> encargados[i].Id != encargados[j].Id
  }

  /** With distinct ids, the row of a guardian resolves back to that very guardian. */
  lemma ResolveProjection(encargados: seq<Entities.Encargado>, k: nat, formatDate: string -> string)
    requires UniqueIds(encargados) && k < |encargados|
    ensures Resolve(encargados, Projection(encargados[k], formatDate)) == Some(encargados[k])
  {
    var row := Projection(encargados[k], formatDate);
    assert HasRowId(row, encargados[k]);
    var found := Resolve(encargados, row).value;
    var i :| 0 <= i < |encargados| && encargados[i] == found;
    assert Get(row, "Id") == Some(Num(found.Id));
    assert encargados[i].Id == encargados[k].Id;
  }

  /** The dialog kind an action string opens: only "view", "edit" and "delete" open one. */
  function DialogFor(action: string): (r: Option<TableCore.Action>)
    ensures r == Some(TableCore.View) <==> action == "view"
    ensures r == Some(TableCore.Edit) <==> action == "edit"
    ensures r == Some(TableCore.Delete) <==> action == "delete"
    ensures r.None? <==> action !in {"view", "edit", "delete"}
  {
    match action
    case "view" => Some(TableCore.View)
    case "edit" => Some(TableCore.Edit)
    case "delete" => Some(TableCore.Delete)
    case _ => None
  }

  /**
   * The record the edit form receives: the guardian's own names, phone, mail
   * and document, but address, kinship and document type 1 and role 3
   * whatever the guardian has.
   */
  function EditArgument(e: Entities.Encargado): (r: Entities.EncargadoEdit)
    ensures r.Id == e.Id && r.Nombre == e.Nombre && r.Apellido == e.Apellido
    ensures r.Telefono == e.Telefono && r.Correo == e.Correo && r.NumDocumento == e.NumDocumento
    ensures r.IdDireccion == 1 && r.IdParentezco == 1 && r.IdTipoDocumento == 1 && r.IdRole == 3
  {
    Entities.EncargadoEdit(e.Id, e.Nombre, e.Apellido, e.Telefono, e.Correo, 1, 3, 1, 1, e.NumDocumento)
  }

  /**
   * The edit form of any guardian starts with address, kinship and document
   * type 1, and since a select reports text, choosing any option of those
   * selects counts as a change.
   */
  lemma EditFormStartsAtOne(e: Entities.Encargado, choice: string)
    ensures Get(EditEncargadoForm.InitialForm(EditArgument(e)), "IdDireccion") == Some(Num(1))
    ensures Get(EditEncargadoForm.InitialForm(EditArgument(e)), "IdParentezco") == Some(Num(1))
    ensures Get(EditEncargadoForm.InitialForm(EditArgument(e)), "IdTipoDocumento") == Some(Num(1))
    ensures EditEncargadoForm.HasChanges(
      EditEncargadoForm.SetField(EditEncargadoForm.InitialForm(EditArgument(e)), "IdDireccion", choice),
      EditArgument(e))
  {
    EditEncargadoForm.SingleEditIff(EditArgument(e), "IdDireccion", choice);
  }

  class EncargadoPage {
    var encargados: seq<Entities.Encargado>
    var loading: bool
    var isCreateModalOpen: bool
    var selectedEncargado: Option<Entities.Encargado>
    var modalType: Option<TableCore.Action>

    constructor ()
      ensures encargados == [] && loading && !isCreateModalOpen
      ensures selectedEncargado == None && modalType == None
    {
      encargados := [];
      loading := true;
      isCreateModalOpen := false;
      selectedEncargado := None;
      modalType := None;
    }

    /** `fetchEncargados`, once the request has settled: the list is replaced on success and kept on failure; loading is over. */
    method FetchEncargados(result: Fetched<seq<Entities.Encargado>>)
      modifies this
      ensures !loading
      ensures encargados == if result.Loaded? then result.data else old(encargados)
      ensures selectedEncargado == old(selectedEncargado) && modalType == old(modalType)
      ensures isCreateModalOpen == old(isCreateModalOpen)
    {
      loading := true;
      if result.Loaded? {
        encargados := result.data;
      }
      loading := false;
    }

    /** The rows the table receives, one per guardian, in order. */
    function TableData(formatDate: string -> string): (r: seq<Row>)
      reads this
      ensures |r| == |encargados|
      ensures forall i :: 0 <= i < |r| ==> r[i] == Projection(encargados[i], formatDate)
    {
      Projections(encargados, formatDate)
    }

    /**
     * `handleActionClick`: the selection always becomes the first guardian
     * with the row's id (none when no id matches); the dialog kind changes
     * only for "view", "edit" and "delete".
     */
    method HandleActionClick(row: Row, action: string)
      modifies this
      ensures selectedEncargado == Resolve(encargados, row)
      ensures modalType == if DialogFor(action).Some? then DialogFor(action) else old(modalType)
      ensures encargados == old(encargados) && loading == old(loading) && isCreateModalOpen == old(isCreateModalOpen)
    {
      selectedEncargado := Resolve(encargados, row);
      var kind := DialogFor(action);
      if kind.Some? {
        modalType := kind;
      }
    }

    predicate DialogShown(kind: TableCore.Action)
      reads this
    {
      selectedEncargado.Some? && modalType == Some(kind)
    }

    /** The record the edit dialog hands to the form, while that dialog is shown. */
    function EditFormArgument(): (r: Entities.EncargadoEdit)
      reads this
      requires DialogShown(TableCore.Edit)
      ensures r == EditArgument(selectedEncargado.value)
    {
      EditArgument(selectedEncargado.value)
    }

    /**
     * `handleUpdateEncargado`: without a selection nothing happens; otherwise
     * the update goes out under the selected id, and success asks for a refetch
     * and clears the dialog and the selection.
     */
    method HandleUpdateEncargado(updatedData: Row, outcome: Outcome) returns (request: Option<(int, Row)>, refetch: bool)
      modifies this
      ensures request == if old(selectedEncargado).Some? then Some((old(selectedEncargado).value.Id, updatedData)) else None
      ensures refetch <==> request.Some? && outcome.Done?
      ensures refetch ==> selectedEncargado == None && modalType == None
      ensures !refetch ==> selectedEncargado == old(selectedEncargado) && modalType == old(modalType)
      ensures encargados == old(encargados) && loading == old(loading) && isCreateModalOpen == old(isCreateModalOpen)
    {
      if selectedEncargado.None? {
        return None, false;
      }
      request := Some((selectedEncargado.value.Id, updatedData));
      refetch := outcome.Done?;
      if refetch {
        modalType := None;
        selectedEncargado := None;
      }
    }

    /**
     * `handleDeleteEncargado`: without a selection nothing happens; otherwise
     * the selected id is deleted, and success asks for a refetch and clears the
     * dialog and the selection.
     */
    method HandleDeleteEncargado(outcome: Outcome) returns (request: Option<int>, refetch: bool)
      modifies this
      ensures request == if old(selectedEncargado).Some? then Some(old(selectedEncargado).value.Id) else None
      ensures refetch <==> request.Some? && outcome.Done?
      ensures refetch ==> selectedEncargado == None && modalType == None
      ensures !refetch ==> selectedEncargado == old(selectedEncargado) && modalType == old(modalType)
      ensures encargados == old(encargados) && loading == old(loading) && isCreateModalOpen == old(isCreateModalOpen)
    {
      if selectedEncargado.None? {
        return None, false;
      }
      request := Some(selectedEncargado.value.Id);
      refetch := outcome.Done?;
      if refetch {
        modalType := None;
        selectedEncargado := None;
      }
    }

    /** Closing the view or edit dialog, cancelling or saving the edit form: selection and kind are cleared. */
    method CloseDialog()
      modifies this
      ensures selectedEncargado == None && modalType == None
      ensures encargados == old(encargados) && loading == old(loading) && isCreateModalOpen == old(isCreateModalOpen)
    {
      selectedEncargado := None;
      modalType := None;
    }

    /** Closing the delete dialog clears only the kind: the guardian stays selected. */
    method CloseDeleteDialog()
      modifies this
      ensures modalType == None && selectedEncargado == old(selectedEncargado)
      ensures encargados == old(encargados) && loading == old(loading) && isCreateModalOpen == old(isCreateModalOpen)
    {
      modalType := None;
    }

    method SetCreateModalOpen(open: bool)
      modifies this
      ensures isCreateModalOpen == open
      ensures encargados == old(encargados) && loading == old(loading)
      ensures selectedEncargado == old(selectedEncargado) && modalType == old(modalType)
    {
      isCreateModalOpen := open;
    }
  }
}
