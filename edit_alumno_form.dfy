/**
 * The student edit form of `src/components/Alumno/EditAlumnoForm.tsx`: the
 * initial form, the catalogue lookups that fill the ids, per-field change
 * tracking against a snapshot, and the submit.
 */
module EditAlumnoForm {

  import opened Common
  import opened Text
  import Entities

  const CatalogueError := "Error al cargar datos de los selectores."
  const UpdateError := "Error al actualizar el alumno"

  /** `date.split("T")[0]`: the text before the first "T", or all of it. */
  function DatePart(date: string): (r: string)
    ensures StartsWith(date, r)
    ensures !Contains(r, "T")
    ensures |r| < |date| ==> date[|r|] == 'T'
  {
    var parts := Split(date, "T");
    JoinHead(parts, "T");
    if |parts| > 1 then
      assert StartsWith(date, parts[0] + "T");
      assert date[|parts[0]|] == (parts[0] + "T")[|parts[0]|];
      parts[0]
    else
      assert Join(parts, "T") == parts[0];
      parts[0]
  }

  /** The form as first rendered: names, date part, document and scholarship copied; ids 0; role 2 and document type 2 fixed; no sponsor. */
  function InitialForm(a: Entities.AlumnoGet): Row
  {
    map[
      "Nombre" := Str(a.Nombre), "Apellido" := Str(a.Apellido),
      "FechaNacimiento" := Str(DatePart(a.FechaNacimiento)),
      "IdSexo" := Num(0), "IdRole" := Num(2), "IdGrado" := Num(0), "IdTurno" := Num(0),
      "IdEncargado" := Num(0), "IdTipoDocumento" := Num(2),
      "NumDocumento" := Str(a.NumDocumento), "EsBecado" := Bool(a.EsBecado), "IdPadrino" := Null
    ]
  }

  /** The select options fetched together on mount. */
  datatype Catalogues = Catalogues(
    sexos: seq<Entities.Named>, grados: seq<Entities.Named>, turnos: seq<Entities.Named>,
    encargados: seq<Entities.Encargado>, padrinos: seq<Entities.Padrino>)

  /** `items.find(i => i.Nombre === name)?.Id || 0` */
  function LookupId(items: seq<Entities.Named>, name: string): (r: int)
    ensures (forall i :: 0 <= i < |items| ==> items[i].Nombre != name) ==> r == 0
    ensures forall i :: (0 <= i < |items| && items[i].Nombre == name
      && forall j :: 0 <= j < i ==> items[j].Nombre != name) ==> r == items[i].Id
  {
    match FirstIndex(items, (n: Entities.Named) => n.Nombre == name)
    case None => 0
    case Some(i) => items[i].Id
  }

  predicate IsGuardianOf(e: Entities.Encargado, a: Entities.AlumnoGet)
  {
    e.Nombre == a.EncargadoNombre && e.Apellido == a.EncargadoApellido
  }

  /** The guardian id: the first guardian with both the student's guardian name and last name, else 0. */
  function LookupGuardian(encargados: seq<Entities.Encargado>, a: Entities.AlumnoGet): (r: int)
    ensures (forall i :: 0 <= i < |encargados| ==> !IsGuardianOf(encargados[i], a)) ==> r == 0
    ensures forall i :: (0 <= i < |encargados| && IsGuardianOf(encargados[i], a)
      && forall j :: 0 <= j < i ==> !IsGuardianOf(encargados[j], a)) ==> r == encargados[i].Id
  {
    match FirstIndex(encargados, (e: Entities.Encargado) => IsGuardianOf(e, a))
    case None => 0
    case Some(i) => encargados[i].Id
  }

  /** `padrinos[i]` is the first sponsor named `name`. */
  predicate FirstNamed(padrinos: seq<Entities.Padrino>, name: string, i: nat)
    requires i < |padrinos|
  {
    padrinos[i].Nombre == name && forall j :: 0 <= j < i ==> padrinos[j].Nombre != name
  }

  /**
   * The sponsor: for a scholarship holder, the id of the first sponsor whose
   * name equals the student's sponsor name; null otherwise, and null too when
   * that id is 0 (`?.Id || null`).
   */
  function LookupSponsor(padrinos: seq<Entities.Padrino>, a: Entities.AlumnoGet): (r: Value)
    ensures r.Null? || r.Num?
    ensures !a.EsBecado ==> r == Null
    ensures r.Num? ==> (r.n != 0 && a.PadrinoNombre.Some?
      && exists i :: 0 <= i < |padrinos| && padrinos[i].Id == r.n && padrinos[i].Nombre == a.PadrinoNombre.value)
    ensures a.EsBecado && a.PadrinoNombre.Some? ==>
      forall i :: 0 <= i < |padrinos| && FirstNamed(padrinos, a.PadrinoNombre.value, i) ==>
        r == (if padrinos[i].Id != 0 then Num(padrinos[i].Id) else Null)
    ensures a.PadrinoNombre.None? || (forall i :: 0 <= i < |padrinos| ==> padrinos[i].Nombre != a.PadrinoNombre.value)
      ==> r == Null
  {
    if !a.EsBecado || a.PadrinoNombre.None? then Null
    else
      match FirstIndex(padrinos, (p: Entities.Padrino) => p.Nombre == a.PadrinoNombre.value)
      case None => Null
      case Some(i) => if padrinos[i].Id != 0 then Num(padrinos[i].Id) else Null
  }

  /** The ids the catalogues fill in. */
  const LookedUp: set<string> := {"IdSexo", "IdGrado", "IdTurno", "IdEncargado", "IdPadrino"}

  /** The form once the catalogues have loaded: `base` with the four looked-up ids and the sponsor. */
  function WithCatalogues(base: Row, a: Entities.AlumnoGet, c: Catalogues): Row
  {
    base["IdSexo" := Num(LookupId(c.sexos, a.Sexo))]["IdGrado" := Num(LookupId(c.grados, a.Grado))]
        ["IdTurno" := Num(LookupId(c.turnos, a.Turno))]["IdEncargado" := Num(LookupGuardian(c.encargados, a))]
        ["IdPadrino" := LookupSponsor(c.padrinos, a)]
  }

  /** Loading the catalogues adds the looked-up ids and keeps every other field of the form. */
  lemma CataloguesKeepFields(base: Row, a: Entities.AlumnoGet, c: Catalogues)
    ensures WithCatalogues(base, a, c).Keys == base.Keys + LookedUp
    ensures forall k :: k in base && k !in LookedUp ==> WithCatalogues(base, a, c)[k] == base[k]
  {
  }

  /**
   * Loading the catalogues sets sex, grade and shift to the id of the first
   * entry with the student's name for them, the guardian to the first with
   * both of the student's guardian names, and the sponsor by `LookupSponsor`.
   */
  lemma CataloguesFillIds(base: Row, a: Entities.AlumnoGet, c: Catalogues)
    ensures var r := WithCatalogues(base, a, c);
      r["IdSexo"] == Num(LookupId(c.sexos, a.Sexo)) && r["IdGrado"] == Num(LookupId(c.grados, a.Grado))
      && r["IdTurno"] == Num(LookupId(c.turnos, a.Turno))
      && r["IdEncargado"] == Num(LookupGuardian(c.encargados, a))
      && r["IdPadrino"] == LookupSponsor(c.padrinos, a)
  {
  }

  /** What a change event carries: the checked state of a checkbox, or the text of any other control. */
  datatype Input = Checked(checked: bool) | Typed(text: string)

  function FieldValue(input: Input): Value
  {
    match input
    case Checked(b) => Bool(b)
    case Typed(t) => Str(t)
  }

  /**
   * The form after one change: the named field takes the value, and unchecking
   * (any falsy value of) `EsBecado` also sets `IdPadrino` to null; nothing else changes.
   */
  function ApplyChange(form: Row, name: string, value: Value): (r: Row)
    ensures Get(r, name) == Some(value)
    ensures name == "EsBecado" && !Truthy(value) ==> Get(r, "IdPadrino") == Some(Null)
    ensures forall k :: k != name && k != "IdPadrino" ==> Get(r, k) == Get(form, k)
    ensures name != "EsBecado" || Truthy(value) ==> forall k :: k != name ==> Get(r, k) == Get(form, k)
  {
    var updated := form[name := value];
    if name == "EsBecado" && !Truthy(value) then updated["IdPadrino" := Null] else updated
  }

  /** Setting a field back to the value it had restores the form, for any field but the scholarship flag. */
  lemma ChangeReverted(form: Row, name: string, value: Value)
    requires name in form && name != "EsBecado"
    ensures ApplyChange(ApplyChange(form, name, value), name, form[name]) == form
  {
    assert ApplyChange(ApplyChange(form, name, value), name, form[name]) == form[name := value][name := form[name]];
  }

  /**
   * Unchecking and re-checking the scholarship of a student with a sponsor
   * does not restore the form: the sponsor stays null.
   */
  lemma RecheckLosesSponsor(form: Row, sponsor: int)
    requires Get(form, "EsBecado") == Some(Bool(true)) && Get(form, "IdPadrino") == Some(Num(sponsor))
    ensures ApplyChange(ApplyChange(form, "EsBecado", Bool(false)), "EsBecado", Bool(true)) != form
  {
    var twice := ApplyChange(ApplyChange(form, "EsBecado", Bool(false)), "EsBecado", Bool(true));
    assert Get(twice, "IdPadrino") == Some(Null);
  }

  /**
   * A select reports its value as text, so choosing the option of the numeric
   * id already in the form still changes the form.
   */
  lemma SelectTextDiffers(form: Row, name: string, id: int)
    requires Get(form, name) == Some(Num(id))
    ensures ApplyChange(form, name, FieldValue(Typed(IntToString(id)))) != form
  {
    assert Get(ApplyChange(form, name, Str(IntToString(id))), name) == Some(Str(IntToString(id)));
  }

  class EditAlumnoForm {
    const alumno: Entities.AlumnoGet
    var formData: Row
    var initialData: Row
    var isFormChanged: bool
    var changedFields: map<string, bool>
    var catalogues: Option<Catalogues>
    var error: Option<string>

    constructor (alumno: Entities.AlumnoGet)
      ensures this.alumno == alumno
      ensures formData == InitialForm(alumno) && initialData == InitialForm(alumno)
      ensures !isFormChanged && changedFields == map[] && catalogues == None && error == None
    {
      this.alumno := alumno;
      formData := InitialForm(alumno);
      initialData := InitialForm(alumno);
      isFormChanged := false;
      changedFields := map[];
      catalogues := None;
      error := None;
    }

    /**
     * The mount effect, once all five catalogue fetches have settled: on
     * success both the form and the snapshot become the initial form with the
     * looked-up ids (edits made before are overwritten, and the change flags
     * are not reset); on failure only the fixed error is set.
     */
    method LoadCatalogues(result: Fetched<Catalogues>)
      modifies this
      ensures result.Loaded? ==>
        formData == WithCatalogues(InitialForm(alumno), alumno, result.data)
        && initialData == formData && catalogues == Some(result.data) && error == old(error)
      ensures result.FetchFailed? ==>
        formData == old(formData) && initialData == old(initialData) && catalogues == old(catalogues)
        && error == Some(CatalogueError)
      ensures isFormChanged == old(isFormChanged) && changedFields == old(changedFields)
    {
      match result {
        case Loaded(c) =>
          var updated := WithCatalogues(InitialForm(alumno), alumno, c);
          catalogues := Some(c);
          formData := updated;
          initialData := updated;
        case FetchFailed =>
          error := Some(CatalogueError);
      }
    }

    /**
     * `handleChange`: the form takes the change; the field is flagged iff its
     * new value is strictly unequal to the snapshot's; the form is flagged as
     * changed iff it differs from the snapshot.
     */
    method HandleChange(name: string, input: Input)
      modifies this
      ensures formData == ApplyChange(old(formData), name, FieldValue(input))
      ensures changedFields == old(changedFields)[name := Get(formData, name) != Get(initialData, name)]
      ensures isFormChanged <==> formData != initialData
      ensures initialData == old(initialData) && catalogues == old(catalogues) && error == old(error)
    {
      var updated := ApplyChange(formData, name, FieldValue(input));
      changedFields := changedFields[name := Get(updated, name) != Get(initialData, name)];
      isFormChanged := updated != initialData;
      formData := updated;
    }

    /** "Guardar cambios" is disabled until the form differs from the snapshot. */
    function SaveDisabled(): bool
      reads this
    {
      !isFormChanged
    }

    /**
     * `handleSubmit`: sends the student's id with the current form. Success
     * clears the error and reports it; failure stores the message, or the
     * fixed text for an empty one, and keeps the form.
     */
    method HandleSubmit(outcome: Outcome) returns (request: (int, Row), saved: bool)
      modifies this
      ensures request == (alumno.Id, old(formData))
      ensures saved <==> outcome.Done?
      ensures outcome.Done? ==> error == None
      ensures outcome.Failed? ==>
        error == Some(if outcome.message != "" then outcome.message else UpdateError)
      ensures formData == old(formData) && initialData == old(initialData)
      ensures isFormChanged == old(isFormChanged) && changedFields == old(changedFields)
      ensures catalogues == old(catalogues)
    {
      error := None;
      request := (alumno.Id, formData);
      match outcome {
        case Done =>
          saved := true;
        case Failed(message) =>
          saved := false;
          error := Some(if message != "" then message else UpdateError);
      }
    }
  }
}
