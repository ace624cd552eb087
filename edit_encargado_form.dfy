/**
 * The guardian edit form of `src/components/encargado/EditEncargadoForm.tsx`:
 * a copy of the editable fields, change detection against the original, and a
 * submit that only sends a changed form.
 */
module EditEncargadoForm {

  import opened Common
  import Entities

  const UpdateError := "Error al actualizar el encargado"

  /** The form as first rendered: the eight editable fields copied, the role fixed to 3. */
  function InitialForm(e: Entities.EncargadoEdit): Row
  {
    map[
      "Nombre" := Str(e.Nombre), "Apellido" := Str(e.Apellido), "Telefono" := Str(e.Telefono),
      "Correo" := Str(e.Correo), "IdDireccion" := Num(e.IdDireccion), "IdParentezco" := Num(e.IdParentezco),
      "IdTipoDocumento" := Num(e.IdTipoDocumento), "NumDocumento" := Str(e.NumDocumento), "IdRole" := Num(3)
    ]
  }

  /** The fields the change detection compares. */
  const Compared: set<string> := {
    "Nombre", "Apellido", "Telefono", "Correo", "IdDireccion", "IdParentezco", "IdTipoDocumento", "NumDocumento"}

  /** How a compared field reads in the original guardian. */
  function Original(e: Entities.EncargadoEdit, field: string): (r: Option<Value>)
    ensures r.Some? <==> field in Compared
  {
    match field
    case "Nombre" => Some(Str(e.Nombre))
    case "Apellido" => Some(Str(e.Apellido))
    case "Telefono" => Some(Str(e.Telefono))
    case "Correo" => Some(Str(e.Correo))
    case "IdDireccion" => Some(Num(e.IdDireccion))
    case "IdParentezco" => Some(Num(e.IdParentezco))
    case "IdTipoDocumento" => Some(Num(e.IdTipoDocumento))
    case "NumDocumento" => Some(Str(e.NumDocumento))
    case _ => None
  }

  /** The change-detection effect: some compared field strictly differs from the original; `IdRole` is never compared. */
  predicate HasChanges(form: Row, e: Entities.EncargadoEdit)
  {
    exists field :: field in Compared && Get(form, field) != Original(e, field)
  }

  /** `{ ...formData, [name]: value }`: the named field takes the text, unchanged. */
  function SetField(form: Row, name: string, value: string): (r: Row)
    ensures Get(r, name) == Some(Str(value))
    ensures forall k :: k != name ==> Get(r, k) == Get(form, k)
  {
    form[name := Str(value)]
  }

  /** The untouched form shows no change. */
  lemma InitialUnchanged(e: Entities.EncargadoEdit)
    ensures !HasChanges(InitialForm(e), e)
  {
    var f := InitialForm(e);
    forall field | Original(e, field).Some? ensures Get(f, field) == Original(e, field) {
    }
  }

  /**
   * One edit of the untouched form is a change iff it hits a compared text
   * field with a different text, or any compared id field: a select reports
   * text, which never equals the numeric original.
   */
  lemma SingleEditIff(e: Entities.EncargadoEdit, name: string, value: string)
    ensures HasChanges(SetField(InitialForm(e), name, value), e) <==>
      Original(e, name).Some? && Original(e, name) != Some(Str(value))
  {
    var f := SetField(InitialForm(e), name, value);
    InitialUnchanged(e);
    if Original(e, name).Some? && Original(e, name) != Some(Str(value)) {
      assert Get(f, name) != Original(e, name);
    } else {
      forall field | Original(e, field).Some? ensures Get(f, field) == Original(e, field) {
        if field != name {
          assert Get(f, field) == Get(InitialForm(e), field);
        }
      }
    }
  }

  /** Typing a field's original text back removes the change that field caused. */
  lemma RevertText(e: Entities.EncargadoEdit, form: Row, name: string, value: string, original: string)
    requires Original(e, name) == Some(Str(original)) && Get(form, name) == Some(Str(original))
    ensures SetField(SetField(form, name, value), name, original) == form
  {
    assert name in form;
  }

  /** What "Guardar Cambios" led to. */
  datatype Submitted = NoChangesAlert | Sent(id: int, form: Row)

  class EditEncargadoForm {
    const encargado: Entities.EncargadoEdit
    var formData: Row
    var hasChanges: bool
    var error: Option<string>

    ghost predicate Valid()
      reads this
    {
      hasChanges == HasChanges(formData, encargado)
    }

    constructor (encargado: Entities.EncargadoEdit)
      ensures Valid()
      ensures this.encargado == encargado && formData == InitialForm(encargado)
      ensures !hasChanges && error == None
    {
      this.encargado := encargado;
      formData := InitialForm(encargado);
      hasChanges := false;
      error := None;
      InitialUnchanged(encargado);
    }

    /** `handleChange`, then the change-detection effect. */
    method HandleChange(name: string, value: string)
      requires Valid()
      modifies this
      ensures Valid()
      ensures formData == SetField(old(formData), name, value)
      ensures hasChanges <==> HasChanges(formData, encargado)
      ensures error == old(error)
    {
      formData := SetField(formData, name, value);
      hasChanges := HasChanges(formData, encargado);
    }

    function SaveDisabled(): bool
      reads this
    {
      !hasChanges
    }

    /**
     * `handleSubmit`: with changes, the form is sent under the guardian's id;
     * a failure sets the fixed error and the dialog stays. Without changes it
     * only alerts, sends nothing and reports no success.
     */
    method HandleSubmit(outcome: Outcome) returns (submitted: Submitted, saved: bool)
      requires Valid()
      modifies this
      ensures Valid()
      ensures submitted == NoChangesAlert <==> !HasChanges(formData, encargado)
      ensures submitted.Sent? ==> submitted.id == encargado.Id && submitted.form == formData
      ensures saved <==> submitted.Sent? && outcome.Done?
      ensures error == if submitted.Sent? && outcome.Failed? then Some(UpdateError) else old(error)
      ensures formData == old(formData) && hasChanges == old(hasChanges)
    {
      if !hasChanges {
        return NoChangesAlert, false;
      }
      submitted := Sent(encargado.Id, formData);
      saved := outcome.Done?;
      if outcome.Failed? {
        error := Some(UpdateError);
      }
    }
  }
}
