/**
 * The sponsor edit form of `src/components/Padrino/EditPadrinoForm.tsx`: a
 * copy of the four editable fields, change detection against the original,
 * and a submit that only sends a changed form.
 */
module EditPadrinoForm {

  import opened Common
  import Entities

  const UpdateError := "Error al actualizar el padrino"

  /** The form as first rendered: the four editable fields copied, the role fixed to 4. */
  function InitialForm(p: Entities.PadrinoEdit): Row
  {
    map[
      "Nombre" := Str(p.Nombre), "Apellido" := Str(p.Apellido), "Telefono" := Str(p.Telefono),
      "Correo" := Str(p.Correo), "IdRole" := Num(4)
    ]
  }

  /** The fields the change detection compares. */
  const Compared: set<string> := {"Nombre", "Apellido", "Telefono", "Correo"}

  /** How a compared field reads in the original sponsor. */
  function Original(p: Entities.PadrinoEdit, field: string): (r: Option<string>)
    ensures r.Some? <==> field in Compared
  {
    match field
    case "Nombre" => Some(p.Nombre)
    case "Apellido" => Some(p.Apellido)
    case "Telefono" => Some(p.Telefono)
    case "Correo" => Some(p.Correo)
    case _ => None
  }

  /** The change-detection effect: some compared field strictly differs from the original; `IdRole` is never compared. */
  predicate HasChanges(form: Row, p: Entities.PadrinoEdit)
  {
    exists field :: field in Compared && Get(form, field) != Some(Str(Original(p, field).value))
  }

  /** `{ ...formData, [name]: value }`: the named field takes the text. */
  function SetField(form: Row, name: string, value: string): (r: Row)
    ensures Get(r, name) == Some(Str(value))
    ensures forall k :: k != name ==> Get(r, k) == Get(form, k)
  {
    form[name := Str(value)]
  }

  /** The untouched form shows no change. */
  lemma InitialUnchanged(p: Entities.PadrinoEdit)
    ensures !HasChanges(InitialForm(p), p)
  {
    var f := InitialForm(p);
    forall field | field in Compared ensures Get(f, field) == Some(Str(Original(p, field).value)) {
    }
  }

  /** One edit of the untouched form is a change iff it gives a compared field a different text. */
  lemma SingleEditIff(p: Entities.PadrinoEdit, name: string, value: string)
    ensures HasChanges(SetField(InitialForm(p), name, value), p) <==>
      name in Compared && Original(p, name) != Some(value)
  {
    var f := SetField(InitialForm(p), name, value);
    InitialUnchanged(p);
    if name in Compared && Original(p, name) != Some(value) {
      assert Get(f, name) != Some(Str(Original(p, name).value));
    } else {
      forall field | field in Compared ensures Get(f, field) == Some(Str(Original(p, field).value)) {
        if field != name {
          assert Get(f, field) == Get(InitialForm(p), field);
        }
      }
    }
  }

  /** Editing a field and typing its original text back leaves no change. */
  lemma EditThenRevert(p: Entities.PadrinoEdit, name: string, value: string)
    requires name in Compared
    ensures !HasChanges(SetField(SetField(InitialForm(p), name, value), name, Original(p, name).value), p)
  {
    var f := SetField(SetField(InitialForm(p), name, value), name, Original(p, name).value);
    assert f == InitialForm(p);
    InitialUnchanged(p);
  }

  /** What "Guardar Cambios" led to. */
  datatype Submitted = NoChangesAlert | Sent(id: int, form: Row)

  class EditPadrinoForm {
    const padrino: Entities.PadrinoEdit
    var formData: Row
    var hasChanges: bool
    var error: Option<string>

    ghost predicate Valid()
      reads this
    {
      hasChanges == HasChanges(formData, padrino)
    }

    constructor (padrino: Entities.PadrinoEdit)
      ensures Valid()
      ensures this.padrino == padrino && formData == InitialForm(padrino)
      ensures !hasChanges && error == None
    {
      this.padrino := padrino;
      formData := InitialForm(padrino);
      hasChanges := false;
      error := None;
      InitialUnchanged(padrino);
    }

    /** `handleChange`, then the change-detection effect. */
    method HandleChange(name: string, value: string)
      requires Valid()
      modifies this
      ensures Valid()
      ensures formData == SetField(old(formData), name, value)
      ensures error == old(error)
    {
      formData := SetField(formData, name, value);
      hasChanges := HasChanges(formData, padrino);
    }

    function SaveDisabled(): bool
      reads this
    {
      !hasChanges
    }

    /**
     * `handleSubmit`: with changes, the form is sent under the sponsor's id; a
     * failure sets the fixed error and the dialog stays. Without changes it
     * only alerts, sends nothing and reports no success.
     */
    method HandleSubmit(outcome: Outcome) returns (submitted: Submitted, saved: bool)
      requires Valid()
      modifies this
      ensures Valid()
      ensures submitted == NoChangesAlert <==> !HasChanges(formData, padrino)
      ensures submitted.Sent? ==> submitted.id == padrino.Id && submitted.form == formData
      ensures saved <==> submitted.Sent? && outcome.Done?
      ensures error == if submitted.Sent? && outcome.Failed? then Some(UpdateError) else old(error)
      ensures formData == old(formData) && hasChanges == old(hasChanges)
    {
      if !hasChanges {
        return NoChangesAlert, false;
      }
      submitted := Sent(padrino.Id, formData);
      saved := outcome.Done?;
      if outcome.Failed? {
        error := Some(UpdateError);
      }
    }
  }
}
