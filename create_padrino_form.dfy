/**
 * The sponsor creation form of `src/components/Padrino/CreatePadrinoForm.tsx`:
 * the two name fields are sanitised as they are typed, and a successful
 * create resets the form.
 */
module CreatePadrinoForm {

  import opened Common
  import opened Sanitize

  const CreateError := "Error al crear el padrino"

  /** The form a fresh or just-submitted sponsor form shows: empty texts and role 4. */
  function Defaults(): (r: Row)
    ensures forall k :: k in r ==> (r[k].Str? && r[k].s == "") || r[k] == Num(4)
  {
    map["Nombre" := Str(""), "Apellido" := Str(""), "Telefono" := Str(""), "Correo" := Str(""), "IdRole" := Num(4)]
  }

  /** The fields whose input is sanitised. */
  const Cleaned: set<string> := {"Nombre", "Apellido"}

  lemma DefaultsClean()
    ensures CleanFields(Cleaned, Defaults())
  {
  }

  class CreatePadrinoForm {
    const decomposition: char -> string
    var padrinoData: Row
    var error: Option<string>

    ghost predicate Valid()
      reads this
    {
      CleanFields(Cleaned, padrinoData)
    }

    constructor (decomposition: char -> string)
      ensures Valid()
      ensures this.decomposition == decomposition && padrinoData == Defaults() && error == None
    {
      this.decomposition := decomposition;
      padrinoData := Defaults();
      error := None;
      DefaultsClean();
    }

    /** `handleChange`: only the named field changes; Nombre and Apellido are sanitised. */
    method HandleChange(name: string, value: string)
      requires Valid()
      modifies this
      ensures Valid()
      ensures padrinoData == SelectiveChange(decomposition, Cleaned, old(padrinoData), name, value)
      ensures error == old(error)
    {
      ChangeKeepsClean(decomposition, Cleaned, padrinoData, name, value);
      padrinoData := SelectiveChange(decomposition, Cleaned, padrinoData, name, value);
    }

    /**
     * `handleSubmit`: sends the form. On success it alerts, goes back to the
     * defaults and notifies the parent, leaving any earlier error in place; on
     * failure the fixed error is set and the entered data stays.
     */
    method HandleSubmit(outcome: Outcome) returns (request: Row, created: bool)
      requires Valid()
      modifies this
      ensures Valid()
      ensures request == old(padrinoData)
      ensures created <==> outcome.Done?
      ensures outcome.Done? ==> padrinoData == Defaults() && error == old(error)
      ensures outcome.Failed? ==> padrinoData == old(padrinoData) && error == Some(CreateError)
    {
      request := padrinoData;
      if outcome.Done? {
        DefaultsClean();
        padrinoData := Defaults();
        created := true;
      } else {
        error := Some(CreateError);
        created := false;
      }
    }
  }
}
