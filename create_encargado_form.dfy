/**
 * The guardian creation form of `src/components/encargado/CreateEncargadoFrom.tsx`:
 * the name and document fields are sanitised as they are typed, the other
 * fields are stored verbatim, and a successful create resets the form.
 */
module CreateEncargadoForm {

  import opened Common
  import opened Sanitize

  /** The form a fresh or just-submitted guardian form shows. */
  function Defaults(): (r: Row)
    ensures forall k :: k in r ==> (r[k].Str? && r[k].s == "") || r[k].Num?
  {
    map[
      "Nombre" := Str(""), "Apellido" := Str(""), "Telefono" := Str(""), "Correo" := Str(""),
      "IdDireccion" := Num(1), "IdRole" := Num(3), "IdParentezco" := Num(1),
      "IdTipoDocumento" := Num(1), "NumDocumento" := Str("")
    ]
  }

  /** The fields whose input is sanitised. */
  const Cleaned: set<string> := {"Nombre", "Apellido", "NumDocumento"}

  lemma DefaultsClean()
    ensures CleanFields(Cleaned, Defaults())
  {
  }

  class CreateEncargadoForm {
    const decomposition: char -> string
    var encargadoData: Row
    var error: Option<string>

    ghost predicate Valid()
      reads this
    {
      CleanFields(Cleaned, encargadoData)
    }

    constructor (decomposition: char -> string)
      ensures Valid()
      ensures this.decomposition == decomposition && encargadoData == Defaults() && error == None
    {
      this.decomposition := decomposition;
      encargadoData := Defaults();
      error := None;
      DefaultsClean();
    }

    /** `handleChange`: only the named field changes; Nombre, Apellido and NumDocumento are sanitised. */
    method HandleChange(name: string, value: string)
      requires Valid()
      modifies this
      ensures Valid()
      ensures encargadoData == SelectiveChange(decomposition, Cleaned, old(encargadoData), name, value)
      ensures error == old(error)
    {
      ChangeKeepsClean(decomposition, Cleaned, encargadoData, name, value);
      encargadoData := SelectiveChange(decomposition, Cleaned, encargadoData, name, value);
    }

    /**
     * `handleSubmit`: clears the error and sends the form. On success the form
     * goes back to the defaults and the parent is notified; on failure the
     * message is stored and the entered data stays.
     */
    method HandleSubmit(outcome: Outcome) returns (request: Row, created: bool)
      requires Valid()
      modifies this
      ensures Valid()
      ensures request == old(encargadoData)
      ensures created <==> outcome.Done?
      ensures outcome.Done? ==> encargadoData == Defaults() && error == None
      ensures outcome.Failed? ==> encargadoData == old(encargadoData) && error == Some(outcome.message)
    {
      error := None;
      request := encargadoData;
      match outcome {
        case Done =>
          DefaultsClean();
          encargadoData := Defaults();
          created := true;
        case Failed(message) =>
          error := Some(message);
          created := false;
      }
    }
  }
}
