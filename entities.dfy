/**
 * The records the console receives from its HTTP API (`src/interfaces`), and the
 * ordered key/value entries of a record as `Object.entries` lists them.
 */
module Entities {

  import opened Common

  /** A student as listed by the API; the sponsor names are null for a student without one. */
  datatype AlumnoGet = AlumnoGet(
    Id: int, Nombre: string, Apellido: string, FechaNacimiento: string, Sexo: string,
    RoleName: string, Grado: string, Turno: string, EncargadoNombre: string,
    EncargadoApellido: string, TipoDocumento: string, NumDocumento: string, EsBecado: bool,
    PadrinoNombre: Option<string>, PadrinoApellido: Option<string>, AdminName: string,
    AdminLastName: string, RegistrationDate: string)

  /** A guardian as listed by the API. */
  datatype Encargado = Encargado(
    Id: int, Nombre: string, Apellido: string, Telefono: string, Correo: string,
    Direccion: string, RoleName: string, Parentezco: string, TipoDocumento: string,
    NumDocumento: string, AdminName: string, AdminLastName: string, RegistrationDate: string)

  /** A sponsor as listed by the API. */
  datatype Padrino = Padrino(
    Id: int, Nombre: string, Apellido: string, Telefono: string, Correo: string,
    RoleName: string, AdminName: string, AdminLastName: string, RegistrationDate: string)

  /** The guardian handed to the edit form: the creation fields plus the id (`EncargadoCreate & { Id }`). */
  datatype EncargadoEdit = EncargadoEdit(
    Id: int, Nombre: string, Apellido: string, Telefono: string, Correo: string,
    IdDireccion: int, IdRole: int, IdParentezco: int, IdTipoDocumento: int, NumDocumento: string)

  /** The sponsor handed to the edit form: the creation fields plus the id (`PadrinoCreate & { Id }`). */
  datatype PadrinoEdit = PadrinoEdit(
    Id: int, Nombre: string, Apellido: string, Telefono: string, Correo: string, IdRole: int)

  /** A catalogue entry (sex, grade, shift): an id and a display name. */
  datatype Named = Named(Id: int, Nombre: string)

  /** A JSON value as the audit details carry it. */
  datatype Json = JStr(s: string) | JNum(n: int) | JBool(b: bool) | JNull | JObject(entries: seq<(string, Json)>)

  /** The details of an audit record: a `"key: value, key: value"` text, or an object. */
  datatype Details = DetailText(text: string) | DetailObject(entries: seq<(string, Json)>)

  /** An audit record of the guardians table; `FechaHora` is the timestamp of the operation. */
  datatype Auditoria = Auditoria(
    Id: int, FechaHora: int, IdUsuario: int, UsuarioNombre: string, Operacion: string,
    IdRegistro: int, Detalles: Details)

  function OptionalText(v: Option<string>): Value
  {
    match v
    case None => Null
    case Some(s) => Str(s)
  }

  /** `Object.entries(alumno)`, in the order the API sends the fields. */
  function AlumnoEntries(a: AlumnoGet): seq<(string, Value)>
  {
    [("Id", Num(a.Id)), ("Nombre", Str(a.Nombre)), ("Apellido", Str(a.Apellido)),
     ("FechaNacimiento", Str(a.FechaNacimiento)), ("Sexo", Str(a.Sexo)), ("RoleName", Str(a.RoleName)),
     ("Grado", Str(a.Grado)), ("Turno", Str(a.Turno)), ("EncargadoNombre", Str(a.EncargadoNombre)),
     ("EncargadoApellido", Str(a.EncargadoApellido)), ("TipoDocumento", Str(a.TipoDocumento)),
     ("NumDocumento", Str(a.NumDocumento)), ("EsBecado", Bool(a.EsBecado)),
     ("PadrinoNombre", OptionalText(a.PadrinoNombre)), ("PadrinoApellido", OptionalText(a.PadrinoApellido)),
     ("AdminName", Str(a.AdminName)), ("AdminLastName", Str(a.AdminLastName)),
     ("RegistrationDate", Str(a.RegistrationDate))]
  }

  /** `Object.entries(encargado)`, in the order the API sends the fields. */
  function EncargadoEntries(e: Encargado): seq<(string, Value)>
  {
    [("Id", Num(e.Id)), ("Nombre", Str(e.Nombre)), ("Apellido", Str(e.Apellido)),
     ("Telefono", Str(e.Telefono)), ("Correo", Str(e.Correo)), ("Direccion", Str(e.Direccion)),
     ("RoleName", Str(e.RoleName)), ("Parentezco", Str(e.Parentezco)),
     ("TipoDocumento", Str(e.TipoDocumento)), ("NumDocumento", Str(e.NumDocumento)),
     ("AdminName", Str(e.AdminName)), ("AdminLastName", Str(e.AdminLastName)),
     ("RegistrationDate", Str(e.RegistrationDate))]
  }
}
