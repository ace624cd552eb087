/**
 * The student report dialog of `src/components/reports/ReportAlumno.tsx`:
 * a filter by report type, a set of columns kept in a fixed order, the
 * display projection of each student, and the export of the chosen columns.
 */
module ReportAlumno {

  import opened Common
  import opened Text
  import opened Sorting
  import Entities
  import opened ReportColumns

  const NoValue := "N/A"

  // ---------------------------------------------------------------- filter

  /** Whether a report type with the selected value keeps a student. */
  predicate Keeps(filterType: string, selected: string, a: Entities.AlumnoGet)
  {
    match filterType
    case "grado" => selected == "" || a.Grado == selected
    case "turno" => selected == "" || a.Turno == selected
    case "sexo" => selected == "" || a.Sexo == selected
    case "becados" => a.EsBecado
    case "noBecados" => !a.EsBecado
    case "administrador" => selected == "" || Lower(a.AdminName + " " + a.AdminLastName) == Lower(selected)
    case _ => true
  }

  function Unfiltered(data: seq<Entities.AlumnoGet>): (r: seq<Entities.AlumnoGet>)
    ensures r == data && IsSubseq(r, data)
  {
    SubseqRefl(data);
    data
  }

  /**
   * The filter effect's `switch (filterType)`: the students `Keeps` accepts, in
   * data order, each as often as it occurs in the data.
   */
  function FilterReport(data: seq<Entities.AlumnoGet>, filterType: string, selected: string): (r: seq<Entities.AlumnoGet>)
    ensures IsSubseq(r, data)
    ensures forall a :: multiset(r)[a] == if Keeps(filterType, selected, a) then multiset(data)[a] else 0
    ensures filterType !in {"grado", "turno", "sexo", "becados", "noBecados", "administrador"} ==> r == data
    ensures filterType in {"grado", "turno", "sexo", "administrador"} && selected == "" ==> r == data
  {
    match filterType
    case "grado" => if selected != "" then Filter(data, (a: Entities.AlumnoGet) => a.Grado == selected) else Unfiltered(data)
    case "turno" => if selected != "" then Filter(data, (a: Entities.AlumnoGet) => a.Turno == selected) else Unfiltered(data)
    case "sexo" => if selected != "" then Filter(data, (a: Entities.AlumnoGet) => a.Sexo == selected) else Unfiltered(data)
    case "becados" => Filter(data, (a: Entities.AlumnoGet) => a.EsBecado)
    case "noBecados" => Filter(data, (a: Entities.AlumnoGet) => !a.EsBecado)
    case "administrador" =>
      if selected != "" then
        Filter(data, (a: Entities.AlumnoGet) => Lower(a.AdminName + " " + a.AdminLastName) == Lower(selected))
      else Unfiltered(data)
    case _ => Unfiltered(data)
  }

  /** The "becados" and "noBecados" reports split the students between them. */
  lemma BecadosPartition(data: seq<Entities.AlumnoGet>, selected: string)
    ensures multiset(FilterReport(data, "becados", selected)) + multiset(FilterReport(data, "noBecados", selected))
      == multiset(data)
  {
    var b := FilterReport(data, "becados", selected);
    var n := FilterReport(data, "noBecados", selected);
    forall a ensures (multiset(b) + multiset(n))[a] == multiset(data)[a] {
      assert Keeps("becados", selected, a) <==> a.EsBecado;
      assert Keeps("noBecados", selected, a) <==> !a.EsBecado;
    }
  }

  // ---------------------------------------------------------------- display

  /** `value || "N/A"` */
  function OrNoValue(v: string): (r: string)
    ensures r != ""
    ensures v != "" ==> r == v
    ensures r == NoValue <==> v == "" || v == NoValue
  {
    if v != "" then v else NoValue
  }

  /** `formatDateTime`: `"N/A"` for an empty date, otherwise the date in the given format. */
  function FormatDateTime(format: string -> string, date: string): (r: string)
    ensures date == "" ==> r == NoValue
    ensures date != "" ==> r == format(date)
  {
    if date == "" then NoValue else format(date)
  }

  /**
   * `` `${first?.trim() || "N/A"} ${last?.trim() || ""}`.trim() ``: the
   * trimmed first name ("N/A" when blank), then a space and the trimmed last
   * name when there is one. It is never empty.
   */
  function FullName(first: string, last: string): (r: string)
    ensures r != ""
    ensures r == if Trim(last) == "" then OrNoValue(Trim(first)) else OrNoValue(Trim(first)) + " " + Trim(last)
  {
    FullNameText(first, last);
    Trim(OrNoValue(Trim(first)) + " " + Trim(last))
  }

  /** The trimmed join of the two parts is the first part, then the last name after a space when there is one. */
  lemma FullNameText(first: string, last: string)
    ensures var head := OrNoValue(Trim(first));
      head != "" && Trim(head + " " + Trim(last)) == if Trim(last) == "" then head else head + " " + Trim(last)
  {
    FullNameHead(first);
    FullNameTrim(OrNoValue(Trim(first)), Trim(last));
  }

  /** The first part of a full name is never empty and neither starts nor ends with white space. */
  lemma FullNameHead(first: string)
    ensures var head := OrNoValue(Trim(first));
      head != [] && !IsJsSpace(head[0]) && !IsJsSpace(head[|head| - 1])
  {
    NoValueEdges();
  }

  /** "N/A" neither starts nor ends with white space. */
  lemma NoValueEdges()
    ensures !IsJsSpace(NoValue[0]) && !IsJsSpace(NoValue[|NoValue| - 1])
  {
    assert NoValue[0] == 'N' && NoValue[|NoValue| - 1] == 'A';
  }

  /** The outer `trim` drops only the separating space, and only when the last name is empty. */
  lemma FullNameTrim(head: string, last: string)
    requires head != [] && !IsJsSpace(head[0]) && !IsJsSpace(head[|head| - 1])
    requires last != [] ==> !IsJsSpace(last[0]) && !IsJsSpace(last[|last| - 1])
    ensures Trim(head + " " + last) == if last == "" then head else head + " " + last
  {
    var joined := head + " " + last;
    if last == "" {
      assert joined == head + " ";
      TrimPadded(joined, head);
    } else {
      assert joined[0] == head[0] && joined[|joined| - 1] == last[|last| - 1];
      TrimPadded(joined, joined);
    }
  }

  /** "Nombre del Padrino": the sponsor's name for a scholarship holder with a sponsor name, otherwise "N/A". */
  function SponsorName(a: Entities.AlumnoGet): (r: string)
    ensures r == NoValue <==> !(a.EsBecado && a.PadrinoNombre.Some? && a.PadrinoNombre.value != "")
    ensures r != NoValue ==>
      r == Trim(a.PadrinoNombre.value) + " " + (if a.PadrinoApellido.Some? then Trim(a.PadrinoApellido.value) else "")
  {
    if a.EsBecado && a.PadrinoNombre.Some? && a.PadrinoNombre.value != "" then
      var last := if a.PadrinoApellido.Some? then Trim(a.PadrinoApellido.value) else "";
      var r := Trim(a.PadrinoNombre.value) + " " + last;
      assert r[|Trim(a.PadrinoNombre.value)|] == ' ';
      assert ' ' !in NoValue;
      r
    else NoValue
  }

  /** `processDataForDisplay` for one student: one text per report column. */
  function DisplayRow(a: Entities.AlumnoGet, format: string -> string): (r: map<Column, string>)
    ensures forall c: Column :: c in r && r[c] == DisplayCell(a, format, c)
  {
    map c: Column | true :: DisplayCell(a, format, c)
  }

  /** The id, the trimmed names and "Sí" or "No" of a display row. */
  lemma DisplayRowText(a: Entities.AlumnoGet, format: string -> string)
    ensures var r := DisplayRow(a, format);
      && r[Id] == IntToString(a.Id) && r[Nombre] == Trim(a.Nombre) && r[Apellido] == Trim(a.Apellido)
      && r[EsBecado] == (if a.EsBecado then "Sí" else "No")
  {
  }

  /** The two dates of a display row: "N/A" when empty, otherwise formatted. */
  lemma DisplayRowDates(a: Entities.AlumnoGet, format: string -> string)
    ensures var r := DisplayRow(a, format);
      && r[FechaNacimiento] == (if a.FechaNacimiento == "" then NoValue else format(a.FechaNacimiento))
      && r[FechaRegistro] == (if a.RegistrationDate == "" then NoValue else format(a.RegistrationDate))
  {
  }

  /** The guardian and administrator columns of a display row are the full names of the two people. */
  lemma DisplayRowNames(a: Entities.AlumnoGet, format: string -> string)
    ensures var r := DisplayRow(a, format);
      r[Encargado] == FullName(a.EncargadoNombre, a.EncargadoApellido)
      && r[Administrador] == FullName(a.AdminName, a.AdminLastName)
  {
  }

  /** "N/A" appears in the display row exactly where the student lacks the value. */
  lemma DisplayRowMissing(a: Entities.AlumnoGet, format: string -> string)
    ensures var r := DisplayRow(a, format);
      && (r[Sexo] == NoValue <==> a.Sexo == "" || a.Sexo == NoValue)
      && (r[Grado] == NoValue <==> a.Grado == "" || a.Grado == NoValue)
      && (r[Turno] == NoValue <==> a.Turno == "" || a.Turno == NoValue)
      && (r[NIE] == NoValue <==> a.NumDocumento == "" || a.NumDocumento == NoValue)
      && (r[NombrePadrino] == NoValue <==> !(a.EsBecado && a.PadrinoNombre.Some? && a.PadrinoNombre.value != ""))
  {
    var r := DisplayRow(a, format);
    assert r[Sexo] == OrNoValue(a.Sexo) && r[Grado] == OrNoValue(a.Grado);
    assert r[Turno] == OrNoValue(a.Turno) && r[NIE] == OrNoValue(a.NumDocumento);
    assert r[NombrePadrino] == SponsorName(a);
  }

  /** The rule of each report column. */
  function DisplayCell(a: Entities.AlumnoGet, format: string -> string, c: Column): (r: string)
    ensures c == Id ==> r == IntToString(a.Id)
    ensures c == Nombre ==> r == Trim(a.Nombre)
    ensures c == Apellido ==> r == Trim(a.Apellido)
    ensures c == FechaNacimiento ==> r == FormatDateTime(format, a.FechaNacimiento)
    ensures c == FechaRegistro ==> r == FormatDateTime(format, a.RegistrationDate)
    ensures c == Sexo ==> r == OrNoValue(a.Sexo)
    ensures c == Grado ==> r == OrNoValue(a.Grado)
    ensures c == Turno ==> r == OrNoValue(a.Turno)
    ensures c == NIE ==> r == OrNoValue(a.NumDocumento)
    ensures c == EsBecado ==> r == if a.EsBecado then "Sí" else "No"
    ensures c == Encargado ==> r == FullName(a.EncargadoNombre, a.EncargadoApellido)
    ensures c == Administrador ==> r == FullName(a.AdminName, a.AdminLastName)
    ensures c == NombrePadrino ==> r == SponsorName(a)
  {
    match c
    case Id => IntToString(a.Id)
    case Nombre => Trim(a.Nombre)
    case Apellido => Trim(a.Apellido)
    case FechaNacimiento => FormatDateTime(format, a.FechaNacimiento)
    case Sexo => OrNoValue(a.Sexo)
    case Grado => OrNoValue(a.Grado)
    case Turno => OrNoValue(a.Turno)
    case Encargado => FullName(a.EncargadoNombre, a.EncargadoApellido)
    case NIE => OrNoValue(a.NumDocumento)
    case EsBecado => if a.EsBecado then "Sí" else "No"
    case NombrePadrino => SponsorName(a)
    case Administrador => FullName(a.AdminName, a.AdminLastName)
    case FechaRegistro => FormatDateTime(format, a.RegistrationDate)
  }

  /**
   * The `selectedHeaders.reduce` of one display row: exactly the selected
   * columns, an empty or missing value replaced by "N/A".
   */
  function ExportRow(display: map<Column, string>, headers: seq<Column>): (r: map<Column, string>)
    ensures r.Keys == set h | h in headers
    ensures forall h :: h in r ==> r[h] != ""
    ensures forall h :: h in r ==> r[h] == if h in display && display[h] != "" then display[h] else NoValue
    decreases |headers|
  {
    if headers == [] then map[]
    else
      var h := headers[|headers| - 1];
      var init := headers[..|headers| - 1];
      assert forall x :: x in headers <==> x in init || x == h;
      ExportRow(display, init)[h := if h in display && display[h] != "" then display[h] else NoValue]
  }

  /**
   * What "Generar PDF" hands to `generatePDF`: the rows, the headers and the
   * orientation argument, `landscape` standing for "landscape" and its
   * negation for "portrait". `generatePDF` ignores that argument.
   */
  datatype Report =
    | NothingToExport
    | Exported(rows: seq<map<Column, string>>, headers: seq<Column>, landscape: bool)

  class ReportDialog {
    var data: seq<Entities.AlumnoGet>
    var filterType: string
    var selectedFilter: string
    var filteredData: seq<Entities.AlumnoGet>
    var selectedHeaders: seq<Column>

    ghost predicate Valid()
      reads this
    {
      filteredData == FilterReport(data, filterType, selectedFilter)
      && InOfferedOrder(selectedHeaders)
    }

    constructor (data: seq<Entities.AlumnoGet>)
      ensures Valid()
      ensures this.data == data && filterType == "all" && selectedFilter == ""
      ensures filteredData == data && selectedHeaders == InitialHeaders
    {
      this.data := data;
      filterType := "all";
      selectedFilter := "";
      filteredData := data;
      selectedHeaders := InitialHeaders;
      AllAndInitialInOrder();
    }

    /** The report-type select; the filter effect then recomputes the rows. */
    method SetFilterType(t: string)
      requires Valid()
      modifies this
      ensures Valid()
      ensures filterType == t && filteredData == FilterReport(data, t, selectedFilter)
      ensures data == old(data) && selectedFilter == old(selectedFilter)
      ensures selectedHeaders == old(selectedHeaders)
    {
      filterType := t;
      filteredData := FilterReport(data, filterType, selectedFilter);
    }

    /** The selection select; the filter effect then recomputes the rows. */
    method SetSelectedFilter(v: string)
      requires Valid()
      modifies this
      ensures Valid()
      ensures selectedFilter == v && filteredData == FilterReport(data, filterType, v)
      ensures data == old(data) && filterType == old(filterType)
      ensures selectedHeaders == old(selectedHeaders)
    {
      selectedFilter := v;
      filteredData := FilterReport(data, filterType, selectedFilter);
    }

    /** The `data` prop changes; the filter effect then recomputes the rows. */
    method DataChanged(newData: seq<Entities.AlumnoGet>)
      requires Valid()
      modifies this
      ensures Valid()
      ensures data == newData && filteredData == FilterReport(newData, filterType, selectedFilter)
      ensures filterType == old(filterType) && selectedFilter == old(selectedFilter)
      ensures selectedHeaders == old(selectedHeaders)
    {
      data := newData;
      filteredData := FilterReport(data, filterType, selectedFilter);
    }

    /** `handleHeaderToggle`: flips one column of the selection, which stays in the offered order. */
    method HandleHeaderToggle(header: Column)
      requires Valid()
      modifies this
      ensures Valid()
      ensures selectedHeaders == ToggleHeader(old(selectedHeaders), header)
      ensures data == old(data) && filterType == old(filterType) && selectedFilter == old(selectedFilter)
      ensures filteredData == old(filteredData)
    {
      ToggleKeepsOrder(selectedHeaders, header);
      selectedHeaders := ToggleHeader(selectedHeaders, header);
    }

    /** The "Generar PDF" button is disabled when there is nothing to export. */
    function GenerateDisabled(): bool
      reads this
    {
      |filteredData| == 0 || |selectedHeaders| == 0
    }

    /**
     * `handleGenerateReport`: nothing without rows or columns (the dialog stays
     * open); otherwise one exported row per filtered student holding exactly the
     * selected columns, the orientation argument "landscape" when more than six
     * columns are selected, and the dialog closes.
     */
    method GenerateReport(format: string -> string) returns (report: Report, closes: bool)
      ensures report == NothingToExport <==> GenerateDisabled()
      ensures closes <==> report.Exported?
      ensures report.Exported? ==>
        |report.rows| == |filteredData| && report.headers == selectedHeaders
        && (report.landscape <==> |selectedHeaders| > 6)
        && forall i :: 0 <= i < |filteredData| ==>
             report.rows[i] == ExportRow(DisplayRow(filteredData[i], format), selectedHeaders)
    {
      if |filteredData| == 0 || |selectedHeaders| == 0 {
        return NothingToExport, false;
      }
      var students, headers := filteredData, selectedHeaders;
      var rows := seq(|students|, i requires 0 <= i < |students| =>
        ExportRow(DisplayRow(students[i], format), headers));
      report := Exported(rows, selectedHeaders, |selectedHeaders| > 6);
      closes := true;
    }
  }
}
