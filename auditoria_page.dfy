/**
 * The guardian audit page of `src/app/encargado/auditoria/page.tsx`: loading
 * all records or a date range, the details dialog, and the rendering of the
 * details of a record.
 */
module AuditoriaPage {

  import opened Common
  import opened Text
  import opened Entities

  const InsertStyle := "bg-green-100 text-green-800"
  const DeleteStyle := "bg-red-100 text-red-800"
  const UpdateStyle := "bg-orange-100 text-orange-800"
  const DefaultStyle := "bg-gray-100 text-gray-800"

  const LoadAllError := "Error al cargar los registros de auditoría."
  const FilterError := "Error al filtrar registros por fecha."

  /** The classes of an operation badge: one per known operation, a common default for the rest. */
  function OperationStyle(operation: string): (r: string)
    ensures r == InsertStyle <==> operation == "INSERT"
    ensures r == DeleteStyle <==> operation == "DELETE"
    ensures r == UpdateStyle <==> operation == "UPDATE"
    ensures r == DefaultStyle <==> operation !in {"INSERT", "DELETE", "UPDATE"}
  {
    match operation
    case "INSERT" => InsertStyle
    case "DELETE" => DeleteStyle
    case "UPDATE" => UpdateStyle
    case _ => DefaultStyle
  }

  /** One list item of the details: a key and its value (`undefined` when absent). */
  datatype Item = Item(key: string, value: Option<Json>)

  /**
   * The rendered details: a single list, the old and the new values side by
   * side, or a render that throws.
   */
  datatype Rendered = Items(items: seq<Item>) | OldAndNew(before: seq<Item>, after: seq<Item>) | Throws

  /**
   * `const [key, value] = segment.split(": ")`: the key is the text before the
   * first `": "`, the value the text between the first and the second (or the
   * end); a segment without `": "` has no value.
   */
  function ParseSegment(segment: string): (r: Item)
    ensures !Contains(r.key, ": ")
    ensures r.value.None? <==> !Contains(segment, ": ")
    ensures r.value.None? ==> r.key == segment
    ensures r.value.Some? ==>
      (r.value.value.JStr? && !Contains(r.value.value.s, ": ")
       && StartsWith(segment, r.key + ": " + r.value.value.s))
    ensures r.value.Some? ==> EndOrSeparatorAt(segment, |r.key| + 2 + |r.value.value.s|)
  {
    var parts := Split(segment, ": ");
    SplitManyIff(segment, ": ");
    if |parts| == 1 then
      Item(parts[0], None)
    else
      SegmentParts(segment, parts);
      Item(parts[0], Some(JStr(parts[1])))
  }

  /**
   * With at least two pieces, the segment starts with the first piece, the
   * separator and the second piece, which is followed by the end or by the
   * next separator.
   */
  lemma SegmentParts(segment: string, parts: seq<string>)
    requires |parts| > 1 && Join(parts, ": ") == segment
    ensures StartsWith(segment, parts[0] + ": " + parts[1])
    ensures EndOrSeparatorAt(segment, |parts[0]| + 2 + |parts[1]|)
  {
    var rest := Join(parts[1..], ": ");
    assert segment == parts[0] + ": " + rest;
    JoinHead(parts[1..], ": ");
    ValueEnd(parts[0], parts[1..], segment);
    assert segment[..|parts[0] + ": " + parts[1]|] == parts[0] + ": " + parts[1];
  }

  /** Position `e` of `s` is its end or the start of a `": "`. */
  predicate EndOrSeparatorAt(s: string, e: int)
  {
    e == |s| || (0 <= e < |s| && StartsWith(s[e..], ": "))
  }

  /** Past the key, the separator and the first value comes the end or the next separator. */
  lemma ValueEnd(key: string, values: seq<string>, segment: string)
    requires |values| > 0 && segment == key + ": " + Join(values, ": ")
    ensures EndOrSeparatorAt(segment, |key| + 2 + |values[0]|)
  {
    var e := |key| + 2 + |values[0]|;
    JoinHead(values, ": ");
    if |values| > 1 {
      var rest := Join(values[1..], ": ");
      assert segment == (key + ": " + values[0]) + ": " + rest;
      assert segment[e..] == ": " + rest;
    }
  }

  /** A string detail: one item per `", "`-separated segment, in order. */
  function ParseText(text: string): (r: seq<Item>)
    ensures |r| == |Split(text, ", ")|
    ensures forall i :: 0 <= i < |r| ==> r[i] == ParseSegment(Split(text, ", ")[i])
  {
    var segments := Split(text, ", ");
    seq(|segments|, i requires 0 <= i < |segments| => ParseSegment(segments[i]))
  }

  function EntryItems(entries: seq<(string, Json)>): (r: seq<Item>)
    ensures |r| == |entries|
    ensures forall i :: 0 <= i < |entries| ==> r[i] == Item(entries[i].0, Some(entries[i].1))
  {
    seq(|entries|, i requires 0 <= i < |entries| => Item(entries[i].0, Some(entries[i].1)))
  }

  predicate HasKey(entries: seq<(string, Json)>, key: string)
  {
    exists i :: 0 <= i < |entries| && entries[i].0 == key
  }

  /** `detalles[key]` for a key the object has. */
  function Lookup(entries: seq<(string, Json)>, key: string): (r: Json)
    requires HasKey(entries, key)
    ensures exists i :: 0 <= i < |entries| && entries[i] == (key, r)
  {
    match FirstIndex(entries, (e: (string, Json)) => e.0 == key)
    case Some(i) => entries[i].1
    case None => assert false; JNull
  }

  /**
   * `Object.entries(v)` of a nested value: an object gives its own entries, a
   * text gives its characters keyed by their positions, a number or a boolean
   * gives nothing, and `null` makes it throw (`None`).
   */
  function NestedItems(v: Json): (r: Option<seq<Item>>)
    ensures r.None? <==> v.JNull?
    ensures v.JObject? ==> r == Some(EntryItems(v.entries))
    ensures v.JStr? ==> r.Some? && |r.value| == |v.s|
    ensures v.JStr? ==> forall i :: 0 <= i < |v.s| ==> r.value[i] == Item(IntToString(i), Some(JStr([v.s[i]])))
    ensures v.JNum? || v.JBool? ==> r == Some([])
  {
    match v
    case JObject(es) => Some(EntryItems(es))
    case JStr(s) => Some(seq(|s|, i requires 0 <= i < |s| => Item(IntToString(i), Some(JStr([s[i]])))))
    case JNum(_) => Some([])
    case JBool(_) => Some([])
    case JNull => None
  }

  /**
   * `renderFormattedDetails`: a string is parsed into items; an object holding
   * both `Antiguo` and `Nuevo` shows the entries of the old value then those of
   * the new one (and throws when either is `null`); any other object lists its
   * own entries.
   */
  function RenderDetails(d: Details): (r: Rendered)
    ensures d.DetailText? ==> r == Items(ParseText(d.text))
    ensures d.DetailObject? ==> (r.Items? <==> !(HasKey(d.entries, "Antiguo") && HasKey(d.entries, "Nuevo")))
    ensures d.DetailObject? && r.Items? ==> r.items == EntryItems(d.entries)
    ensures d.DetailObject? && r.OldAndNew? ==>
      Some(r.before) == NestedItems(Lookup(d.entries, "Antiguo"))
      && Some(r.after) == NestedItems(Lookup(d.entries, "Nuevo"))
    ensures r.Throws? <==>
      (d.DetailObject? && HasKey(d.entries, "Antiguo") && HasKey(d.entries, "Nuevo")
       && (Lookup(d.entries, "Antiguo").JNull? || Lookup(d.entries, "Nuevo").JNull?))
  {
    match d
    case DetailText(t) => Items(ParseText(t))
    case DetailObject(es) =>
      if HasKey(es, "Antiguo") && HasKey(es, "Nuevo") then
        match (NestedItems(Lookup(es, "Antiguo")), NestedItems(Lookup(es, "Nuevo")))
        case (Some(before), Some(after)) => OldAndNew(before, after)
        case _ => Throws
      else Items(EntryItems(es))
  }

  /** A line of the table body. */
  datatype BodyRow = NoRecords | Line(when: string, user: string, operation: string, style: string, registro: int)

  /** The body: one line per record, or exactly one "No hay registros" line for an empty list. */
  function Body(records: seq<Auditoria>, formatTime: int -> string): (r: seq<BodyRow>)
    ensures records == [] <==> r == [NoRecords]
    ensures records != [] ==> |r| == |records| && forall i :: 0 <= i < |records| ==>
      r[i] == Line(formatTime(records[i].FechaHora), records[i].UsuarioNombre, records[i].Operacion,
                   OperationStyle(records[i].Operacion), records[i].IdRegistro)
  {
    if records == [] then [NoRecords]
    else
      var r := seq(|records|, i requires 0 <= i < |records| =>
        Line(formatTime(records[i].FechaHora), records[i].UsuarioNombre, records[i].Operacion,
             OperationStyle(records[i].Operacion), records[i].IdRegistro));
      assert r[0].Line?;
      r
  }

  class AuditoriaPage {
    var auditoria: seq<Auditoria>
    var startDate: string
    var endDate: string
    var loading: bool
    var error: Option<string>
    var isModalOpen: bool
    var selectedDetails: Option<Details>

    constructor ()
      ensures auditoria == [] && startDate == "" && endDate == "" && !loading
      ensures error == None && !isModalOpen && selectedDetails == None
    {
      auditoria := [];
      startDate := "";
      endDate := "";
      loading := false;
      error := None;
      isModalOpen := false;
      selectedDetails := None;
    }

    method SetStartDate(value: string)
      modifies this
      ensures startDate == value && endDate == old(endDate) && auditoria == old(auditoria)
      ensures loading == old(loading) && error == old(error)
      ensures isModalOpen == old(isModalOpen) && selectedDetails == old(selectedDetails)
    {
      startDate := value;
    }

    method SetEndDate(value: string)
      modifies this
      ensures endDate == value && startDate == old(startDate) && auditoria == old(auditoria)
      ensures loading == old(loading) && error == old(error)
      ensures isModalOpen == old(isModalOpen) && selectedDetails == old(selectedDetails)
    {
      endDate := value;
    }

    /**
     * `fetchAllAuditoria`, once the request has settled with `result`: the list
     * is replaced and the error cleared, or the list is kept and the fixed error
     * is set; either way loading is over.
     */
    method FetchAll(result: Fetched<seq<Auditoria>>)
      modifies this
      ensures !loading
      ensures result.Loaded? ==> auditoria == result.data && error == None
      ensures result.FetchFailed? ==> auditoria == old(auditoria) && error == Some(LoadAllError)
      ensures startDate == old(startDate) && endDate == old(endDate)
      ensures isModalOpen == old(isModalOpen) && selectedDetails == old(selectedDetails)
    {
      loading := true;
      match result {
        case Loaded(data) =>
          auditoria := data;
          error := None;
        case FetchFailed =>
          error := Some(LoadAllError);
      }
      loading := false;
    }

    /**
     * `handleFilterByDate`: with either date empty it only warns, and nothing
     * is requested or changed. Otherwise it requests the range and, once the
     * request has settled with `result`, updates the list like `FetchAll` with
     * its own error text.
     */
    method FilterByDate(result: Fetched<seq<Auditoria>>) returns (warned: bool, request: Option<(string, string)>)
      modifies this
      ensures warned <==> startDate == "" || endDate == ""
      ensures warned ==> request == None && auditoria == old(auditoria) && loading == old(loading) && error == old(error)
      ensures !warned ==> request == Some((startDate, endDate)) && !loading
      ensures !warned && result.Loaded? ==> auditoria == result.data && error == None
      ensures !warned && result.FetchFailed? ==> auditoria == old(auditoria) && error == Some(FilterError)
      ensures startDate == old(startDate) && endDate == old(endDate)
      ensures isModalOpen == old(isModalOpen) && selectedDetails == old(selectedDetails)
    {
      if startDate == "" || endDate == "" {
        return true, None;
      }
      warned, request := false, Some((startDate, endDate));
      loading := true;
      match result {
        case Loaded(data) =>
          auditoria := data;
          error := None;
        case FetchFailed =>
          error := Some(FilterError);
      }
      loading := false;
    }

    method OpenModal(details: Details)
      modifies this
      ensures isModalOpen && selectedDetails == Some(details)
      ensures auditoria == old(auditoria) && startDate == old(startDate) && endDate == old(endDate)
      ensures loading == old(loading) && error == old(error)
    {
      selectedDetails := Some(details);
      isModalOpen := true;
    }

    method CloseModal()
      modifies this
      ensures !isModalOpen && selectedDetails == None
      ensures auditoria == old(auditoria) && startDate == old(startDate) && endDate == old(endDate)
      ensures loading == old(loading) && error == old(error)
    {
      isModalOpen := false;
      selectedDetails := None;
    }
  }
}
