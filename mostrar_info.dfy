/**
 * The details view of `src/components/MostrarInfo.tsx`: every entry of a record
 * as a labelled line, except the administrator's names, which share one line
 * at the end.
 */
module MostrarInfo {

  import opened Common
  import opened Text
  import Entities

  const NoData := "No disponible"

  predicate IsAsciiUpper(c: char)
  {
    'A' <= c <= 'Z'
  }

  /** The characters the regular expression `.` does not match. */
  predicate IsLineTerminator(c: char)
  {
    c == '\n' || c == '\r' || c == '\U{2028}' || c == '\U{2029}'
  }

  function CountUpper(s: string): nat
    decreases |s|
  {
    if s == [] then 0 else (if IsAsciiUpper(s[0]) then 1 else 0) + CountUpper(s[1..])
  }

  /** `key.replace(/([A-Z])/g, ' $1')`: one space before every ASCII capital. */
  function SpaceCapitals(key: string): (r: string)
    ensures |r| == |key| + CountUpper(key)
    ensures |key| == 1 ==> r == if IsAsciiUpper(key[0]) then [' '] + key else key
    ensures key != [] && IsAsciiUpper(key[0]) ==> r[0] == ' '
    ensures key != [] && !IsAsciiUpper(key[0]) ==> r[0] == key[0]
    decreases |key|
  {
    if key == [] then []
    else (if IsAsciiUpper(key[0]) then [' ', key[0]] else [key[0]]) + SpaceCapitals(key[1..])
  }

  /**
   * The replacement works character by character: the text of a concatenation
   * is the concatenation of the texts, so with the one-character cases above
   * each capital gets its space directly before it and nothing else changes.
   */
  lemma {:induction false} SpaceCapitalsAppend(a: string, b: string)
    ensures SpaceCapitals(a + b) == SpaceCapitals(a) + SpaceCapitals(b)
    decreases |a|
  {
    if a == [] {
      assert a + b == b;
    } else {
      var head := if IsAsciiUpper(a[0]) then [' ', a[0]] else [a[0]];
      assert (a + b)[0] == a[0] && (a + b)[1..] == a[1..] + b;
      assert SpaceCapitals(a + b) == head + SpaceCapitals(a[1..] + b);
      SpaceCapitalsAppend(a[1..], b);
      assert SpaceCapitals(a) == head + SpaceCapitals(a[1..]);
      ConcatAssoc(head, SpaceCapitals(a[1..]), SpaceCapitals(b));
    }
  }

  lemma ConcatAssoc(x: string, y: string, z: string)
    ensures x + (y + z) == (x + y) + z
  {
  }

  /** `s.replace(/^./, c => c.toUpperCase())`: the first character upper-cased, unless it is a line terminator. */
  function FirstUpper(s: string): string
  {
    if s == [] || IsLineTerminator(s[0]) then s else UpperChar(s[0]) + s[1..]
  }

  /**
   * `formatKey`: a space before every capital, then the first character
   * upper-cased. A key starting with a capital keeps the leading space (a
   * space upper-cases to itself); any other first character is upper-cased
   * unless it is a line terminator, and the rest is spaced.
   */
  function FormatKey(key: string): (r: string)
    ensures key == [] ==> r == []
    ensures key != [] && IsAsciiUpper(key[0]) ==> r == SpaceCapitals(key)
    ensures key != [] && !IsAsciiUpper(key[0]) && !IsLineTerminator(key[0]) ==>
      r == UpperChar(key[0]) + SpaceCapitals(key[1..])
    ensures key != [] && IsLineTerminator(key[0]) ==> r == [key[0]] + SpaceCapitals(key[1..])
    ensures |r| >= |key| + CountUpper(key)
  {
    UpperCharBelowLower(' ');
    FirstUpper(SpaceCapitals(key))
  }

  function RemoveSpaces(s: string): string
    decreases |s|
  {
    if s == [] then [] else (if s[0] == ' ' then [] else [s[0]]) + RemoveSpaces(s[1..])
  }

  lemma {:induction false} RemoveSpacesAppend(a: string, b: string)
    ensures RemoveSpaces(a + b) == RemoveSpaces(a) + RemoveSpaces(b)
    decreases |a|
  {
    if a != [] {
      var head := if a[0] == ' ' then [] else [a[0]];
      RemoveSpacesAppend(a[1..], b);
      assert (a + b)[0] == a[0] && (a + b)[1..] == a[1..] + b;
      assert RemoveSpaces(a + b) == head + RemoveSpaces(a[1..] + b);
    } else {
      assert a + b == b;
    }
  }

  /** Removing the inserted spaces from a key without spaces gives the key back. */
  lemma {:induction false} SpacesRemoved(key: string)
    requires ' ' !in key
    ensures RemoveSpaces(SpaceCapitals(key)) == key
    decreases |key|
  {
    if key != [] {
      var head := if IsAsciiUpper(key[0]) then [' ', key[0]] else [key[0]];
      assert ' ' !in key[1..];
      SpacesRemoved(key[1..]);
      RemoveSpacesAppend(head, SpaceCapitals(key[1..]));
      assert RemoveSpaces(head) == [key[0]];
      assert key == [key[0]] + key[1..];
    }
  }

  lemma UpperKeepsNoSpace(c: char)
    requires c != ' '
    ensures RemoveSpaces(UpperChar(c)) == UpperChar(c)
  {
    var u := UpperChar(c);
    if |u| == 1 {
      assert u[0] != ' ' && u[1..] == [];
    } else {
      assert u == "SS";
      assert u[1..] == "S" && u[1..][1..] == [];
      assert RemoveSpaces(u[1..]) == "S";
    }
  }

  /** For a key without spaces, deleting every space of `formatKey(key)` gives the key with its first character upper-cased. */
  lemma FormatKeyRoundTrip(key: string)
    requires ' ' !in key
    ensures RemoveSpaces(FormatKey(key)) == FirstUpper(key)
  {
    SpacesRemoved(key);
    if key != [] {
      assert ' ' !in key[1..];
      SpacesRemoved(key[1..]);
      if IsAsciiUpper(key[0]) {
        UpperHeadRoundTrip(key);
      } else if !IsLineTerminator(key[0]) {
        OtherHeadRoundTrip(key);
      } else {
        assert FormatKey(key) == SpaceCapitals(key);
      }
    }
  }

  /** A key starting with a capital: the inserted leading space stays, and removing it gives the key. */
  lemma UpperHeadRoundTrip(key: string)
    requires key != [] && IsAsciiUpper(key[0])
    requires RemoveSpaces(SpaceCapitals(key)) == key
    ensures RemoveSpaces(FormatKey(key)) == FirstUpper(key)
  {
    var spaced := SpaceCapitals(key);
    assert spaced[0] == ' ';
    UpperCharBelowLower(' ');
    assert FormatKey(key) == [' '] + spaced[1..];
    assert [' '] + spaced[1..] == spaced;
    UpperCharBelowLower(key[0]);
    assert FirstUpper(key) == [key[0]] + key[1..];
    assert [key[0]] + key[1..] == key;
  }

  /** A key starting with neither a capital nor a line terminator: its first character is upper-cased in place. */
  lemma OtherHeadRoundTrip(key: string)
    requires key != [] && ' ' !in key && !IsAsciiUpper(key[0]) && !IsLineTerminator(key[0])
    requires RemoveSpaces(SpaceCapitals(key[1..])) == key[1..]
    ensures RemoveSpaces(FormatKey(key)) == FirstUpper(key)
  {
    var rest := SpaceCapitals(key[1..]);
    assert SpaceCapitals(key) == [key[0]] + rest;
    assert FormatKey(key) == UpperChar(key[0]) + rest;
    RemoveSpacesAppend(UpperChar(key[0]), rest);
    UpperKeepsNoSpace(key[0]);
  }

  /** `key.toLowerCase().includes("date")` */
  predicate IsDateKey(key: string)
  {
    Contains(Lower(key), "date")
  }

  /**
   * `formatValue`: a text under a date key is formatted; a missing or null
   * value shows "No disponible"; any other value is returned as it is. The
   * result is the value handed to React, which renders a boolean as nothing.
   */
  function FormatValue(key: string, value: Option<Value>, formatDate: string -> string): (r: Value)
    ensures r != Null
    ensures value.None? || value == Some(Null) ==> r == Str(NoData)
    ensures value.Some? && value.value.Str? && IsDateKey(key) ==> r == Str(formatDate(value.value.s))
    ensures value.Some? && value.value != Null && !(value.value.Str? && IsDateKey(key)) ==> r == value.value
  {
    match value
    case None => Str(NoData)
    case Some(v) =>
      if v.Str? && IsDateKey(key) then Str(formatDate(v.s))
      else if v.Null? then Str(NoData)
      else v
  }

  predicate IsAdminKey(entry: (string, Value))
  {
    entry.0 == "AdminName" || entry.0 == "AdminLastName"
  }

  predicate IsListed(entry: (string, Value))
  {
    !IsAdminKey(entry)
  }

  /** `data[key]`: the value of the first entry with that key. */
  function Lookup(entries: seq<(string, Value)>, key: string): (r: Option<Value>)
    ensures r.None? <==> forall i :: 0 <= i < |entries| ==> entries[i].0 != key
    ensures r.Some? ==> exists i :: 0 <= i < |entries| && entries[i] == (key, r.value)
  {
    match FirstIndex(entries, (e: (string, Value)) => e.0 == key)
    case None => None
    case Some(i) => Some(entries[i].1)
  }

  /** The rendered view: the labelled lines, then the administrator's name and last name. */
  datatype View = View(lines: seq<(string, Value)>, adminName: Value, adminLastName: Value)

  /** The entries that get a line of their own: all but the administrator's names, in entry order. */
  function Listed(entries: seq<(string, Value)>): (r: seq<(string, Value)>)
    ensures IsSubseq(r, entries)
    ensures forall e :: multiset(r)[e] == if IsAdminKey(e) then 0 else multiset(entries)[e]
  {
    Filter(entries, IsListed)
  }

  /** The component: one line per listed entry with its formatted key and value, and the shared administrator line. */
  function Render(entries: seq<(string, Value)>, formatDate: string -> string): (r: View)
    ensures |r.lines| == |Listed(entries)|
    ensures forall i :: 0 <= i < |r.lines| ==>
      r.lines[i] == (FormatKey(Listed(entries)[i].0), FormatValue(Listed(entries)[i].0, Some(Listed(entries)[i].1), formatDate))
    ensures r.adminName == FormatValue("AdminName", Lookup(entries, "AdminName"), formatDate)
    ensures r.adminLastName == FormatValue("AdminLastName", Lookup(entries, "AdminLastName"), formatDate)
  {
    var listed := Listed(entries);
    View(
      seq(|listed|, i requires 0 <= i < |listed| =>
        (FormatKey(listed[i].0), FormatValue(listed[i].0, Some(listed[i].1), formatDate))),
      FormatValue("AdminName", Lookup(entries, "AdminName"), formatDate),
      FormatValue("AdminLastName", Lookup(entries, "AdminLastName"), formatDate))
  }

  /** The value of the administrator line for a key that holds no "date": the value, or "No disponible" when missing or null. */
  function AdminValue(v: Option<Value>): Value
  {
    match v
    case None => Str(NoData)
    case Some(Null) => Str(NoData)
    case Some(x) => x
  }

  /** The administrator keys are not date keys, so their line shows the plain values, or "No disponible". */
  lemma AdminLine(v: Option<Value>, formatDate: string -> string)
    ensures FormatValue("AdminName", v, formatDate) == AdminValue(v)
    ensures FormatValue("AdminLastName", v, formatDate) == AdminValue(v)
  {
    NoDateIn("AdminName");
    PlainValue("AdminName", v, formatDate);
    NoDateIn("AdminLastName");
    PlainValue("AdminLastName", v, formatDate);
  }

  lemma PlainValue(key: string, v: Option<Value>, formatDate: string -> string)
    requires !IsDateKey(key)
    ensures FormatValue(key, v, formatDate) == AdminValue(v)
  {
  }

  /** Neither administrator key holds "date" once lower-cased: its only "d" is followed by "m". */
  lemma NoDateIn(key: string)
    requires key == "AdminName" || key == "AdminLastName"
    ensures !IsDateKey(key)
  {
    var low := Lower(key);
    assert low[0] == 'a' && low[1] == 'd' && low[2] == 'm';
    assert forall i :: 2 <= i < |low| ==> low[i] != 'd';
    forall i | 0 <= i <= |low| ensures !OccursAt(low, "date", i) {
      if i + 4 <= |low| {
        var window := low[i..][..4];
        if i == 1 {
          assert window[1] == low[2];
        } else {
          assert window[0] == low[i];
        }
      }
    }
    ContainsIffOccurs(low, "date");
  }
}
