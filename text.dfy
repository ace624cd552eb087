/**
 * The JavaScript string operations the console relies on: `startsWith`, `includes`,
 * `split` with a string separator, `toLowerCase`/`toUpperCase` (Basic Latin and
 * Latin-1 only), `trim` and number-to-string conversion.
 */
module Text {

  import opened Common

  /** `s.startsWith(prefix)` */
  predicate StartsWith(s: string, prefix: string)
  {
    |prefix| <= |s| && s[..|prefix|] == prefix
  }

  /** `hay.includes(needle)` */
  predicate Contains(hay: string, needle: string)
    decreases |hay|
  {
    StartsWith(hay, needle) || (hay != [] && Contains(hay[1..], needle))
  }

  /** `needle` occurs in `hay` at position `i`. */
  ghost predicate OccursAt(hay: string, needle: string, i: int)
  {
    0 <= i <= |hay| && StartsWith(hay[i..], needle)
  }

  lemma {:induction false} ContainsIffOccurs(hay: string, needle: string)
    ensures Contains(hay, needle) <==> exists i :: OccursAt(hay, needle, i)
    decreases |hay|
  {
    if Contains(hay, needle) {
      if StartsWith(hay, needle) {
        assert OccursAt(hay, needle, 0);
      } else {
        ContainsIffOccurs(hay[1..], needle);
        var i :| OccursAt(hay[1..], needle, i);
        assert hay[1..][i..] == hay[i + 1..];
        assert OccursAt(hay, needle, i + 1);
      }
    }
    if exists i :: OccursAt(hay, needle, i) {
      var i :| OccursAt(hay, needle, i);
      if i > 0 {
        assert hay[1..][i - 1..] == hay[i..];
        assert OccursAt(hay[1..], needle, i - 1);
        ContainsIffOccurs(hay[1..], needle);
      }
    }
  }

  /** `s.indexOf(sep)`, with `None` for -1. */
  function IndexOf(s: string, sep: string): (r: Option<nat>)
    ensures r.Some? ==> r.value + |sep| <= |s| && s[r.value..r.value + |sep|] == sep
    ensures r.Some? ==> forall j :: 0 <= j < r.value ==> !StartsWith(s[j..], sep)
    ensures r.None? ==> forall j :: 0 <= j <= |s| ==> !StartsWith(s[j..], sep)
    decreases |s|
  {
    if StartsWith(s, sep) then Some(0)
    else if s == [] then None
    else
      match IndexOf(s[1..], sep)
      case None =>
        NotBeforeShift(s, sep, |s|);
        None
      case Some(i) =>
        NotBeforeShift(s, sep, i);
        assert s[i + 1..i + 1 + |sep|] == s[1..][i..i + |sep|];
        Some(i + 1)
  }

  /** `sep` starting nowhere in `s[1..]` before `n` and not at the start of `s` starts nowhere in `s` up to `n`. */
  lemma NotBeforeShift(s: string, sep: string, n: nat)
    requires s != [] && !StartsWith(s, sep) && n <= |s|
    requires forall j :: 0 <= j < n ==> !StartsWith(s[1..][j..], sep)
    ensures forall j :: 0 <= j <= n ==> !StartsWith(s[j..], sep)
  {
    forall j | 1 <= j <= n ensures !StartsWith(s[j..], sep) {
      assert s[j..] == s[1..][j - 1..];
    }
  }

  /** `parts.join(sep)` */
  function Join(parts: seq<string>, sep: string): string
    requires |parts| > 0
    decreases |parts|
  {
    if |parts| == 1 then parts[0] else parts[0] + sep + Join(parts[1..], sep)
  }

  /**
   * `s.split(sep)` for a non-empty separator: the pieces between the
   * left-most non-overlapping occurrences of `sep`. Joining the pieces with
   * `sep` gives `s` back, and no piece contains `sep`.
   */
  function Split(s: string, sep: string): (r: seq<string>)
    requires |sep| > 0
    ensures |r| > 0
    ensures Join(r, sep) == s
    ensures forall k :: 0 <= k < |r| ==> !Contains(r[k], sep)
    decreases |s|
  {
    match IndexOf(s, sep)
    case None =>
      NoOccurrenceNoContains(s, sep);
      [s]
    case Some(i) =>
      var rest := Split(s[i + |sep|..], sep);
      FirstOccurrenceNoContains(s, sep, i);
      SplitStep(s, sep, i, rest);
      PiecesFree(s[..i], rest, sep);
      [s[..i]] + rest
  }

  /** The piece before the first separator, followed by the pieces of what comes after it, joins back to `s`. */
  lemma SplitStep(s: string, sep: string, i: nat, rest: seq<string>)
    requires i + |sep| <= |s| && s[i..i + |sep|] == sep
    requires |rest| > 0 && Join(rest, sep) == s[i + |sep|..]
    ensures Join([s[..i]] + rest, sep) == s
  {
    var parts := [s[..i]] + rest;
    assert |parts| > 1 && parts[0] == s[..i] && parts[1..] == rest;
    SliceAround(s, i, |sep|);
    assert Join(parts, sep) == parts[0] + sep + Join(parts[1..], sep);
  }

  lemma SliceAround<T>(s: seq<T>, i: nat, n: nat)
    requires i + n <= |s|
    ensures s == s[..i] + s[i..i + n] + s[i + n..]
  {
  }

  /** No piece of `[first] + rest` holds the separator when none of `first` and `rest` does. */
  lemma PiecesFree(first: string, rest: seq<string>, sep: string)
    requires !Contains(first, sep)
    requires forall k :: 0 <= k < |rest| ==> !Contains(rest[k], sep)
    ensures forall k :: 0 <= k < |[first] + rest| ==> !Contains(([first] + rest)[k], sep)
  {
    forall k | 0 <= k < |[first] + rest| ensures !Contains(([first] + rest)[k], sep) {
      if k > 0 {
        assert ([first] + rest)[k] == rest[k - 1];
      }
    }
  }

  lemma NoOccurrenceNoContains(s: string, sep: string)
    requires forall j :: 0 <= j <= |s| ==> !StartsWith(s[j..], sep)
    ensures !Contains(s, sep)
  {
    ContainsIffOccurs(s, sep);
  }

  lemma FirstOccurrenceNoContains(s: string, sep: string, i: nat)
    requires |sep| > 0 && i + |sep| <= |s|
    requires forall j :: 0 <= j < i ==> !StartsWith(s[j..], sep)
    ensures !Contains(s[..i], sep)
  {
    forall j | 0 <= j <= i ensures !StartsWith(s[..i][j..], sep) {
      if |sep| <= i - j {
        assert s[..i][j..][..|sep|] == s[j..][..|sep|];
      }
    }
    ContainsIffOccurs(s[..i], sep);
  }

  /** A joined list starts with its first part, followed by the separator when there are more. */
  lemma JoinHead(parts: seq<string>, sep: string)
    requires |parts| > 0
    ensures StartsWith(Join(parts, sep), parts[0])
    ensures |parts| > 1 ==> StartsWith(Join(parts, sep), parts[0] + sep)
  {
    if |parts| > 1 {
      var j := Join(parts, sep);
      assert j == (parts[0] + sep) + Join(parts[1..], sep);
      assert j[..|parts[0] + sep|] == parts[0] + sep;
    }
  }

  /** `sep` occurs in `a + sep + b`. */
  lemma ContainsJoined(a: string, sep: string, b: string)
    ensures Contains(a + sep + b, sep)
  {
    var s := a + sep + b;
    assert s[|a|..][..|sep|] == sep;
    assert OccursAt(s, sep, |a|);
    ContainsIffOccurs(s, sep);
  }

  /** Splitting gives more than one piece exactly when the separator occurs. */
  lemma SplitManyIff(s: string, sep: string)
    requires |sep| > 0
    ensures |Split(s, sep)| > 1 <==> Contains(s, sep)
  {
    var parts := Split(s, sep);
    if |parts| > 1 {
      assert s == parts[0] + sep + Join(parts[1..], sep);
      ContainsJoined(parts[0], sep, Join(parts[1..], sep));
    } else {
      assert s == parts[0];
    }
  }

  /** JavaScript white space and line terminators (the `\s` class, and what `trim` removes). */
  predicate IsJsSpace(c: char)
  {
    ('\t' <= c <= '\r') || c == ' ' || c == '\U{00A0}' || c == '\U{1680}'
    || ('\U{2000}' <= c <= '\U{200A}') || c == '\U{2028}' || c == '\U{2029}'
    || c == '\U{202F}' || c == '\U{205F}' || c == '\U{3000}' || c == '\U{FEFF}'
  }

  /** `toLowerCase` of one character, for Basic Latin and Latin-1 capitals. */
  function LowerChar(c: char): char
  {
    if 'A' <= c <= 'Z' || ('\U{00C0}' <= c <= '\U{00DE}' && c != '\U{00D7}') then
      (c as int + 32) as char
    else c
  }

  /** `s.toLowerCase()` */
  function Lower(s: string): (r: string)
    ensures |r| == |s|
    ensures forall i :: 0 <= i < |s| ==> r[i] == LowerChar(s[i])
  {
    seq(|s|, i requires 0 <= i < |s| => LowerChar(s[i]))
  }

  /** `c.toUpperCase()` for one character, for Basic Latin and Latin-1 letters. */
  function UpperChar(c: char): string
  {
    if 'a' <= c <= 'z' || ('\U{00E0}' <= c <= '\U{00FE}' && c != '\U{00F7}') then
      [(c as int - 32) as char]
    else if c == '\U{00DF}' then "SS"
    else if c == '\U{00FF}' then "\U{0178}"
    else if c == '\U{00B5}' then "\U{039C}"
    else [c]
  }

  /** Characters before the lower-case letters upper-case to themselves. */
  lemma UpperCharBelowLower(c: char)
    requires c < 'a'
    ensures UpperChar(c) == [c]
  {
  }

  /** `s.trimStart()` */
  function TrimStart(s: string): (r: string)
    ensures |r| <= |s| && r == s[|s| - |r|..]
    ensures r != [] ==> !IsJsSpace(r[0])
    ensures forall i :: 0 <= i < |s| - |r| ==> IsJsSpace(s[i])
    decreases |s|
  {
    if s != [] && IsJsSpace(s[0]) then TrimStart(s[1..]) else s
  }

  /** `s.trimEnd()` */
  function TrimEnd(s: string): (r: string)
    ensures |r| <= |s| && r == s[..|r|]
    ensures r != [] ==> !IsJsSpace(r[|r| - 1])
    ensures forall i :: |r| <= i < |s| ==> IsJsSpace(s[i])
    decreases |s|
  {
    if s != [] && IsJsSpace(s[|s| - 1]) then TrimEnd(s[..|s| - 1]) else s
  }

  /**
   * `s.trim()`: `s` without its leading and trailing white space. The result
   * sits in `s` at some position, everything before and after it is white
   * space, and it neither starts nor ends with white space.
   */
  function Trim(s: string): (r: string)
    ensures |r| <= |s|
    ensures r != [] ==> !IsJsSpace(r[0]) && !IsJsSpace(r[|r| - 1])
    ensures exists i :: TrimmedAt(s, r, i)
  {
    TrimStartEnd(s);
    TrimEnd(TrimStart(s))
  }

  /** Trimming the start then the end leaves the text where the start trim left it. */
  lemma TrimStartEnd(s: string)
    ensures TrimmedAt(s, TrimEnd(TrimStart(s)), |s| - |TrimStart(s)|)
  {
    var t := TrimStart(s);
    TrimEndWithin(s, t, |s| - |t|);
  }

  /**
   * Trimming the end of a suffix `t` of `s` that starts at `i`, after only
   * white space, leaves a part of `s` with only white space around it.
   */
  lemma TrimEndWithin(s: string, t: string, i: nat)
    requires i <= |s| && t == s[i..]
    requires forall j :: 0 <= j < i ==> IsJsSpace(s[j])
    ensures TrimmedAt(s, TrimEnd(t), i)
  {
    var r := TrimEnd(t);
    assert s[i..i + |r|] == r;
    forall j | i + |r| <= j < |s|
      ensures IsJsSpace(s[j])
    {
      assert s[j] == t[j - i];
    }
  }

  /** `r` occurs in `s` at position `i`, with only white space before and after it. */
  ghost predicate TrimmedAt(s: string, r: string, i: int)
  {
    0 <= i <= |s| - |r| && s[i..i + |r|] == r
    && (forall j :: 0 <= j < i ==> IsJsSpace(s[j]))
    && (forall j :: i + |r| <= j < |s| ==> IsJsSpace(s[j]))
  }

  /**
   * Trimming a text that starts with `a` and continues with white space only,
   * where `a` neither starts nor ends with white space, gives `a`.
   */
  lemma TrimPadded(t: string, a: string)
    requires a != [] && !IsJsSpace(a[0]) && !IsJsSpace(a[|a| - 1])
    requires StartsWith(t, a) && forall j :: |a| <= j < |t| ==> IsJsSpace(t[j])
    ensures Trim(t) == a
  {
    var r := Trim(t);
    var i :| TrimmedAt(t, r, i);
    assert t[0] == a[0] && t[|a| - 1] == a[|a| - 1];
    assert !IsJsSpace(t[0]) && !IsJsSpace(t[|a| - 1]);
    assert i == 0 && r != [];
    assert r == t[..|r|];
    assert !IsJsSpace(t[|r| - 1]);
    assert |r| == |a|;
  }

  function DigitChar(d: nat): char
    requires d < 10
  {
    ('0' as int + d) as char
  }

  function NatToString(n: nat): string
    decreases n
  {
    if n < 10 then [DigitChar(n)] else NatToString(n / 10) + [DigitChar(n % 10)]
  }

  /** `n.toString()` for an integer. */
  function IntToString(n: int): string
  {
    if n < 0 then "-" + NatToString(-n) else NatToString(n)
  }
}
