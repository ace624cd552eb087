/**
 * The name sanitiser of the create forms (`sanitizeText` in
 * `CreateEncargadoFrom.tsx`, `removeSpecialChars` in `CreatePadrinoForm.tsx`):
 * `normalize("NFD")`, then removal of the combining marks U+0300 to U+036F,
 * then removal of every character outside `[a-zA-Z0-9\s]`; and the
 * field-selective change that applies it.
 *
 * The canonical decomposition is a parameter: `decomposition(c)` is the NFD
 * of the single character `c`.
 */
module Sanitize {

  import opened Common
  import opened Text

  /** The range `[̀-ͯ]` of combining diacritical marks. */
  predicate IsCombiningMark(c: char)
  {
    '\U{0300}' <= c <= '\U{036F}'
  }

  predicate NotMark(c: char)
  {
    !IsCombiningMark(c)
  }

  /** The class `[a-zA-Z0-9\s]`. */
  predicate IsKept(c: char)
  {
    ('a' <= c <= 'z') || ('A' <= c <= 'Z') || ('0' <= c <= '9') || IsJsSpace(c)
  }

  /** The ASCII part of the kept class: letters, digits, and tab to carriage return and space. */
  predicate IsAsciiKept(c: char)
  {
    ('a' <= c <= 'z') || ('A' <= c <= 'Z') || ('0' <= c <= '9') || ('\t' <= c <= '\r') || c == ' '
  }

  predicate AllKept(s: string)
  {
    forall i :: 0 <= i < |s| ==> IsKept(s[i])
  }

  /** `s.normalize("NFD")`, character by character. */
  function Decompose(decomposition: char -> string, s: string): string
    decreases |s|
  {
    if s == [] then [] else decomposition(s[0]) + Decompose(decomposition, s[1..])
  }

  /**
   * The whole pipeline. Its result holds only characters of the kept class,
   * is a subsequence of the decomposed text, and keeps each kept character
   * of the decomposed text as often as it occurs there.
   */
  function Strip(decomposition: char -> string, text: string): (r: string)
    ensures AllKept(r)
    ensures IsSubseq(r, Decompose(decomposition, text))
    ensures forall x :: multiset(r)[x] == if IsKept(x) then multiset(Decompose(decomposition, text))[x] else 0
  {
    var d := Decompose(decomposition, text);
    MarksSubsumed(d);
    var r := Filter(Filter(d, NotMark), IsKept);
    forall i | 0 <= i < |r| ensures IsKept(r[i]) {
      assert multiset(r)[r[i]] > 0;
    }
    r
  }

  /** Removing the marks first removes nothing the second step would keep: no mark is in the kept class. */
  lemma MarksSubsumed(s: string)
    ensures Filter(Filter(s, NotMark), IsKept) == Filter(s, IsKept)
  {
    forall c | IsKept(c) ensures NotMark(c) {
    }
    FilterNarrower(s, NotMark, IsKept);
  }

  /** Filtering by a wider condition before a narrower one is filtering by the narrower one. */
  lemma {:induction false} FilterNarrower<T(!new)>(s: seq<T>, wide: T -> bool, narrow: T -> bool)
    requires forall x :: narrow(x) ==> wide(x)
    ensures Filter(Filter(s, wide), narrow) == Filter(s, narrow)
    decreases |s|
  {
    if s != [] {
      FilterNarrower(s[1..], wide, narrow);
      if wide(s[0]) {
        var t := Filter(s[1..], wide);
        assert Filter(s, wide) == [s[0]] + t;
        assert ([s[0]] + t)[1..] == t;
      }
    }
  }

  /** Filtering text that is entirely of the kept class changes nothing. */
  lemma {:induction false} KeptUnchanged(s: string)
    requires AllKept(s)
    ensures Filter(s, IsKept) == s
    decreases |s|
  {
    if s != [] {
      assert IsKept(s[0]);
      KeptUnchanged(s[1..]);
    }
  }

  /** Decomposing text whose characters are their own decomposition changes nothing. */
  lemma {:induction false} DecomposeFixed(decomposition: char -> string, s: string)
    requires forall i :: 0 <= i < |s| ==> decomposition(s[i]) == [s[i]]
    ensures Decompose(decomposition, s) == s
    decreases |s|
  {
    if s != [] {
      DecomposeFixed(decomposition, s[1..]);
    }
  }

  /** Every character of a decomposed text comes from the decomposition of some character. */
  lemma {:induction false} DecomposedFrom(decomposition: char -> string, s: string, x: char)
    requires x in Decompose(decomposition, s)
    ensures exists c :: x in decomposition(c)
    decreases |s|
  {
    if x !in decomposition(s[0]) {
      DecomposedFrom(decomposition, s[1..], x);
    }
  }

  /** Text of ASCII letters, digits and ASCII white space comes out unchanged, since NFD fixes those characters. */
  lemma AsciiUnchanged(decomposition: char -> string, text: string)
    requires forall c :: IsAsciiKept(c) ==> decomposition(c) == [c]
    requires forall i :: 0 <= i < |text| ==> IsAsciiKept(text[i])
    ensures Strip(decomposition, text) == text
  {
    DecomposeFixed(decomposition, text);
    KeptUnchanged(text);
    MarksSubsumed(text);
  }

  /**
   * The sanitiser is idempotent, given that every character of a canonical
   * decomposition is its own decomposition (NFD is itself idempotent).
   */
  lemma StripIdempotent(decomposition: char -> string, text: string)
    requires forall c, x :: x in decomposition(c) ==> decomposition(x) == [x]
    ensures Strip(decomposition, Strip(decomposition, text)) == Strip(decomposition, text)
  {
    var r := Strip(decomposition, text);
    forall i | 0 <= i < |r| ensures decomposition(r[i]) == [r[i]] {
      SubseqMembers(r, Decompose(decomposition, text), r[i]);
      DecomposedFrom(decomposition, text, r[i]);
    }
    DecomposeFixed(decomposition, r);
    MarksSubsumed(r);
    KeptUnchanged(r);
  }

  /** The value a change stores: sanitised for the named fields in `cleaned`, verbatim for any other. */
  function CleanValue(decomposition: char -> string, cleaned: set<string>, name: string, value: string): (r: string)
    ensures name in cleaned ==> AllKept(r)
    ensures name !in cleaned ==> r == value
  {
    if name in cleaned then Strip(decomposition, value) else value
  }

  /** `setData({ ...data, [name]: cleanedValue })`: the named field takes the value and nothing else changes. */
  function SelectiveChange(decomposition: char -> string, cleaned: set<string>, form: Row, name: string, value: string): (r: Row)
    ensures Get(r, name) == Some(Str(CleanValue(decomposition, cleaned, name, value)))
    ensures forall k :: k != name ==> Get(r, k) == Get(form, k)
  {
    form[name := Str(CleanValue(decomposition, cleaned, name, value))]
  }

  /** Every cleaned field of the form holds text of the kept class only. */
  predicate CleanFields(cleaned: set<string>, form: Row)
  {
    forall k :: k in cleaned && k in form && form[k].Str? ==> AllKept(form[k].s)
  }

  /** A change keeps the cleaned fields clean. */
  lemma ChangeKeepsClean(decomposition: char -> string, cleaned: set<string>, form: Row, name: string, value: string)
    requires CleanFields(cleaned, form)
    ensures CleanFields(cleaned, SelectiveChange(decomposition, cleaned, form, name, value))
  {
    var r := SelectiveChange(decomposition, cleaned, form, name, value);
    forall k | k in cleaned && k in r && r[k].Str? ensures AllKept(r[k].s) {
      if k != name {
        assert Get(r, k) == Get(form, k);
      }
    }
  }

  /** Feeding a field's shown text back through the change leaves the form as it is. */
  lemma ReenterStable(decomposition: char -> string, cleaned: set<string>, form: Row, name: string, value: string)
    requires forall c, x :: x in decomposition(c) ==> decomposition(x) == [x]
    ensures var once := SelectiveChange(decomposition, cleaned, form, name, value);
      SelectiveChange(decomposition, cleaned, once, name, once[name].s) == once
  {
    if name in cleaned {
      StripIdempotent(decomposition, value);
    }
    var once := SelectiveChange(decomposition, cleaned, form, name, value);
    assert once[name := Str(CleanValue(decomposition, cleaned, name, once[name].s))] == once;
  }
}
