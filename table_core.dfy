/**
 * The expressions both list views share: the search filter, the column sort
 * comparator, the page window and the page count, and how a cell renders.
 */
module TableCore {

  import opened Common
  import opened Text
  import opened Sorting

  datatype Direction = Asc | Desc

  /** The sort state `{ key, direction }`. */
  datatype SortConfig = SortConfig(key: string, direction: Direction)

  /** The action string an action button passes: 'view', 'edit' or 'delete'. */
  datatype Action = View | Edit | Delete

  /** A table cell: `'-'` for an absent field, otherwise the value itself. */
  datatype Cell = Dash | Shows(v: Value)

  function Min(a: int, b: int): int
  {
    if a <= b then a else b
  }

  /** `v.toString()` */
  function ToText(v: Value): string
  {
    match v
    case Str(s) => s
    case Num(n) => IntToString(n)
    case Bool(b) => if b then "true" else "false"
    case Null => "null"
  }

  /** `row[header]?.toString().toLowerCase().includes(query)` */
  predicate CellMatches(row: Row, header: string, query: string)
  {
    header in row && row[header] != Null && Contains(Lower(ToText(row[header])), query)
  }

  /** `headers.some(header => CellMatches(row, header, query))` */
  predicate RowMatches(row: Row, headers: seq<string>, query: string)
  {
    exists i :: 0 <= i < |headers| && CellMatches(row, headers[i], query)
  }

  /**
   * `data.filter(row => RowMatches(row, headers, query))`: the rows of `data`
   * in their order, each matching row as often as it occurs and no other row.
   */
  function Search(data: seq<Row>, headers: seq<string>, query: string): (r: seq<Row>)
    ensures IsSubseq(r, data)
    ensures forall row :: multiset(r)[row] == if RowMatches(row, headers, query) then multiset(data)[row] else 0
  {
    Filter(data, row => RowMatches(row, headers, query))
  }

  /**
   * The empty query keeps exactly the rows that have a non-null value under
   * some header: a row with every header absent or null is dropped even then.
   */
  lemma EmptyQueryMatches(row: Row, headers: seq<string>)
    ensures RowMatches(row, headers, "") <==>
      exists i :: 0 <= i < |headers| && headers[i] in row && row[headers[i]] != Null
  {
    if exists i :: 0 <= i < |headers| && headers[i] in row && row[headers[i]] != Null {
      var i :| 0 <= i < |headers| && headers[i] in row && row[headers[i]] != Null;
      assert StartsWith(Lower(ToText(row[headers[i]])), "");
      assert CellMatches(row, headers[i], "");
    }
  }

  /** Position of a kind in the order used between values of different kinds. */
  function KindRank(v: Option<Value>): nat
  {
    match v
    case None => 0
    case Some(Null) => 1
    case Some(Bool(_)) => 2
    case Some(Num(_)) => 3
    case Some(Str(_)) => 4
  }

  /** `a < b` on strings: lexicographic, a proper prefix first. */
  predicate StrLess(a: string, b: string)
    decreases |a|
  {
    if a == [] then b != []
    else if b == [] then false
    else if a[0] != b[0] then a[0] < b[0]
    else StrLess(a[1..], b[1..])
  }

  lemma {:induction false} StrLessAsym(a: string, b: string)
    ensures !(StrLess(a, b) && StrLess(b, a))
    decreases |a|
  {
    if a != [] && b != [] && a[0] == b[0] {
      StrLessAsym(a[1..], b[1..]);
    }
  }

  lemma {:induction false} StrLessTotal(a: string, b: string)
    ensures StrLess(a, b) || StrLess(b, a) || a == b
    decreases |a|
  {
    if a != [] && b != [] && a[0] == b[0] {
      StrLessTotal(a[1..], b[1..]);
      if a[1..] == b[1..] {
        assert a == [a[0]] + a[1..] && b == [b[0]] + b[1..];
      }
    }
  }

  lemma {:induction false} StrLessTrans(a: string, b: string, c: string)
    requires StrLess(a, b) && StrLess(b, c)
    ensures StrLess(a, c)
    decreases |a|
  {
    if a != [] && a[0] == b[0] && b[0] == c[0] {
      StrLessTrans(a[1..], b[1..], c[1..]);
    }
  }

  /**
   * `a < b` on two field values read from rows (`None` for `undefined`).
   * Values of one kind compare as JavaScript compares them; values of different
   * kinds compare by kind rank.
   */
  predicate ValueLess(a: Option<Value>, b: Option<Value>)
  {
    if KindRank(a) != KindRank(b) then KindRank(a) < KindRank(b)
    else match (a, b)
      case (Some(Num(x)), Some(Num(y))) => x < y
      case (Some(Str(x)), Some(Str(y))) => StrLess(x, y)
      case (Some(Bool(x)), Some(Bool(y))) => !x && y
      case _ => false
  }

  lemma ValueLessAsym(a: Option<Value>, b: Option<Value>)
    ensures !(ValueLess(a, b) && ValueLess(b, a))
  {
    if a.Some? && a.value.Str? && b.Some? && b.value.Str? {
      StrLessAsym(a.value.s, b.value.s);
    }
  }

  lemma ValueLessTotal(a: Option<Value>, b: Option<Value>)
    ensures ValueLess(a, b) || ValueLess(b, a) || a == b
  {
    if a.Some? && a.value.Str? && b.Some? && b.value.Str? {
      StrLessTotal(a.value.s, b.value.s);
    }
  }

  lemma ValueLessTrans(a: Option<Value>, b: Option<Value>, c: Option<Value>)
    requires ValueLess(a, b) && ValueLess(b, c)
    ensures ValueLess(a, c)
  {
    if a.Some? && a.value.Str? && b.Some? && b.value.Str? && c.Some? && c.value.Str? {
      StrLessTrans(a.value.s, b.value.s, c.value.s);
    }
  }

  /** `row[key]` of `a` may stay before that of `b` in a sort with direction `dir`. */
  predicate KeyLe(key: string, dir: Direction, a: Row, b: Row)
  {
    match dir
    case Asc => !ValueLess(Get(b, key), Get(a, key))
    case Desc => !ValueLess(Get(a, key), Get(b, key))
  }

  lemma KeyLeIsTotalPreorder(key: string, dir: Direction)
    ensures TotalPreorder((a, b) => KeyLe(key, dir, a, b))
  {
    forall a: Row, b: Row ensures KeyLe(key, dir, a, b) || KeyLe(key, dir, b, a) {
      ValueLessAsym(Get(a, key), Get(b, key));
    }
    forall a: Row, b: Row, c: Row | KeyLe(key, dir, a, b) && KeyLe(key, dir, b, c)
      ensures KeyLe(key, dir, a, c)
    {
      var x, y, z := Get(a, key), Get(b, key), Get(c, key);
      ValueLessTotal(x, y);
      ValueLessTotal(y, z);
      if ValueLess(x, y) && ValueLess(y, z) {
        ValueLessTrans(x, y, z);
        ValueLessAsym(x, z);
      }
      if ValueLess(y, x) && ValueLess(z, y) {
        ValueLessTrans(z, y, x);
        ValueLessAsym(x, z);
      }
    }
  }

  /** The rows are in the order of `row[key]`, ascending or descending. */
  ghost predicate InKeyOrder(rows: seq<Row>, key: string, dir: Direction)
  {
    forall i, j :: 0 <= i < j < |rows| ==> KeyLe(key, dir, rows[i], rows[j])
  }

  /**
   * `[...rows].sort(cmp)` with the comparator of `handleSort(key, direction)`:
   * the same rows, ordered by `row[key]` in the direction.
   */
  function SortRows(rows: seq<Row>, key: string, dir: Direction): (r: seq<Row>)
    ensures multiset(r) == multiset(rows)
    ensures InKeyOrder(r, key, dir)
  {
    KeyLeIsTotalPreorder(key, dir);
    SortBy(rows, (a, b) => KeyLe(key, dir, a, b))
  }

  /** `sortConfig?.direction === 'asc' ? 'desc' : 'asc'`: the opposite of the current direction, `Asc` when unsorted. */
  function Opposite(cfg: Option<SortConfig>): Direction
  {
    if cfg.Some? && cfg.value.direction == Asc then Desc else Asc
  }

  /** `sortConfig?.key || headers[0]`: the current key, or the first header when there is none or it is empty. */
  function KeyOrFirst(cfg: Option<SortConfig>, headers: seq<string>): string
    requires |headers| > 0
  {
    if cfg.Some? && cfg.value.key != "" then cfg.value.key else headers[0]
  }

  /** `Math.ceil(len / n)` */
  function PageCount(len: nat, n: nat): (r: nat)
    requires n >= 1
    ensures len <= r * n < len + n
  {
    (len + n - 1) / n
  }

  /**
   * `rows.slice((page - 1) * n, (page - 1) * n + n)`: the rows of page `page`,
   * at most `n` of them, taken in order from position `(page - 1) * n`.
   */
  function Window<T>(rows: seq<T>, page: nat, n: nat): (r: seq<T>)
    requires page >= 1 && n >= 1
    ensures |r| <= n
    ensures |r| == if (page - 1) * n >= |rows| then 0 else Min(n, |rows| - (page - 1) * n)
    ensures r != [] ==> (page - 1) * n + |r| <= |rows|
    ensures forall i :: 0 <= i < |r| ==> r[i] == rows[(page - 1) * n + i]
  {
    Slice(rows, (page - 1) * n, n)
  }

  /** `rows.slice(start, start + n)` */
  function Slice<T>(rows: seq<T>, start: nat, n: nat): (r: seq<T>)
    ensures |r| == if start >= |rows| then 0 else Min(n, |rows| - start)
    ensures r != [] ==> start + |r| <= |rows|
    ensures forall i :: 0 <= i < |r| ==> r[i] == rows[start + i]
  {
    rows[Min(start, |rows|)..Min(start + n, |rows|)]
  }

  /** Page `page` is empty exactly when it lies beyond the last page. */
  lemma WindowEmptyIff<T>(rows: seq<T>, page: nat, n: nat)
    requires page >= 1 && n >= 1
    ensures Window(rows, page, n) == [] <==> page > PageCount(|rows|, n)
  {
    var c := PageCount(|rows|, n);
    if page > c {
      assert (page - 1) * n >= c * n by {
        MulMono(c, page - 1, n);
      }
    } else {
      assert (page - 1) * n <= (c - 1) * n by {
        MulMono(page - 1, c - 1, n);
      }
    }
  }

  lemma MulMono(a: nat, b: nat, n: nat)
    requires a <= b
    ensures a * n <= b * n
  {
  }

  /** Row `j` is shown on page `j / n + 1`, at position `j % n`, and that page exists. */
  lemma WindowLocates<T>(rows: seq<T>, n: nat, j: nat)
    requires n >= 1 && j < |rows|
    ensures 1 <= j / n + 1 <= PageCount(|rows|, n)
    ensures j % n < |Window(rows, j / n + 1, n)|
    ensures Window(rows, j / n + 1, n)[j % n] == rows[j]
  {
    var p := j / n + 1;
    assert (p - 1) * n + j % n == j;
    WindowEmptyIff(rows, p, n);
  }

  /** How a row's cells render under the headers. */
  function RenderRow(row: Row, headers: seq<string>): (r: seq<Cell>)
    ensures |r| == |headers|
    ensures forall i :: 0 <= i < |headers| ==> (r[i] == Dash <==> headers[i] !in row)
    ensures forall i :: 0 <= i < |headers| && headers[i] in row ==> r[i] == Shows(row[headers[i]])
  {
    seq(|headers|, i requires 0 <= i < |headers| => if headers[i] in row then Shows(row[headers[i]]) else Dash)
  }
}
