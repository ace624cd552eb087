/**
 * `Array.prototype.sort` with a comparator, as the views use it. The engine's
 * sort is stable, so with a comparator that is a total preorder `le` the result
 * is the unique ordering of the input in which equal elements keep their input
 * order. The model computes it by insertion sort: each element goes before the
 * first element it is `le` to, so earlier elements stay ahead of equal later ones.
 */
module Sorting {

  import opened Common

  /** `le` is total and transitive: a comparator JavaScript's sort can honour. */
  ghost predicate TotalPreorder<T(!new)>(le: (T, T) -> bool)
  {
    (forall a, b :: le(a, b) || le(b, a))
    && (forall a, b, c :: le(a, b) && le(b, c) ==> le(a, c))
  }

  ghost predicate SortedBy<T>(s: seq<T>, le: (T, T) -> bool)
  {
    forall i, j :: 0 <= i < j < |s| ==> le(s[i], s[j])
  }

  /** `x` inserted into the sorted `s` before the first element it is `le` to. */
  function Insert<T(!new)>(x: T, s: seq<T>, le: (T, T) -> bool): (r: seq<T>)
    requires TotalPreorder(le) && SortedBy(s, le)
    ensures multiset(r) == multiset(s) + multiset{x}
    ensures SortedBy(r, le)
    decreases |s|
  {
    if s == [] || le(x, s[0]) then
      InsertFront(x, s, le);
      [x] + s
    else
      SortedTail(s, le);
      var rest := Insert(x, s[1..], le);
      InsertAfterHead(x, s, rest, le);
      [s[0]] + rest
  }

  lemma InsertFront<T(!new)>(x: T, s: seq<T>, le: (T, T) -> bool)
    requires TotalPreorder(le) && SortedBy(s, le) && (s == [] || le(x, s[0]))
    ensures SortedBy([x] + s, le)
  {
    assert forall j :: 0 <= j < |s| ==> le(x, s[j]);
    forall i, j | 0 <= i < j < |[x] + s| ensures le(([x] + s)[i], ([x] + s)[j]) {
      if i > 0 {
        assert ([x] + s)[i] == s[i - 1];
      }
    }
  }

  /** The head of `s`, which `x` does not precede, followed by `x` inserted into the rest. */
  lemma InsertAfterHead<T(!new)>(x: T, s: seq<T>, rest: seq<T>, le: (T, T) -> bool)
    requires TotalPreorder(le) && SortedBy(s, le) && s != [] && !le(x, s[0])
    requires multiset(rest) == multiset(s[1..]) + multiset{x} && SortedBy(rest, le)
    ensures multiset([s[0]] + rest) == multiset(s) + multiset{x}
    ensures SortedBy([s[0]] + rest, le)
  {
    assert s == [s[0]] + s[1..];
    forall j | 0 <= j < |rest| ensures le(s[0], rest[j]) {
      assert rest[j] in multiset(rest);
      if rest[j] != x {
        assert rest[j] in multiset(s[1..]);
        var k :| 0 <= k < |s[1..]| && s[1..][k] == rest[j];
        assert s[k + 1] == rest[j];
      }
    }
    var r := [s[0]] + rest;
    forall i, j | 0 <= i < j < |r| ensures le(r[i], r[j]) {
      if i > 0 {
        assert r[i] == rest[i - 1] && r[j] == rest[j - 1];
      } else {
        assert r[j] == rest[j - 1];
      }
    }
  }

  /** `[...s].sort(cmp)` where `cmp` orders by the total preorder `le`. */
  function SortBy<T(!new)>(s: seq<T>, le: (T, T) -> bool): (r: seq<T>)
    requires TotalPreorder(le)
    ensures multiset(r) == multiset(s)
    ensures SortedBy(r, le)
    decreases |s|
  {
    if s == [] then []
    else
      assert s == [s[0]] + s[1..];
      Insert(s[0], SortBy(s[1..], le), le)
  }

  /** The first element of a sorted sequence is `le` to every element of it. */
  lemma SortedHead<T>(s: seq<T>, le: (T, T) -> bool, y: T)
    requires SortedBy(s, le) && s != [] && y in multiset(s)
    ensures s[0] == y || le(s[0], y)
  {
    var k :| 0 <= k < |s| && s[k] == y;
  }

  lemma SortedTail<T>(s: seq<T>, le: (T, T) -> bool)
    requires SortedBy(s, le) && s != []
    ensures SortedBy(s[1..], le)
  {
    forall i, j | 0 <= i < j < |s[1..]| ensures le(s[1..][i], s[1..][j]) {
      assert s[1..][i] == s[i + 1] && s[1..][j] == s[j + 1];
    }
  }

  lemma SameHeadSameTail<T>(s: seq<T>, t: seq<T>)
    requires s != [] && t != [] && s[0] == t[0] && multiset(s) == multiset(t)
    ensures multiset(s[1..]) == multiset(t[1..])
  {
    assert s == [s[0]] + s[1..] && t == [t[0]] + t[1..];
    assert multiset(s) == multiset{s[0]} + multiset(s[1..]);
    assert multiset(t) == multiset{t[0]} + multiset(t[1..]);
    forall x ensures multiset(s[1..])[x] == multiset(t[1..])[x] {
      assert multiset(s)[x] == multiset{s[0]}[x] + multiset(s[1..])[x];
      assert multiset(t)[x] == multiset{t[0]}[x] + multiset(t[1..])[x];
    }
  }

  /**
   * Two sorted sequences with the same elements are equal when `le` tells
   * their elements apart: the sorted order is unique.
   */
  lemma {:induction false} SortedUnique<T>(s: seq<T>, t: seq<T>, le: (T, T) -> bool)
    requires SortedBy(s, le) && SortedBy(t, le) && multiset(s) == multiset(t)
    requires forall a, b :: a in s && b in s && le(a, b) && le(b, a) ==> a == b
    ensures s == t
    decreases |s|
  {
    if s != [] {
      assert |t| == |s| by {
        assert |multiset(t)| == |multiset(s)|;
      }
      assert t[0] in multiset(s) && s[0] in multiset(t);
      SortedHead(s, le, t[0]);
      SortedHead(t, le, s[0]);
      assert t[0] in s;
      assert s[0] == t[0];
      SameHeadSameTail(s, t);
      SortedTail(s, le);
      SortedTail(t, le);
      assert forall a :: a in s[1..] ==> a in s;
      SortedUnique(s[1..], t[1..], le);
      assert s == [s[0]] + s[1..] && t == [t[0]] + t[1..];
    }
  }
}
