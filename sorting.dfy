/** Ordering of query results: SQL `ORDER BY`, Python's `list.sort(key=..., reverse=...)`.
    Both are modelled by one insertion sort over a comparison `le`; the model promises
    only what the program relies on (the result is sorted and is a permutation of the
    input), not any particular order among equal keys. */
module Sorting {

  /** `le` is total and transitive, as every comparison of keys used by the program is. */
  ghost predicate TotalPreorder<T(!new)>(le: (T, T) -> bool) {
    && (forall a, b :: le(a, b) || le(b, a))
    && (forall a, b, c :: le(a, b) && le(b, c) ==> le(a, c))
  }

  /** Every element is `le` every later element. */
  ghost predicate Sorted<T>(s: seq<T>, le: (T, T) -> bool) {
    forall i, j :: 0 <= i < j < |s| ==> le(s[i], s[j])
  }

  /** The reversed comparison: `ORDER BY ... DESC`, `reverse=True`. */
  function Flip<T>(le: (T, T) -> bool): (T, T) -> bool {
    (a, b) => le(b, a)
  }

  /** `ascending` picks the comparison or its reverse. */
  function Direction<T>(le: (T, T) -> bool, ascending: bool): (T, T) -> bool {
    if ascending then le else Flip(le)
  }

  lemma FlipIsTotalPreorder<T(!new)>(le: (T, T) -> bool)
    requires TotalPreorder(le)
    ensures TotalPreorder(Flip(le))
  {
  }

  function Insert<T>(x: T, s: seq<T>, le: (T, T) -> bool): (r: seq<T>)
    ensures multiset(r) == multiset(s) + multiset{x}
  {
    if s == [] then [x]
    else if le(x, s[0]) then [x] + s
    else
      assert s == [s[0]] + s[1..];
      [s[0]] + Insert(x, s[1..], le)
  }

  /** The ordered result: always a permutation of `s`. */
  function Sort<T>(s: seq<T>, le: (T, T) -> bool): (r: seq<T>)
    ensures multiset(r) == multiset(s)
  {
    if s == [] then []
    else
      assert s == [s[0]] + s[1..];
      Insert(s[0], Sort(s[1..], le), le)
  }

  lemma {:induction false} InsertSorted<T(!new)>(x: T, s: seq<T>, le: (T, T) -> bool)
    requires TotalPreorder(le)
    requires Sorted(s, le)
    ensures Sorted(Insert(x, s, le), le)
  {
    if s != [] && !le(x, s[0]) {
      InsertSorted(x, s[1..], le);
      HeadBelowInsert(x, s, le);
      ConsSorted(s[0], Insert(x, s[1..], le), le);
    }
  }

  /** The head of a sorted sequence that `x` does not go before is below everything `x`
      is inserted among after it. */
  lemma HeadBelowInsert<T(!new)>(x: T, s: seq<T>, le: (T, T) -> bool)
    requires TotalPreorder(le)
    requires Sorted(s, le) && s != [] && !le(x, s[0])
    ensures forall y :: y in Insert(x, s[1..], le) ==> le(s[0], y)
  {
    var tail := Insert(x, s[1..], le);
    assert le(s[0], x);
    forall y | y in tail
      ensures le(s[0], y)
    {
      assert y in multiset(tail);
      assert y == x || y in multiset(s[1..]);
    }
  }

  /** A sorted sequence stays sorted behind an element below all of it. */
  lemma ConsSorted<T>(h: T, tail: seq<T>, le: (T, T) -> bool)
    requires Sorted(tail, le)
    requires forall y :: y in tail ==> le(h, y)
    ensures Sorted([h] + tail, le)
  {
    var r := [h] + tail;
    forall i, j | 0 <= i < j < |r|
      ensures le(r[i], r[j])
    {
      if i == 0 {
        assert r[j] == tail[j - 1];
      } else {
        assert r[i] == tail[i - 1] && r[j] == tail[j - 1];
      }
    }
  }

  /** Sorting with a total preorder yields a sorted sequence. */
  lemma {:induction false} SortSorted<T(!new)>(s: seq<T>, le: (T, T) -> bool)
    requires TotalPreorder(le)
    ensures Sorted(Sort(s, le), le)
  {
    if s != [] {
      SortSorted(s[1..], le);
      InsertSorted(s[0], Sort(s[1..], le), le);
    }
  }

  /** A sorted permutation in either direction. */
  lemma SortDirectionSorted<T(!new)>(s: seq<T>, le: (T, T) -> bool, ascending: bool)
    requires TotalPreorder(le)
    ensures Sorted(Sort(s, Direction(le, ascending)), Direction(le, ascending))
    ensures multiset(Sort(s, Direction(le, ascending))) == multiset(s)
  {
    if !ascending {
      FlipIsTotalPreorder(le);
    }
    SortSorted(s, Direction(le, ascending));
  }
}
