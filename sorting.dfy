/** A stable sort by a strict "comes before" relation.  JavaScript's
    `Array.prototype.sort` is stable, so its results are the ones of this
    insertion sort. */
module Sorting {
  import Seqs

  /** `before(a, b)`: a comparator would put `a` strictly ahead of `b`. */
  ghost predicate Asymmetric<T(!new)>(before: (T, T) -> bool)
  {
    forall a, b :: before(a, b) ==> !before(b, a)
  }

  /** No element is strictly ahead of its predecessor. */
  predicate Ordered<T>(s: seq<T>, before: (T, T) -> bool)
  {
    forall i :: 0 < i < |s| ==> !before(s[i], s[i - 1])
  }

  /** Puts `x` in front of the first element that is not strictly ahead of it,
      so `x` stays ahead of the elements it ties with. */
  function Insert<T>(x: T, s: seq<T>, before: (T, T) -> bool): (r: seq<T>)
    ensures |r| == |s| + 1
    ensures multiset(r) == multiset(s) + multiset{x}
    ensures r[0] == x || (s != [] && r[0] == s[0])
    decreases |s|
  {
    if s == [] || !before(s[0], x) then [x] + s
    else
      assert s == [s[0]] + s[1..];
      [s[0]] + Insert(x, s[1..], before)
  }

  /** The stable sort: the first element is inserted into the sorted rest. */
  function SortBy<T>(s: seq<T>, before: (T, T) -> bool): (r: seq<T>)
    ensures multiset(r) == multiset(s)
    ensures |r| == |s|
    decreases |s|
  {
    if s == [] then []
    else
      assert s == [s[0]] + s[1..];
      Insert(s[0], SortBy(s[1..], before), before)
  }

  lemma {:induction false} InsertOrdered<T(!new)>(x: T, s: seq<T>, before: (T, T) -> bool)
    requires Asymmetric(before)
    requires Ordered(s, before)
    ensures Ordered(Insert(x, s, before), before)
    decreases |s|
  {
    if s != [] && before(s[0], x) {
      InsertOrdered(x, s[1..], before);
      var rest := Insert(x, s[1..], before);
      assert rest[0] == x || rest[0] == s[1];
      assert !before(rest[0], s[0]);
    }
  }

  /** The sort result is ordered by `before`. */
  lemma {:induction false} SortOrdered<T(!new)>(s: seq<T>, before: (T, T) -> bool)
    requires Asymmetric(before)
    ensures Ordered(SortBy(s, before), before)
    decreases |s|
  {
    if s != [] {
      SortOrdered(s[1..], before);
      InsertOrdered(s[0], SortBy(s[1..], before), before);
    }
  }

  /** The elements `p` picks out all tie with each other: none is strictly ahead of another. */
  ghost predicate Ties<T(!new)>(p: T -> bool, before: (T, T) -> bool)
  {
    forall a, b :: p(a) && p(b) ==> !before(a, b)
  }

  /** Among elements that tie, an inserted `x` goes ahead of the ones already there. */
  lemma {:induction false} InsertKeepsTieOrder<T(!new)>(x: T, s: seq<T>, before: (T, T) -> bool, p: T -> bool)
    requires Ties(p, before)
    ensures Seqs.Filter(Insert(x, s, before), p) == if p(x) then [x] + Seqs.Filter(s, p) else Seqs.Filter(s, p)
    decreases |s|
  {
    if s == [] || !before(s[0], x) {
      assert ([x] + s)[1..] == s;
    } else {
      InsertKeepsTieOrder(x, s[1..], before, p);
      var r := Insert(x, s[1..], before);
      assert ([s[0]] + r)[1..] == r;
      if p(x) {
        assert !p(s[0]);
      }
    }
  }

  /** The sort is stable: elements that tie come out in their input order. */
  lemma {:induction false} SortIsStable<T(!new)>(s: seq<T>, before: (T, T) -> bool, p: T -> bool)
    requires Ties(p, before)
    ensures Seqs.Filter(SortBy(s, before), p) == Seqs.Filter(s, p)
    decreases |s|
  {
    if s != [] {
      SortIsStable(s[1..], before, p);
      InsertKeepsTieOrder(s[0], SortBy(s[1..], before), before, p);
    }
  }
}
