/** The stable sort that `list.sort` and `sorted` perform, for any order on the elements. */
module Sorting {
  import opened Names
  import opened Dicts

  ghost predicate TotalPreorder<T(!new)>(le: (T, T) -> bool) {
    && (forall x, y :: le(x, y) || le(y, x))
    && (forall x, y, z :: le(x, y) && le(y, z) ==> le(x, z))
  }

  function Insert<T>(x: T, xs: seq<T>, le: (T, T) -> bool): seq<T> {
    if xs == [] || le(x, xs[0]) then [x] + xs else [xs[0]] + Insert(x, xs[1..], le)
  }

  function StableSort<T>(xs: seq<T>, le: (T, T) -> bool): seq<T> {
    if xs == [] then [] else Insert(xs[0], StableSort(xs[1..], le), le)
  }

  lemma {:induction false} InsertPermutes<T>(x: T, xs: seq<T>, le: (T, T) -> bool)
    ensures multiset(Insert(x, xs, le)) == multiset(xs) + multiset{x}
  {
    if xs != [] {
      assert xs == [xs[0]] + xs[1..];
      if !le(x, xs[0]) { InsertPermutes(x, xs[1..], le); }
    }
  }

  lemma {:induction false} SortPermutes<T>(xs: seq<T>, le: (T, T) -> bool)
    ensures multiset(StableSort(xs, le)) == multiset(xs) && |StableSort(xs, le)| == |xs|
  {
    if xs != [] {
      SortPermutes(xs[1..], le);
      InsertPermutes(xs[0], StableSort(xs[1..], le), le);
      assert xs == [xs[0]] + xs[1..];
    }
    assert |StableSort(xs, le)| == |multiset(StableSort(xs, le))|;
  }

  lemma SortMembers<T>(xs: seq<T>, le: (T, T) -> bool)
    ensures forall x :: x in StableSort(xs, le) <==> x in xs
  {
    SortPermutes(xs, le);
    forall x ensures x in StableSort(xs, le) <==> x in xs {
      assert x in multiset(StableSort(xs, le)) <==> x in multiset(xs);
    }
  }

  /** Ordered by `le`, and by `before` among elements `le` does not tell apart. */
  ghost predicate OrderedThen<T(!new)>(xs: seq<T>, le: (T, T) -> bool, before: (T, T) -> bool) {
    forall i, j | 0 <= i < j < |xs| :: le(xs[i], xs[j]) && (le(xs[j], xs[i]) ==> before(xs[i], xs[j]))
  }

  ghost predicate Pairwise<T(!new)>(xs: seq<T>, before: (T, T) -> bool) {
    forall i, j | 0 <= i < j < |xs| :: before(xs[i], xs[j])
  }

  lemma {:induction false} InsertOrdered<T(!new)>(x: T, xs: seq<T>, le: (T, T) -> bool, before: (T, T) -> bool)
    requires TotalPreorder(le) && OrderedThen(xs, le, before) && forall y | y in xs :: before(x, y)
    ensures OrderedThen(Insert(x, xs, le), le, before)
  {
    if xs != [] && !le(x, xs[0]) {
      InsertOrdered(x, xs[1..], le, before);
      InsertPermutes(x, xs[1..], le);
      var rest := Insert(x, xs[1..], le);
      forall k | 0 <= k < |rest| ensures le(xs[0], rest[k]) && (le(rest[k], xs[0]) ==> before(xs[0], rest[k])) {
        assert rest[k] in multiset(rest);
        if rest[k] != x || x in xs[1..] {
          assert rest[k] in xs[1..];
          var m :| 0 <= m < |xs[1..]| && xs[1..][m] == rest[k];
          assert xs[m + 1] == rest[k];
        }
      }
    }
  }

  /** Stability: sorting a list that is already in `before` order keeps that order among ties. */
  lemma {:induction false} SortOrdered<T(!new)>(xs: seq<T>, le: (T, T) -> bool, before: (T, T) -> bool)
    requires TotalPreorder(le) && Pairwise(xs, before)
    ensures OrderedThen(StableSort(xs, le), le, before)
  {
    if xs != [] {
      SortOrdered(xs[1..], le, before);
      SortPermutes(xs[1..], le);
      var rest := StableSort(xs[1..], le);
      forall y | y in rest ensures before(xs[0], y) {
        assert y in multiset(rest);
        assert y in xs[1..];
      }
      InsertOrdered(xs[0], rest, le, before);
    }
  }

  lemma {:induction false} InsertKeepsTies<T>(x: T, xs: seq<T>, le: (T, T) -> bool, tied: T -> bool)
    requires forall y, z | tied(y) && tied(z) :: le(y, z)
    ensures Where(Insert(x, xs, le), tied) == (if tied(x) then [x] else []) + Where(xs, tied)
  {
    hide Where;
    WhereCons(x, xs, tied);
    if xs != [] && !le(x, xs[0]) {
      InsertKeepsTies(x, xs[1..], le, tied);
      WhereCons(xs[0], Insert(x, xs[1..], le), tied);
      WhereCons(xs[0], xs[1..], tied);
      assert xs == [xs[0]] + xs[1..];
      assert !tied(x) || !tied(xs[0]);
    }
  }

  /** Elements the order does not tell apart keep the order they came in. */
  lemma {:induction false} SortKeepsTies<T>(xs: seq<T>, le: (T, T) -> bool, tied: T -> bool)
    requires forall y, z | tied(y) && tied(z) :: le(y, z)
    ensures Where(StableSort(xs, le), tied) == Where(xs, tied)
  {
    if xs != [] {
      SortKeepsTies(xs[1..], le, tied);
      InsertKeepsTies(xs[0], StableSort(xs[1..], le), le, tied);
    }
  }

  /** Sorting what is already in order changes nothing. */
  lemma {:induction false} SortFixed<T(!new)>(xs: seq<T>, le: (T, T) -> bool)
    requires Pairwise(xs, le)
    ensures StableSort(xs, le) == xs
  {
    if xs != [] {
      forall i, j | 0 <= i < j < |xs[1..]| ensures le(xs[1..][i], xs[1..][j]) {
        assert le(xs[i + 1], xs[j + 1]);
      }
      SortFixed(xs[1..], le);
      assert xs == [xs[0]] + xs[1..];
    }
  }

  function ByName(): (string, string) -> bool { (a: string, b: string) => Le(a, b) }

  lemma NamesOrdered()
    ensures TotalPreorder(ByName())
  {
    forall x: string, y: string ensures ByName()(x, y) || ByName()(y, x) { LeTotal(x, y); }
    forall x: string, y: string, z: string | ByName()(x, y) && ByName()(y, z) ensures ByName()(x, z) {
      LeTransitive(x, y, z);
    }
  }

  /** s lists the set in ascending order, each element once. */
  ghost predicate ListsSet(s: seq<string>, names: set<string>) {
    Distinct(s) && Ascending(s) && Elems(s) == names
  }

  /** `sorted` of a list without repetitions. */
  lemma SortedNames(xs: seq<string>)
    requires Distinct(xs)
    ensures ListsSet(StableSort(xs, ByName()), Elems(xs))
  {
    NamesOrdered();
    var differ := (x: string, y: string) => x != y;
    SortOrdered(xs, ByName(), differ);
    SortMembers(xs, ByName());
    var s := StableSort(xs, ByName());
    forall i, j | 0 <= i < j < |s| ensures Le(s[i], s[j]) && s[i] != s[j] {
      assert ByName()(s[i], s[j]) && (ByName()(s[j], s[i]) ==> differ(s[i], s[j]));
    }
  }
}
