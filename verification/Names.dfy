/** Strings in code-point order, and the lists that sorting a set of them gives. */
module Names {

  type Name = string

  type ConnId = string

  datatype Option<+T> = None | Some(value: T)

  predicate Distinct<T(==)>(s: seq<T>) {
    forall i, j :: 0 <= i < j < |s| ==> s[i] != s[j]
  }

  function Elems<T>(s: seq<T>): set<T> {
    set x | x in s
  }

  lemma ElemsAppend<T>(s: seq<T>, x: T)
    ensures Elems(s + [x]) == Elems(s) + {x}
    ensures Distinct(s) && x !in Elems(s) ==> Distinct(s + [x])
  {}

  lemma PutBack<T>(s: set<T>, x: T)
    requires x !in s
    ensures s + {x} - {x} == s
  {}

  lemma Overwrite<K, V>(m: map<K, V>, k: K, a: V, b: V)
    ensures m[k := a][k := b] == m[k := b]
  {}

  lemma SubsetSize<T>(a: set<T>, b: set<T>)
    requires a <= b
    ensures |a| <= |b| && (a < b ==> |a| < |b|)
  {
    assert b == a + (b - a);
    if a < b { assert b - a != {}; }
  }

  lemma FewerLeft<T>(known: set<T>, seen: set<T>, x: T)
    requires x in known && x !in seen
    ensures |known - (seen + {x})| < |known - seen|
  {
    assert x in known - seen;
    SubsetSize(known - (seen + {x}), known - seen);
  }

  /** Where an element of a duplicate-free list stands. */
  ghost function Index<T>(s: seq<T>, x: T): (i: nat)
    requires x in s
    ensures i < |s| && s[i] == x
  {
    var i: nat :| i < |s| && s[i] == x;
    i
  }

  /** `remove` on a duplicate-free list. */
  lemma WithoutOne<T>(s: seq<T>, i: nat)
    requires Distinct(s) && i < |s|
    ensures Distinct(s[..i] + s[i + 1..]) && Elems(s[..i] + s[i + 1..]) == Elems(s) - {s[i]}
  {
    var r := s[..i] + s[i + 1..];
    assert forall k | 0 <= k < |r| :: r[k] == s[if k < i then k else k + 1];
    forall x | x in s && x != s[i] ensures x in r {
      var k :| 0 <= k < |s| && s[k] == x;
      assert r[if k < i then k else k - 1] == x;
    }
  }

  lemma DistinctSize<T>(s: seq<T>)
    requires Distinct(s)
    ensures |Elems(s)| == |s|
  {
    if s != [] {
      var front := s[..|s| - 1];
      DistinctSize(front);
      assert s[|s| - 1] !in front && s == front + [s[|s| - 1]];
      assert Elems(s) == Elems(front) + {s[|s| - 1]};
    }
  }

  /** Code-point order on strings, as `sorted` compares them. */
  predicate Le(a: string, b: string) {
    a == "" || (b != "" && (a[0] < b[0] || (a[0] == b[0] && Le(a[1..], b[1..]))))
  }

  /** Either a is the beginning of b, or it has the lesser character where they first differ. */
  lemma {:induction false} LeMeans(a: string, b: string)
    ensures Le(a, b) <==> a <= b || exists i :: DiffersAt(a, b, i) && a[i] < b[i]
  {
    if a != "" && b != "" {
      LeMeans(a[1..], b[1..]);
      assert a == [a[0]] + a[1..] && b == [b[0]] + b[1..];
      if a[0] == b[0] {
        forall i ensures DiffersAt(a[1..], b[1..], i) <==> i >= 0 && DiffersAt(a, b, i + 1) {
          if 0 <= i < |a[1..]| && i < |b[1..]| {
            assert a[..i + 1] == [a[0]] + a[1..][..i] && b[..i + 1] == [b[0]] + b[1..][..i];
            assert a[..i + 1][1..] == a[1..][..i] && b[..i + 1][1..] == b[1..][..i];
          }
        }
        if i :| DiffersAt(a[1..], b[1..], i) && a[1..][i] < b[1..][i] { assert DiffersAt(a, b, i + 1); }
        if i :| DiffersAt(a, b, i) && a[i] < b[i] { assert i > 0 && DiffersAt(a[1..], b[1..], i - 1); }
      } else {
        assert DiffersAt(a, b, 0);
        if i :| DiffersAt(a, b, i) && a[i] < b[i] { FirstDiffers(a, b, i); }
      }
    }
  }

  lemma FirstDiffers(a: string, b: string, i: int)
    requires DiffersAt(a, b, i)
    ensures i == 0 || a[0] == b[0]
  {
    if i > 0 { assert a[0] == a[..i][0] == b[..i][0]; }
  }

  predicate DiffersAt(a: string, b: string, i: int) { 0 <= i < |a| && i < |b| && a[..i] == b[..i] && a[i] != b[i] }

  lemma LeTotal(a: string, b: string)
    ensures Le(a, b) || Le(b, a)
  {}

  lemma LeTransitive(a: string, b: string, c: string)
    requires Le(a, b) && Le(b, c)
    ensures Le(a, c)
  {}

  lemma {:induction false} LeAntisymmetric(a: string, b: string)
    requires Le(a, b) && Le(b, a)
    ensures a == b
  {
    if a != "" && b != "" {
      LeAntisymmetric(a[1..], b[1..]);
      assert a == [a[0]] + a[1..] && b == [b[0]] + b[1..];
    }
  }

  predicate IsLeast(s: set<string>, m: string) {
    m in s && forall x | x in s :: Le(m, x)
  }

  lemma LeastExists(s: set<string>) returns (m: string)
    requires s != {}
    ensures IsLeast(s, m)
  {
    m :| m in s;
    if s != {m} {
      var rest := LeastExists(s - {m});
      LeTotal(m, rest);
      LeTotal(m, m);
      if Le(m, rest) {
        forall x | x in s ensures Le(m, x) { if x != m { LeTransitive(m, rest, x); } }
      } else {
        m := rest;
      }
    } else {
      LeTotal(m, m);
    }
  }

  function Least(s: set<string>): (m: string)
    requires s != {}
    ensures IsLeast(s, m)
  {
    ghost var w := LeastWitness(s);
    assert forall x, y | IsLeast(s, x) && IsLeast(s, y) :: x == y by {
      forall x, y | IsLeast(s, x) && IsLeast(s, y) ensures x == y { LeAntisymmetric(x, y); }
    }
    var m :| m in s && IsLeast(s, m);
    m
  }

  ghost function LeastWitness(s: set<string>): (m: string)
    requires s != {}
    ensures IsLeast(s, m)
  {
    assert exists m :: IsLeast(s, m) by { var m := LeastExists(s); }
    var m :| IsLeast(s, m); m
  }

  predicate Ascending(s: seq<string>) {
    forall i, j :: 0 <= i < j < |s| ==> Le(s[i], s[j])
  }

  /** `sorted(s)` for a set of names. */
  function Sorted(s: set<string>): (r: seq<string>)
    ensures Elems(r) == s && Distinct(r) && Ascending(r)
  {
    if s == {} then [] else
      var m := Least(s);
      var rest := Sorted(s - {m});
      assert Elems([m] + rest) == {m} + Elems(rest);
      [m] + rest
  }
}
