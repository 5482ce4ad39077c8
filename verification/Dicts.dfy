/** Insertion-ordered dictionaries, and filtering the lists they give. */
module Dicts {
  import opened Names

  /** `[x for x in xs if p(x)]` */
  function Where<T>(xs: seq<T>, p: T -> bool): seq<T> {
    if xs == [] then []
    else (if p(xs[0]) then [xs[0]] else []) + Where(xs[1..], p)
  }

  lemma WhereCons<T>(x: T, xs: seq<T>, p: T -> bool)
    ensures Where([x] + xs, p) == if p(x) then [x] + Where(xs, p) else Where(xs, p)
  {
    assert ([x] + xs)[0] == x && ([x] + xs)[1..] == xs;
  }

  lemma {:induction false} WhereMembers<T>(xs: seq<T>, p: T -> bool)
    ensures forall x :: x in Where(xs, p) <==> x in xs && p(x)
  {
    if xs != [] {
      WhereMembers(xs[1..], p);
      assert xs == [xs[0]] + xs[1..];
    }
  }

  lemma {:induction false} WhereDistinct<T>(xs: seq<T>, p: T -> bool)
    requires Distinct(xs)
    ensures Distinct(Where(xs, p))
  {
    if xs != [] {
      WhereDistinct(xs[1..], p);
      WhereMembers(xs[1..], p);
      assert xs[0] !in xs[1..];
    }
  }

  lemma {:induction false} WhereSame<T>(xs: seq<T>, p: T -> bool, q: T -> bool)
    requires forall x | x in xs :: p(x) == q(x)
    ensures Where(xs, p) == Where(xs, q)
  {
    if xs != [] { WhereSame(xs[1..], p, q); }
  }

  lemma {:induction false} WhereTwice<T>(xs: seq<T>, p: T -> bool, q: T -> bool, both: T -> bool)
    requires forall x | x in xs :: both(x) == (p(x) && q(x))
    ensures Where(Where(xs, p), q) == Where(xs, both)
  {
    if xs != [] {
      WhereTwice(xs[1..], p, q, both);
      var rest := Where(xs[1..], p);
      if p(xs[0]) {
        var kept := [xs[0]] + rest;
        assert Where(xs, p) == kept && kept[0] == xs[0] && kept[1..] == rest;
      } else {
        assert Where(xs, p) == rest;
      }
    }
  }

  lemma {:induction false} WhereAppend<T>(xs: seq<T>, ys: seq<T>, p: T -> bool)
    ensures Where(xs + ys, p) == Where(xs, p) + Where(ys, p)
  {
    if xs == [] {
      assert xs + ys == ys;
    } else {
      WhereAppend(xs[1..], ys, p);
      assert (xs + ys)[0] == xs[0] && (xs + ys)[1..] == xs[1..] + ys;
    }
  }

  lemma {:induction false} WhereAll<T>(xs: seq<T>, p: T -> bool)
    requires forall x | x in xs :: p(x)
    ensures Where(xs, p) == xs
  {
    if xs != [] { WhereAll(xs[1..], p); }
  }

  lemma {:induction false} WhereNone<T>(xs: seq<T>, p: T -> bool)
    requires forall x | x in xs :: !p(x)
    ensures Where(xs, p) == []
  {
    if xs != [] { WhereNone(xs[1..], p); }
  }

  datatype Dict<V> = Dict(keys: seq<string>, items: map<string, V>) {
    ghost predicate Valid() {
      Distinct(keys) && forall k :: k in keys <==> k in items
    }

    function Put(k: string, v: V): Dict<V> {
      Dict(if k in items then keys else keys + [k], items[k := v])
    }

    /** `del` of every key in ks. */
    function Without(ks: set<string>): Dict<V> {
      Dict(Where(keys, k => k !in ks), items - ks)
    }

    function Values(): seq<V>
      requires forall k | k in keys :: k in items
    {
      seq(|keys|, i requires 0 <= i < |keys| => items[keys[i]])
    }

    lemma WithoutTwice(ks: set<string>, more: set<string>)
      ensures Without(ks).Without(more) == Without(ks + more)
    {
      WhereTwice(keys, k => k !in ks, k => k !in more, k => k !in ks + more);
    }

    lemma PutValid(k: string, v: V)
      requires Valid()
      ensures Put(k, v).Valid()
    {}

    lemma WithoutValid(ks: set<string>)
      requires Valid()
      ensures Without(ks).Valid()
    {
      WhereMembers(keys, k => k !in ks);
      WhereDistinct(keys, k => k !in ks);
    }
  }
}
