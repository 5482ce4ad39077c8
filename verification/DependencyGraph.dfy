/** Dependency graphs, what a start order for one is, and the depth-first search
    that `Runtime.get_start_order` and the other resolvers run. */
module DependencyGraph {
  import opened Names
  import opened Dicts

  /** `succ[n]` lists the dependencies of n in the order they are visited; `off` holds the disabled names. */
  datatype Graph = Graph(succ: map<Name, seq<Name>>, off: set<Name>)

  datatype Fault =
    | Cycle(at: Name)
    | Missing(name: Name)
    | DependsOnDisabled(name: Name, dependency: Name)

  datatype Result<+T> = Ok(value: T) | Err(fault: Fault)

  // ---- what the search is for ----

  ghost predicate IsPath(g: Graph, p: seq<Name>) {
    p != [] && forall i :: 0 <= i < |p| - 1 ==> p[i] in g.succ && p[i + 1] in g.succ[p[i]]
  }

  ghost predicate PathFrom(g: Graph, p: seq<Name>, a: Name, b: Name) {
    IsPath(g, p) && p[0] == a && p[|p| - 1] == b
  }

  ghost predicate Reaches(g: Graph, a: Name, b: Name) {
    exists p :: PathFrom(g, p, a, b)
  }

  ghost predicate OnCycle(g: Graph, n: Name) {
    exists p :: PathFrom(g, p, n, n) && |p| >= 2
  }

  /** Every listed name is registered, enabled, listed once and preceded by all its dependencies. */
  ghost predicate DepsFirst(g: Graph, o: seq<Name>) {
    && Distinct(o)
    && (forall i :: 0 <= i < |o| ==> o[i] in g.succ && o[i] !in g.off)
    && (forall i, d :: 0 <= i < |o| && d in g.succ[o[i]] ==> d in o[..i])
  }

  /** Moreover exactly the enabled names are listed. */
  ghost predicate IsStartOrder(g: Graph, o: seq<Name>) {
    DepsFirst(g, o) && Elems(o) == g.succ.Keys - g.off
  }

  /** The fault f really is there, and `from` leads to it. */
  ghost predicate Blames(g: Graph, from: Name, f: Fault) {
    match f
    case Cycle(n) => Reaches(g, from, n) && OnCycle(g, n)
    case Missing(n) => Reaches(g, from, n) && n !in g.succ
    case DependsOnDisabled(n, d) => Reaches(g, from, n) && n in g.succ && d in g.succ[n] && d in g.off
  }

  // ---- the search, as a function of the names being visited and the order so far ----

  function Visit(g: Graph, name: Name, visiting: set<Name>, order: seq<Name>): Result<seq<Name>>
    decreases |g.succ.Keys - visiting|, 0
  {
    if name in visiting then Err(Cycle(name))
    else if name in order then Ok(order)
    else if name !in g.succ then Err(Missing(name))
    else
      FewerLeft(g.succ.Keys, visiting, name);
      match VisitEach(g, name, g.succ[name], visiting + {name}, order)
      case Err(f) => Err(f)
      case Ok(o) => Ok(o + [name])
  }

  function VisitEach(g: Graph, name: Name, ds: seq<Name>, visiting: set<Name>, order: seq<Name>): Result<seq<Name>>
    decreases |g.succ.Keys - visiting|, |ds|
  {
    if ds == [] then Ok(order)
    else if ds[0] in g.off then Err(DependsOnDisabled(name, ds[0]))
    else
      match Visit(g, ds[0], visiting, order)
      case Err(f) => Err(f)
      case Ok(o) => VisitEach(g, name, ds[1..], visiting, o)
  }

  function VisitRoots(g: Graph, roots: seq<Name>, order: seq<Name>): Result<seq<Name>> {
    if roots == [] then Ok(order)
    else if roots[0] in g.off then VisitRoots(g, roots[1..], order)
    else
      match Visit(g, roots[0], {}, order)
      case Err(f) => Err(f)
      case Ok(o) => VisitRoots(g, roots[1..], o)
  }

  // ---- paths ----

  lemma StepPath(g: Graph, a: Name, b: Name)
    requires a in g.succ && b in g.succ[a]
    ensures Reaches(g, a, b)
  {
    assert PathFrom(g, [a, b], a, b);
  }

  lemma TrivialPath(g: Graph, a: Name)
    ensures Reaches(g, a, a)
  {
    assert PathFrom(g, [a], a, a);
  }

  lemma JoinPaths(g: Graph, a: Name, b: Name, c: Name)
    requires Reaches(g, a, b) && Reaches(g, b, c)
    ensures Reaches(g, a, c)
  {
    var p :| PathFrom(g, p, a, b);
    var q :| PathFrom(g, q, b, c);
    var r := p + q[1..];
    forall i | 0 <= i < |r| - 1 ensures r[i] in g.succ && r[i + 1] in g.succ[r[i]] {
      if i >= |p| - 1 {
        assert r[i] == q[i - (|p| - 1)] && r[i + 1] == q[i + 1 - (|p| - 1)];
      }
    }
    assert PathFrom(g, r, a, c);
  }

  /** In a list with dependencies first, a path never leaves the list and only goes backwards in it. */
  lemma {:induction false} PathDescends(g: Graph, o: seq<Name>, p: seq<Name>)
    requires DepsFirst(g, o) && IsPath(g, p) && p[0] in o
    ensures p[|p| - 1] in o
    ensures Index(o, p[|p| - 1]) + |p| - 1 <= Index(o, p[0])
  {
    if |p| > 1 {
      var i := Index(o, p[0]);
      assert p[1] in o[..i];
      assert IsPath(g, p[1..]) by {
        forall k | 0 <= k < |p[1..]| - 1 ensures p[1..][k] in g.succ && p[1..][k + 1] in g.succ[p[1..][k]] {
          assert p[1..][k] == p[k + 1] && p[1..][k + 1] == p[k + 2];
        }
      }
      PathDescends(g, o, p[1..]);
    }
  }

  lemma ReachStays(g: Graph, o: seq<Name>, a: Name, b: Name)
    requires DepsFirst(g, o) && a in o && Reaches(g, a, b)
    ensures b in o && Index(o, b) <= Index(o, a)
  {
    var p :| PathFrom(g, p, a, b);
    PathDescends(g, o, p);
  }

  // ---- soundness ----

  /** A successful visit extends the order, keeps it a dependencies-first list, and adds only what the name needs. */
  lemma {:induction false} VisitSound(g: Graph, name: Name, visiting: set<Name>, order: seq<Name>)
    requires DepsFirst(g, order) && name !in g.off && visiting !! Elems(order)
    requires Visit(g, name, visiting, order).Ok?
    ensures var o := Visit(g, name, visiting, order).value;
      && DepsFirst(g, o) && order <= o && name in o && visiting !! Elems(o)
      && (forall x :: x in o && x !in order ==> Reaches(g, name, x))
    decreases |g.succ.Keys - visiting|, 0
  {
    if name !in order {
      FewerLeft(g.succ.Keys, visiting, name);
      VisitEachSound(g, name, g.succ[name], visiting + {name}, order);
      var o := VisitEach(g, name, g.succ[name], visiting + {name}, order).value;
      assert name !in o;
      TrivialPath(g, name);
      assert forall d | d in g.succ[name] :: d in (o + [name])[..|o|];
      forall i, d | 0 <= i < |o + [name]| && d in g.succ[(o + [name])[i]] ensures d in (o + [name])[..i] {
        if i < |o| { assert (o + [name])[..i] == o[..i]; }
      }
    }
  }

  lemma {:induction false} VisitEachSound(g: Graph, name: Name, ds: seq<Name>, visiting: set<Name>, order: seq<Name>)
    requires DepsFirst(g, order) && visiting !! Elems(order)
    requires name in g.succ && forall d | d in ds :: d in g.succ[name]
    requires VisitEach(g, name, ds, visiting, order).Ok?
    ensures var o := VisitEach(g, name, ds, visiting, order).value;
      && DepsFirst(g, o) && order <= o && visiting !! Elems(o)
      && (forall d :: d in ds ==> d in o)
      && (forall x :: x in o && x !in order ==> Reaches(g, name, x))
    decreases |g.succ.Keys - visiting|, |ds|
  {
    if ds != [] {
      VisitSound(g, ds[0], visiting, order);
      var o1 := Visit(g, ds[0], visiting, order).value;
      VisitEachSound(g, name, ds[1..], visiting, o1);
      var o := VisitEach(g, name, ds[1..], visiting, o1).value;
      forall x | x in o && x !in order ensures Reaches(g, name, x) {
        if x in o1 {
          StepPath(g, name, ds[0]);
          JoinPaths(g, name, ds[0], x);
        }
      }
      assert forall d | d in ds :: d == ds[0] || d in ds[1..];
    }
  }

  // ---- completeness ----

  /** If some dependencies-first list holds the name, and everything being visited comes after it, the visit succeeds. */
  lemma {:induction false} VisitComplete(g: Graph, w: seq<Name>, name: Name, visiting: set<Name>, order: seq<Name>)
    requires DepsFirst(g, w) && name in w
    requires forall v | v in visiting && v in w :: Index(w, name) < Index(w, v)
    ensures Visit(g, name, visiting, order).Ok?
    decreases |g.succ.Keys - visiting|, 0
  {
    if name !in order {
      FewerLeft(g.succ.Keys, visiting, name);
      VisitEachComplete(g, w, name, g.succ[name], visiting + {name}, order);
    }
  }

  lemma {:induction false} VisitEachComplete(g: Graph, w: seq<Name>, name: Name, ds: seq<Name>, visiting: set<Name>, order: seq<Name>)
    requires DepsFirst(g, w) && name in w && forall d | d in ds :: d in g.succ[name]
    requires forall v | v in visiting && v in w :: Index(w, name) <= Index(w, v)
    ensures VisitEach(g, name, ds, visiting, order).Ok?
    decreases |g.succ.Keys - visiting|, |ds|
  {
    if ds != [] {
      assert ds[0] in w[..Index(w, name)];
      VisitComplete(g, w, ds[0], visiting, order);
      VisitEachComplete(g, w, name, ds[1..], visiting, Visit(g, ds[0], visiting, order).value);
    }
  }

  // ---- what a fault means ----

  lemma ChainCloses(g: Graph, stack: seq<Name>, name: Name)
    requires IsPath(g, stack + [name]) && name in stack
    ensures OnCycle(g, name)
  {
    var chain := stack + [name];
    var i := Index(stack, name);
    var p := chain[i..];
    forall k | 0 <= k < |p| - 1 ensures p[k] in g.succ && p[k + 1] in g.succ[p[k]] {
      assert p[k] == chain[i + k] && p[k + 1] == chain[i + k + 1];
    }
    assert PathFrom(g, p, name, name) && |p| >= 2;
  }

  lemma LoopBlamed(g: Graph, stack: seq<Name>, name: Name)
    requires IsPath(g, stack + [name]) && name in stack
    ensures Blames(g, name, Cycle(name))
  {
    TrivialPath(g, name);
    ChainCloses(g, stack, name);
  }

  lemma UnknownBlamed(g: Graph, name: Name)
    requires name !in g.succ
    ensures Blames(g, name, Missing(name))
  {
    TrivialPath(g, name);
  }

  lemma PathGrows(g: Graph, stack: seq<Name>, d: Name)
    requires IsPath(g, stack) && stack[|stack| - 1] in g.succ && d in g.succ[stack[|stack| - 1]]
    ensures IsPath(g, stack + [d])
  {}

  /** What a dependency leads to, the name leads to. */
  lemma BlamesThrough(g: Graph, name: Name, d: Name, f: Fault)
    requires name in g.succ && d in g.succ[name] && Blames(g, d, f)
    ensures Blames(g, name, f)
  {
    StepPath(g, name, d);
    match f {
      case Cycle(n) => JoinPaths(g, name, d, n);
      case Missing(n) => JoinPaths(g, name, d, n);
      case DependsOnDisabled(n, _) => JoinPaths(g, name, d, n);
    }
  }

  /** A failed visit names a real fault that the visited name leads to; `stack` is the chain of names being visited. */
  lemma {:induction false} VisitBlames(g: Graph, stack: seq<Name>, name: Name, order: seq<Name>)
    requires IsPath(g, stack + [name])
    requires Visit(g, name, Elems(stack), order).Err?
    ensures Blames(g, name, Visit(g, name, Elems(stack), order).fault)
    decreases |g.succ.Keys - Elems(stack)|, 0
  {
    TrivialPath(g, name);
    if name in stack {
      ChainCloses(g, stack, name);
    } else if name in g.succ {
      FewerLeft(g.succ.Keys, Elems(stack), name);
      assert Elems(stack + [name]) == Elems(stack) + {name};
      VisitEachBlames(g, stack + [name], name, g.succ[name], order);
    }
  }

  lemma {:induction false} VisitEachBlames(g: Graph, stack: seq<Name>, name: Name, ds: seq<Name>, order: seq<Name>)
    requires stack != [] && stack[|stack| - 1] == name && IsPath(g, stack)
    requires name in g.succ && forall d | d in ds :: d in g.succ[name]
    requires VisitEach(g, name, ds, Elems(stack), order).Err?
    ensures Blames(g, name, VisitEach(g, name, ds, Elems(stack), order).fault)
    decreases |g.succ.Keys - Elems(stack)|, |ds|
  {
    TrivialPath(g, name);
    if ds[0] !in g.off {
      var r := Visit(g, ds[0], Elems(stack), order);
      if r.Err? {
        VisitBlames(g, stack, ds[0], order);
        BlamesThrough(g, name, ds[0], r.fault);
      } else {
        VisitEachBlames(g, stack, name, ds[1..], r.value);
      }
    }
  }

  /** A real fault rules out every dependencies-first list that holds a name leading to it. */
  lemma FaultRefutes(g: Graph, o: seq<Name>, from: Name, f: Fault)
    requires Blames(g, from, f)
    ensures !(DepsFirst(g, o) && from in o)
  {
    if DepsFirst(g, o) && from in o {
      match f {
        case Cycle(n) =>
          ReachStays(g, o, from, n);
          var p :| PathFrom(g, p, n, n) && |p| >= 2;
          PathDescends(g, o, p);
        case Missing(n) => ReachStays(g, o, from, n);
        case DependsOnDisabled(n, d) =>
          ReachStays(g, o, from, n);
      }
    }
  }

  // ---- the search over all roots ----

  lemma {:induction false} RootsSound(g: Graph, roots: seq<Name>, order: seq<Name>)
    requires DepsFirst(g, order) && VisitRoots(g, roots, order).Ok?
    ensures var o := VisitRoots(g, roots, order).value;
      DepsFirst(g, o) && order <= o && forall r :: r in roots && r !in g.off ==> r in o
  {
    if roots != [] {
      if roots[0] in g.off {
        RootsSound(g, roots[1..], order);
      } else {
        VisitSound(g, roots[0], {}, order);
        RootsSound(g, roots[1..], Visit(g, roots[0], {}, order).value);
      }
      assert forall r | r in roots :: r == roots[0] || r in roots[1..];
    }
  }

  lemma {:induction false} RootsComplete(g: Graph, w: seq<Name>, roots: seq<Name>, order: seq<Name>)
    requires DepsFirst(g, w) && forall r | r in roots && r !in g.off :: r in w
    ensures VisitRoots(g, roots, order).Ok?
  {
    if roots != [] {
      if roots[0] in g.off {
        RootsComplete(g, w, roots[1..], order);
      } else {
        VisitComplete(g, w, roots[0], {}, order);
        RootsComplete(g, w, roots[1..], Visit(g, roots[0], {}, order).value);
      }
    }
  }

  lemma {:induction false} RootsBlame(g: Graph, roots: seq<Name>, order: seq<Name>) returns (culprit: Name)
    requires VisitRoots(g, roots, order).Err?
    ensures culprit in roots && culprit !in g.off && Blames(g, culprit, VisitRoots(g, roots, order).fault)
  {
    if roots[0] in g.off {
      culprit := RootsBlame(g, roots[1..], order);
    } else {
      var r := Visit(g, roots[0], {}, order);
      if r.Err? {
        culprit := roots[0];
        assert [] + [culprit] == [culprit] && Elems<Name>([]) == {};
        VisitBlames(g, [], culprit, order);
      } else {
        culprit := RootsBlame(g, roots[1..], r.value);
      }
    }
  }

  /** Visiting every registered name gives a start order when there is one, and otherwise a
      fault some enabled name leads to. */
  lemma SearchDecides(g: Graph, roots: seq<Name>)
    requires Elems(roots) == g.succ.Keys
    ensures var r := VisitRoots(g, roots, []);
      && (r.Ok? <==> exists o :: IsStartOrder(g, o))
      && (r.Ok? <==> !exists c, f :: c in g.succ && c !in g.off && Blames(g, c, f))
      && (r.Ok? ==> IsStartOrder(g, r.value))
      && (r.Err? ==> exists c :: c in g.succ && c !in g.off && Blames(g, c, r.fault))
  {
    var r := VisitRoots(g, roots, []);
    assert forall c | c in g.succ :: c in Elems(roots);
    if r.Ok? {
      RootsSound(g, roots, []);
      assert IsStartOrder(g, r.value);
      forall c, f | c in g.succ && c !in g.off && Blames(g, c, f) ensures false {
        FaultRefutes(g, r.value, c, f);
      }
    } else {
      var c := RootsBlame(g, roots, []);
      assert c in g.succ && c !in g.off && Blames(g, c, r.fault);
      forall o | IsStartOrder(g, o) ensures false {
        forall x | x in roots && x !in g.off ensures x in o {
          assert x in Elems(roots) && x in Elems(o);
        }
        RootsComplete(g, o, roots, []);
      }
    }
  }

  /** A search from one name lists exactly what the name needs, itself last. */
  lemma ClosureListed(g: Graph, name: Name)
    requires name !in g.off && Visit(g, name, {}, []).Ok?
    ensures var o := Visit(g, name, {}, []).value;
      && DepsFirst(g, o) && o != [] && o[|o| - 1] == name
      && (forall x :: x in o <==> Reaches(g, name, x))
  {
    VisitSound(g, name, {}, []);
    var o := Visit(g, name, {}, []).value;
    forall x | Reaches(g, name, x) ensures x in o { ReachStays(g, o, name, x); }
  }

  /** It fails exactly when the name leads to a fault. */
  lemma ClosureDecided(g: Graph, name: Name)
    requires name !in g.off
    ensures Visit(g, name, {}, []).Err? <==> exists f :: Blames(g, name, f)
    ensures Visit(g, name, {}, []).Err? ==> Blames(g, name, Visit(g, name, {}, []).fault)
  {
    var r := Visit(g, name, {}, []);
    if r.Err? {
      assert [] + [name] == [name] && Elems<Name>([]) == {};
      VisitBlames(g, [], name, []);
    } else {
      VisitSound(g, name, {}, []);
      forall f | Blames(g, name, f) ensures false { FaultRefutes(g, r.value, name, f); }
    }
  }

  // ---- which order it is ----

  lemma {:induction false} NothingToVisit(g: Graph, name: Name, ds: seq<Name>, visiting: set<Name>, order: seq<Name>)
    requires forall d | d in ds :: d in order && d !in g.off && d !in visiting
    ensures VisitEach(g, name, ds, visiting, order) == Ok(order)
    decreases |ds|
  {
    if ds != [] {
      assert Visit(g, ds[0], visiting, order) == Ok(order);
      NothingToVisit(g, name, ds[1..], visiting, order);
    }
  }

  function Enabled(g: Graph): Name -> bool { (n: Name) => n !in g.off }

  /** An order of registration that has every dependency first is kept as it is, less the disabled names. */
  lemma {:induction false} RegistrationOrderKept(g: Graph, roots: seq<Name>, order: seq<Name>)
    requires DepsFirst(g, order + Where(roots, Enabled(g)))
    ensures VisitRoots(g, roots, order) == Ok(order + Where(roots, Enabled(g)))
    decreases |roots|
  {
    var on := Enabled(g);
    var whole := order + Where(roots, on);
    if roots == [] {
      assert whole == order;
    } else if roots[0] in g.off {
      assert Where(roots, on) == Where(roots[1..], on);
      RegistrationOrderKept(g, roots[1..], order);
    } else {
      var n, k := roots[0], |order|;
      assert whole == order + [n] + Where(roots[1..], on);
      assert whole[k] == n && whole[..k] == order;
      forall d | d in g.succ[n] ensures d in order && d !in g.off && d != n {
        assert d in whole[..k];
        var i := Index(order, d);
        assert whole[i] == d;
      }
      NothingToVisit(g, n, g.succ[n], {n}, order);
      forall x | x in order ensures x != n { assert whole[Index(order, x)] == x; }
      assert Visit(g, n, {}, order) == Ok(order + [n]) by { assert {} + {n} == {n}; }
      RegistrationOrderKept(g, roots[1..], order + [n]);
    }
  }
}
