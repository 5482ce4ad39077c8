/** `DependencyManager`: a second formulation of the search, in which the caller of a visit appends the
    visited name, and which leaves the root out of the order. */
module DependencyManagerClass {
  import opened Names
  import opened DependencyGraph
  import opened RuntimeSpec
  import opened SearchState

  function GraphFrom(deps: map<Name, set<Name>>): Graph {
    Graph(map n | n in deps :: Sorted(deps[n]), {})
  }

  /** What a visit has put in the order and marked as visited; the name being visited is marked before the caller
      lists it. */
  datatype Progress = Progress(order: seq<Name>, visited: set<Name>)

  function VisitMarking(g: Graph, root: Name, current: Name, visiting: set<Name>, p: Progress): Result<Progress>
    decreases |g.succ.Keys - visiting|, 0
  {
    if current in visiting then Err(Cycle(current))
    else if current in p.visited then Ok(p)
    else if current !in g.succ then Err(Missing(current))
    else
      FewerLeft(g.succ.Keys, visiting, current);
      match EachAppending(g, root, g.succ[current], visiting + {current}, p)
      case Err(f) => Err(f)
      case Ok(q) => Ok(q.(visited := q.visited + {current}))
  }

  /** Visit each dependency, and list it unless it is the root or already listed. */
  function EachAppending(g: Graph, root: Name, ds: seq<Name>, visiting: set<Name>, p: Progress): Result<Progress>
    decreases |g.succ.Keys - visiting|, |ds|
  {
    if ds == [] then Ok(p)
    else
      match VisitMarking(g, root, ds[0], visiting, p)
      case Err(f) => Err(f)
      case Ok(q) => EachAppending(g, root, ds[1..], visiting, Listed(root, ds[0], q))
  }

  function Listed(root: Name, d: Name, q: Progress): Progress {
    if d != root && d !in q.order then q.(order := q.order + [d]) else q
  }

  /** `get_start_order` */
  function OrderBefore(deps: map<Name, set<Name>>, id: Name): Result<seq<Name>> {
    match VisitMarking(GraphFrom(deps), id, id, {}, Progress([], {}))
    case Err(f) => Err(f)
    case Ok(q) => Ok(q.order)
  }

  // ---- the two formulations agree ----

  /** Between visits the order lists what is visited; after one, everything but the visited name. */
  lemma {:induction false} MarkingAgrees(g: Graph, root: Name, current: Name, visiting: set<Name>, order: seq<Name>)
    requires g.off == {} && DepsFirst(g, order) && visiting !! Elems(order) && (root in visiting || current == root)
    ensures match Visit(g, current, visiting, order)
      case Err(f) => VisitMarking(g, root, current, visiting, Progress(order, Elems(order))) == Err(f)
      case Ok(o) =>
        VisitMarking(g, root, current, visiting, Progress(order, Elems(order)))
          == Ok(Progress(if current in order then order else Front(o), Elems(o)))
    decreases |g.succ.Keys - visiting|, 0
  {
    if current !in visiting && current !in order && current in g.succ {
      FewerLeft(g.succ.Keys, visiting, current);
      AppendingAgrees(g, root, current, g.succ[current], visiting + {current}, order);
      match VisitEach(g, current, g.succ[current], visiting + {current}, order) {
        case Err(_) =>
        case Ok(o) => ElemsAppend(o, current);
      }
    }
  }

  lemma {:induction false} AppendingAgrees(g: Graph, root: Name, current: Name, ds: seq<Name>, visiting: set<Name>, order: seq<Name>)
    requires g.off == {} && DepsFirst(g, order) && visiting !! Elems(order) && root in visiting
    requires current in g.succ && forall d | d in ds :: d in g.succ[current]
    ensures match VisitEach(g, current, ds, visiting, order)
      case Err(f) => EachAppending(g, root, ds, visiting, Progress(order, Elems(order))) == Err(f)
      case Ok(o) => EachAppending(g, root, ds, visiting, Progress(order, Elems(order))) == Ok(Progress(o, Elems(o)))
    decreases |g.succ.Keys - visiting|, |ds|
  {
    hide DepsFirst;
    if ds != [] {
      var d := ds[0];
      MarkingAgrees(g, root, d, visiting, order);
      if Visit(g, d, visiting, order).Ok? {
        var o := Visit(g, d, visiting, order).value;
        VisitSound(g, d, visiting, order);
        VisitedLast(g, root, d, visiting, order);
        AppendingAgrees(g, root, current, ds[1..], visiting, o);
      }
    }
  }

  /** Listing the dependency that was just visited completes the order. */
  lemma VisitedLast(g: Graph, root: Name, d: Name, visiting: set<Name>, order: seq<Name>)
    requires g.off == {} && DepsFirst(g, order) && visiting !! Elems(order) && root in visiting
    requires Visit(g, d, visiting, order).Ok?
    ensures var o := Visit(g, d, visiting, order).value;
      Listed(root, d, Progress(if d in order then order else Front(o), Elems(o))) == Progress(o, Elems(o))
  {
    VisitSound(g, d, visiting, order);
    var o := Visit(g, d, visiting, order).value;
    if d !in order {
      assert o == Front(o) + [d];
      assert forall i | 0 <= i < |Front(o)| :: o[i] != o[|o| - 1];
    }
  }

  /** On the same graph with everything enabled, this order followed by the name is what the runtime's visit from
      the name produces, and one raises exactly when the other does, over the same fault. */
  lemma RuntimeAgrees(v: View, id: Name)
    requires WellFormed(v) && forall n | n in v.enabled :: v.enabled[n]
    ensures GraphOf(v) == GraphFrom(v.deps)
    ensures match Visit(GraphOf(v), id, {}, [])
      case Ok(o) => OrderBefore(v.deps, id).Ok? && o == OrderBefore(v.deps, id).value + [id]
      case Err(f) => OrderBefore(v.deps, id) == Err(f)
  {
    assert GraphOf(v).off == {};
    OrderIsFront(v.deps, id);
  }

  lemma OrderIsFront(deps: map<Name, set<Name>>, id: Name)
    ensures match Visit(GraphFrom(deps), id, {}, [])
      case Ok(o) => OrderBefore(deps, id).Ok? && o == OrderBefore(deps, id).value + [id]
      case Err(f) => OrderBefore(deps, id) == Err(f)
  {
    hide Visit, VisitMarking;
    var g := GraphFrom(deps);
    assert Elems<Name>([]) == {};
    MarkingAgrees(g, id, id, {}, []);
    if Visit(g, id, {}, []).Ok? { ClosureListed(g, id); }
  }

  /** An order that is found lists what the name needs, and not the name. */
  lemma OrderBeforeLists(deps: map<Name, set<Name>>, id: Name)
    ensures OrderBefore(deps, id).Ok? ==>
      var g, order := GraphFrom(deps), OrderBefore(deps, id).value;
      DepsFirst(g, order) && forall x :: x in order <==> Reaches(g, id, x) && x != id
  {
    hide Visit, VisitMarking;
    var g := GraphFrom(deps);
    OrderIsFront(deps, id);
    if Visit(g, id, {}, []).Ok? {
      ClosureListed(g, id);
      LessTheLast(g, OrderBefore(deps, id).value, id);
    }
  }

  /** A dependencies-first list stays one without its last name, which is nowhere else in it. */
  lemma LessTheLast(g: Graph, order: seq<Name>, id: Name)
    requires DepsFirst(g, order + [id])
    ensures DepsFirst(g, order) && forall x :: x in order <==> x in order + [id] && x != id
  {
    var o := order + [id];
    assert forall i | 0 <= i < |order| :: order[i] == o[i] && order[..i] == o[..i];
    forall x | x in order ensures x != id { assert o[Index(order, x)] == x && o[|order|] == id; }
  }

  class DependencyManager {
    var ids: seq<Name>
    var dependencies: map<Name, set<Name>>

    ghost predicate Valid()
      reads this
    {
      Distinct(ids) && Elems(ids) == dependencies.Keys
    }

    constructor ()
      ensures Valid() && dependencies == map[]
    {
      ids, dependencies := [], map[];
      new;
      assert Elems(ids) == dependencies.Keys;
    }

    method Register(id: Name, needs: set<Name>)
      requires Valid()
      modifies this
      ensures Valid()
      ensures dependencies == old(dependencies)[id := (if id in old(dependencies) then old(dependencies)[id] else {}) + needs]
    {
      assert id in ids <==> id in Elems(ids);
      if id !in dependencies {
        assert Elems(ids + [id]) == Elems(ids) + {id};
        ids := ids + [id];
        Overwrite(dependencies, id, {}, {} + needs);
        dependencies := dependencies[id := {}];
      }
      dependencies := dependencies[id := dependencies[id] + needs];
    }

    method Unregister(id: Name) returns (raised: bool)
      requires Valid()
      modifies this
      ensures Valid()
      ensures raised <==> id !in old(dependencies)
      ensures dependencies == if raised then old(dependencies) else
        map n | n in old(dependencies) && n != id :: old(dependencies)[n] - {id}
    {
      if id !in dependencies { return true; }
      assert id in Elems(ids);
      var i :| 0 <= i < |ids| && ids[i] == id;
      WithoutOne(ids, i);
      ids := ids[..i] + ids[i + 1..];
      dependencies := map n | n in dependencies && n != id :: dependencies[n] - {id};
      return false;
    }

    method SetDependencies(id: Name, needs: set<Name>) returns (raised: bool)
      requires Valid()
      modifies this
      ensures Valid()
      ensures raised <==> id !in old(dependencies)
      ensures dependencies == if raised then old(dependencies) else old(dependencies)[id := needs]
    {
      if id !in dependencies { return true; }
      dependencies := dependencies[id := needs];
      return false;
    }

    /** The nested `visit`. */
    method Visit(s: Search, root: Name, current: Name) returns (raised: Option<Fault>)
      modifies s
      ensures match VisitMarking(GraphFrom(dependencies), root, current, old(s.visiting), Progress(old(s.order), old(s.visited)))
        case Err(f) => raised == Some(f)
        case Ok(q) => raised == None && s.visiting == old(s.visiting) && s.order == q.order && s.visited == q.visited
      decreases |dependencies.Keys - s.visiting|, 0
    {
      hide EachAppending;
      if current in s.visiting { return Some(Cycle(current)); }
      if current in s.visited { return None; }
      if current !in dependencies { return Some(Missing(current)); }
      FewerLeft(dependencies.Keys, s.visiting, current);
      s.visiting := s.visiting + {current};
      raised := VisitDependencies(s, root, current);
      if raised.Some? { return; }
      PutBack(old(s.visiting), current);
      s.visiting := s.visiting - {current};
      s.visited := s.visited + {current};
    }

    /** The loop of `visit` over the sorted dependencies of a name. */
    method VisitDependencies(s: Search, root: Name, current: Name) returns (raised: Option<Fault>)
      requires current in dependencies
      modifies s
      ensures match EachAppending(GraphFrom(dependencies), root, Sorted(dependencies[current]), old(s.visiting),
                                  Progress(old(s.order), old(s.visited)))
        case Err(f) => raised == Some(f)
        case Ok(q) => raised == None && s.visiting == old(s.visiting) && s.order == q.order && s.visited == q.visited
      decreases |dependencies.Keys - s.visiting|, 1
    {
      hide VisitMarking;
      ghost var g := GraphFrom(dependencies);
      ghost var visiting0 := s.visiting;
      var todo := Sorted(dependencies[current]);
      ghost var whole := EachAppending(g, root, todo, visiting0, Progress(s.order, s.visited));
      for i := 0 to |todo|
        invariant s.visiting == visiting0
        invariant EachAppending(g, root, todo[i..], visiting0, Progress(s.order, s.visited)) == whole
      {
        assert todo[i..][1..] == todo[i + 1..];
        var dependency := todo[i];
        raised := Visit(s, root, dependency);
        if raised.Some? { return; }
        if dependency != root && dependency !in s.order {
          s.order := s.order + [dependency];
        }
      }
      return None;
    }

    /** Everything `id` needs, dependencies first, `id` left out. */
    method GetStartOrder(id: Name) returns (r: Result<seq<Name>>)
      requires Valid()
      ensures r == OrderBefore(dependencies, id)
      ensures var g := GraphFrom(dependencies);
        match r
        case Ok(order) => DepsFirst(g, order) && forall x :: x in order <==> Reaches(g, id, x) && x != id
        case Err(f) => Blames(g, id, f)
    {
      hide DependencyGraph.Visit, Blames, DepsFirst, Reaches, EachAppending;
      OrderIsFront(dependencies, id);
      OrderBeforeLists(dependencies, id);
      ClosureDecided(GraphFrom(dependencies), id);
      if id !in dependencies { return Err(Missing(id)); }
      var s := new Search();
      var raised := Visit(s, id, id);
      if raised.Some? { return Err(raised.value); }
      return Ok(s.order);
    }

    /** Raises exactly when some registered name leads to a cycle or to an unregistered name. */
    method Validate() returns (raised: Option<Fault>)
      requires Valid()
      ensures raised == None <==> exists o :: IsStartOrder(GraphFrom(dependencies), o)
      ensures raised.Some? ==> exists id :: id in dependencies && Blames(GraphFrom(dependencies), id, raised.value)
    {
      hide IsStartOrder, Blames, DependencyGraph.Visit, DependencyGraph.VisitRoots;
      ghost var g := GraphFrom(dependencies);
      SearchDecides(g, ids);
      for i := 0 to |ids|
        invariant forall j, f | 0 <= j < i :: !Blames(g, ids[j], f)
      {
        assert ids[i] in Elems(ids);
        var r := GetStartOrder(ids[i]);
        OrderIsFront(dependencies, ids[i]);
        ClosureDecided(g, ids[i]);
        if r.Err? { return Some(r.fault); }
      }
      assert forall id | id in dependencies :: id in Elems(ids);
      return None;
    }
  }
}
