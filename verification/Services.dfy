/** `ServiceManager`: service objects whose status the manager changes by recursive start and stop. */
module Services {
  import opened Names
  import opened DependencyGraph
  import opened SearchState
  import opened ServiceSpec
  import opened Dicts
  import Sorting

  datatype ServiceError =
    | NotFound(id: Name)
    | MissingDependency(id: Name)
    | Circular(id: Name)

  /** What an error says is wrong with the dependencies. */
  function FaultOf(e: ServiceError): Fault {
    match e
    case NotFound(id) => Missing(id)
    case MissingDependency(id) => Missing(id)
    case Circular(id) => Cycle(id)
  }

  class Service {
    const serviceId: Name
    const dependencies: seq<Name>
    const startupPriority: int
    var status: Status

    constructor (serviceId: Name, dependencies: seq<Name>, startupPriority: int)
      ensures this.serviceId == serviceId && this.dependencies == dependencies
      ensures this.startupPriority == startupPriority && status == Registered
    {
      this.serviceId, this.dependencies, this.startupPriority := serviceId, dependencies, startupPriority;
      status := Registered;
    }
  }

  function PriorityOf(priority: map<Name, int>, id: Name): int {
    if id in priority then priority[id] else 0
  }

  /** A dependency list in visiting order: by startup priority, ties as listed. */
  function ByPriority(ds: seq<Name>, priority: map<Name, int>): (r: seq<Name>)
    ensures forall d :: d in r <==> d in ds
  {
    var le := (a, b) => PriorityOf(priority, a) <= PriorityOf(priority, b);
    Sorting.SortMembers(ds, le);
    Sorting.StableSort(ds, le)
  }

  /** A lesser priority number comes first; equal ones keep the order they are listed in. */
  lemma PriorityOrder(ds: seq<Name>, priority: map<Name, int>, k: int)
    ensures var r := ByPriority(ds, priority);
      && |r| == |ds|
      && (forall i, j | 0 <= i < j < |r| && r[i] in priority && r[j] in priority :: priority[r[i]] <= priority[r[j]])
      && Where(r, HasPriority(priority, k)) == Where(ds, HasPriority(priority, k))
  {
    var le := (a, b) => PriorityOf(priority, a) <= PriorityOf(priority, b);
    Sorting.SortOrdered(ds, le, (a, b) => true);
    Sorting.SortPermutes(ds, le);
    Sorting.SortKeepsTies(ds, le, HasPriority(priority, k));
    assert |multiset(ds)| == |ds|;
    assert Sorting.Pairwise(Sorting.StableSort(ds, le), le);
  }

  function HasPriority(priority: map<Name, int>, k: int): Name -> bool {
    (id: Name) => id in priority && priority[id] == k
  }

  function SortedGraph(deps: map<Name, seq<Name>>, priority: map<Name, int>): Graph {
    Graph(map id | id in deps :: ByPriority(deps[id], priority), {})
  }

  /** Visiting order changes neither what a service needs nor which faults it leads to. */
  lemma OrderIrrelevant(f: Fleet, priority: map<Name, int>, a: Name)
    ensures forall b :: Reaches(SortedGraph(f.deps, priority), a, b) <==> Reaches(G(f), a, b)
    ensures forall x :: Blames(SortedGraph(f.deps, priority), a, x) <==> Blames(G(f), a, x)
    ensures (exists x :: Blames(SortedGraph(f.deps, priority), a, x)) <==> exists x :: Blames(G(f), a, x)
  {
    var g, g1 := G(f), SortedGraph(f.deps, priority);
    assert forall p :: IsPath(g, p) <==> IsPath(g1, p);
    forall b ensures Reaches(g1, a, b) <==> Reaches(g, a, b) {
      if Reaches(g, a, b) { var p :| PathFrom(g, p, a, b); assert PathFrom(g1, p, a, b); }
      if Reaches(g1, a, b) { var p :| PathFrom(g1, p, a, b); assert PathFrom(g, p, a, b); }
    }
    forall n ensures OnCycle(g, n) <==> OnCycle(g1, n) {
      if OnCycle(g, n) { var p :| PathFrom(g, p, n, n) && |p| >= 2; assert PathFrom(g1, p, n, n); }
      if OnCycle(g1, n) { var p :| PathFrom(g1, p, n, n) && |p| >= 2; assert PathFrom(g, p, n, n); }
    }
    assert forall x :: Blames(g, a, x) <==> Blames(g1, a, x);
  }

  ghost function Rank(g: Graph, id: Name): nat {
    match Visit(g, id, {}, []) case Ok(o) => |o| case Err(_) => 0
  }

  /** Each service in the order of another needs strictly fewer services than that other. */
  lemma RankDrops(g: Graph, id: Name, d: Name)
    requires g.off == {} && Visit(g, id, {}, []).Ok? && d in Visit(g, id, {}, []).value && d != id
    ensures Visit(g, d, {}, []).Ok? && Rank(g, d) < Rank(g, id)
  {
    ClosureListed(g, id);
    var o := Visit(g, id, {}, []).value;
    VisitComplete(g, o, d, {}, []);
    ClosureListed(g, d);
    var od := Visit(g, d, {}, []).value;
    assert Index(o, id) == |o| - 1 && o[Index(o, d)] == d;
    forall x | x in od ensures x in o && x != id {
      ReachStays(g, o, d, x);
    }
    DistinctSize(o);
    DistinctSize(od);
    assert Elems(od) <= Elems(o) - {id} && id in Elems(o);
    SubsetSize(Elems(od), Elems(o) - {id});
  }

  /** Once the first i services of an order run, so does all that each of them needs. */
  lemma PrefixClosed(g: Graph, o: seq<Name>, i: nat, x: Name)
    requires g.off == {} && DepsFirst(g, o) && i < |o| && Reaches(g, o[i], x)
    ensures x in o[..i + 1]
  {
    ReachStays(g, o, o[i], x);
    assert o[Index(o, o[i])] == o[i];
    assert Index(o, x) <= i;
  }

  /** Statuses once the listed services run. */
  function Lit(status: map<Name, Status>, up: seq<Name>): map<Name, Status> {
    map s | s in status :: if s in up then Running else status[s]
  }

  lemma LitAlready(status: map<Name, Status>, o: seq<Name>, i: nat)
    requires i < |o| && o[i] in status
    ensures Lit(status, o[..i])[o[i]] == Running ==> Lit(status, o[..i + 1]) == Lit(status, o[..i])
  {
    assert o[..i + 1] == o[..i] + [o[i]];
  }

  /** Starting the next service of a resolved order adds just that service to the running ones. */
  lemma NextStarts(f: Fleet, priority: map<Name, int>, id: Name, i: nat)
    requires ServiceSpec.WellFormed(f) && Visit(SortedGraph(f.deps, priority), id, {}, []).Ok?
    requires i < |Visit(SortedGraph(f.deps, priority), id, {}, []).value|
    ensures var o := Visit(SortedGraph(f.deps, priority), id, {}, []).value;
      var now := f.(status := Lit(f.status, o[..i]));
      && o[i] in f.status && Startable(now, o[i])
      && Started(now, o[i]).status == Lit(f.status, o[..i + 1])
  {
    hide Visit;
    var g := SortedGraph(f.deps, priority);
    ClosureListed(g, id);
    var o := Visit(g, id, {}, []).value;
    var d, now := o[i], f.(status := Lit(f.status, o[..i]));
    VisitComplete(g, o, d, {}, []);
    ClosureDecided(g, d);
    OrderIrrelevant(now, priority, d);
    TrivialPath(g, d);
    forall x | Reaches(g, d, x) ensures x in o[..i + 1] { PrefixClosed(g, o, i, x); }
    LightsNext(f, o, i, now);
  }

  lemma LightsNext(f: Fleet, o: seq<Name>, i: nat, now: Fleet)
    requires i < |o| && now == f.(status := Lit(f.status, o[..i])) && Startable(now, o[i])
    requires Reaches(G(f), o[i], o[i]) && forall x | Reaches(G(f), o[i], x) :: x in o[..i + 1]
    ensures Started(now, o[i]).status == Lit(f.status, o[..i + 1])
  {
    hide Reaches, Blames;
    assert o[..i + 1] == o[..i] + [o[i]];
  }

  /** All of the order and then the service itself: exactly what starting it promises. */
  lemma AllStarted(f: Fleet, priority: map<Name, int>, id: Name, order: seq<Name>)
    requires ServiceSpec.WellFormed(f) && id in f.status && f.status[id] != Running
    requires Visit(SortedGraph(f.deps, priority), id, {}, []) == Ok(order + [id])
    ensures Startable(f, id) && Started(f, id) == f.(status := Lit(f.status, order)[id := Running])
  {
    var g := SortedGraph(f.deps, priority);
    ClosureDecided(g, id);
    OrderIrrelevant(f, priority, id);
    ClosureListed(g, id);
    var o := order + [id];
    assert Visit(g, id, {}, []).value == o;
    hide Visit, Blames, Reaches;
    LitOne(f.status, order, id);
    StartedLights(f, id, o);
  }

  lemma LitOne(status: map<Name, Status>, order: seq<Name>, id: Name)
    requires id in status
    ensures Lit(status, order + [id]) == Lit(status, order)[id := Running]
  {}

  lemma StartedLights(f: Fleet, id: Name, o: seq<Name>)
    requires Startable(f, id) && f.status[id] != Running
    requires forall s | s in f.status :: Reaches(G(f), id, s) <==> s in o
    ensures Started(f, id) == f.(status := Lit(f.status, o))
  {
    hide Blames, Reaches;
  }

  /** A service that leads to a fault cannot be started, and trying changes nothing. */
  lemma NotStarted(f: Fleet, id: Name, fault: Fault)
    requires Blames(G(f), id, fault) && (id in f.status ==> f.status[id] != Running)
    ensures !Startable(f, id) && Started(f, id) == f
  {
    hide Blames;
  }

  /** Statuses once the first k listed dependents have been stopped. */
  ghost predicate FellWith(g: Graph, running: set<Name>, s: Name, down: seq<Name>) {
    exists j :: 0 <= j < |down| && Topples(g, running, s, down[j])
  }

  ghost function Fallen(f: Fleet, down: seq<Name>): map<Name, Status> {
    map s | s in f.status :: if FellWith(G(f), RunningIn(f.status), s, down) then Stopped else f.status[s]
  }

  /** Stopping one more dependent, from wherever the earlier ones have left things. */
  lemma NextFalls(f: Fleet, down: seq<Name>, d: Name)
    requires forall x | x in down :: x in RunningIn(f.status)
    requires d in RunningIn(f.status)
    ensures StoppedStatus(f.(status := Fallen(f, down)), d) == Fallen(f, down + [d])
  {
    var g, running := G(f), RunningIn(f.status);
    var now := f.(status := Fallen(f, down));
    var fallen := set s | s in running && FellWith(g, running, s, down);
    assert RunningIn(now.status) == running - fallen;
    forall x | x in fallen ensures Topples(g, running, x, x) { TopplesSelf(g, running, x); }
    forall x, y | x in fallen && Topples(g, running, y, x) ensures y in fallen {
      var j :| 0 <= j < |down| && Topples(g, running, x, down[j]);
      TopplesThrough(g, running, y, x, down[j]);
      var p :| PathFrom(g, p, y, x) && ThroughRunning(running, p);
      assert |p| > 1 ==> p[0] in running;
    }
    forall s | s in f.status
      ensures StoppedStatus(now, d)[s] == Fallen(f, down + [d])[s]
    {
      TopplesAfterOthers(g, running, running - fallen, fallen, s, d);
      NextFell(g, running, s, down, d);
    }
  }

  lemma NextFell(g: Graph, running: set<Name>, s: Name, down: seq<Name>, d: Name)
    ensures FellWith(g, running, s, down + [d]) <==> FellWith(g, running, s, down) || Topples(g, running, s, d)
  {
    var more := down + [d];
    if FellWith(g, running, s, more) {
      var j :| 0 <= j < |more| && Topples(g, running, s, more[j]);
      assert j < |down| ==> more[j] == down[j];
    }
    if FellWith(g, running, s, down) {
      var j :| 0 <= j < |down| && Topples(g, running, s, down[j]);
      assert more[j] == down[j];
    }
    if Topples(g, running, s, d) { assert more[|down|] == d; }
  }

  /** Once all running dependents are down, marking the service itself completes the stop. */
  lemma AllFell(f: Fleet, id: Name, down: seq<Name>)
    requires ServiceSpec.WellFormed(f) && id in f.status
    requires forall d :: d in down <==> d in RunningIn(f.status) && id in f.deps[d]
    ensures Fallen(f, down)[id := Stopped] == StoppedStatus(f, id)
  {
    var g, running := G(f), RunningIn(f.status);
    forall s | s in f.status ensures Topples(g, running, s, id) <==> s == id || FellWith(g, running, s, down) {
      FellThroughDependent(f, s, id, down);
    }
  }

  lemma FellThroughDependent(f: Fleet, s: Name, id: Name, down: seq<Name>)
    requires ServiceSpec.WellFormed(f) && id in f.status
    requires forall d :: d in down <==> d in RunningIn(f.status) && id in f.deps[d]
    ensures var g, running := G(f), RunningIn(f.status);
      Topples(g, running, s, id) <==> s == id || FellWith(g, running, s, down)
  {
    hide Topples;
    var g, running := G(f), RunningIn(f.status);
    TopplesByDependent(g, running, s, id);
    if d :| d in running && d in g.succ && id in g.succ[d] && Topples(g, running, s, d) {
      assert down[Index(down, d)] == d;
    }
    if FellWith(g, running, s, down) {
      var j :| 0 <= j < |down| && Topples(g, running, s, down[j]);
      assert down[j] in down;
    }
  }

  lemma RegisteredAlready(f: Fleet, id: Name, dependencies: seq<Name>)
    requires id in f.status
    ensures Apply(f, ServiceSpec.Register(id, dependencies)) == f
  {}

  lemma RegisteredNew(f: Fleet, id: Name, dependencies: seq<Name>)
    requires id !in f.status
    ensures Apply(f, ServiceSpec.Register(id, dependencies)) == Fleet(f.deps[id := dependencies], f.status[id := Registered])
  {}

  class ServiceManager {
    var ids: seq<Name>
    var services: map<Name, Service>

    ghost function Objects(): set<object>
      reads this
    {
      set id | id in services :: services[id] as object
    }

    ghost predicate Valid()
      reads this
    {
      && Distinct(ids) && Elems(ids) == services.Keys
      && forall id | id in services :: services[id].serviceId == id
    }

    ghost function Now(): Fleet
      reads this, Objects()
    {
      Fleet(DependencyLists(), Statuses())
    }

    ghost function Statuses(): map<Name, Status>
      reads this, Objects()
    {
      map id | id in services :: services[id].status
    }

    function DependencyLists(): map<Name, seq<Name>>
      reads this
    {
      map id | id in services :: services[id].dependencies
    }

    function Priorities(): map<Name, int>
      reads this
    {
      map id | id in services :: services[id].startupPriority
    }

    ghost function Sorted(): Graph
      reads this
    {
      SortedGraph(DependencyLists(), Priorities())
    }

    /** A dependency the service lists is not registered. */
    predicate LacksDependency(id: Name)
      requires id in services
      reads this
    {
      exists d :: d in services[id].dependencies && d !in services
    }

    constructor ()
      ensures Valid() && Now() == Fleet(map[], map[])
    {
      ids, services := [], map[];
      new;
      assert Elems(ids) == services.Keys;
    }

    /** Assigning one service's status changes that entry and no other. */
    method SetStatus(id: Name, status: Status)
      requires Valid() && id in services
      modifies services[id]
      ensures Valid() && Now() == old(Now()).(status := old(Now()).status[id := status])
    {
      services[id].status := status;
    }

    method Register(id: Name, dependencies: seq<Name>, startupPriority: int) returns (raised: bool)
      requires Valid()
      modifies this
      ensures Valid() && raised == (id in old(services))
      ensures Now() == Apply(old(Now()), ServiceSpec.Register(id, dependencies))
      ensures !raised ==> Priorities() == old(Priorities())[id := startupPriority]
      ensures raised ==> unchanged(this)
    {
      hide Distinct, Elems, ServiceSpec.Apply;
      if id in services {
        RegisteredAlready(Now(), id, dependencies);
        return true;
      }
      RegisteredNew(Now(), id, dependencies);
      var service := new Service(id, dependencies, startupPriority);
      ElemsAppend(ids, id);
      ids := ids + [id];
      services := services[id := service];
      assert Statuses() == old(Statuses())[id := Registered];
      assert DependencyLists() == old(DependencyLists())[id := dependencies];
      return false;
    }

    method Initialize(id: Name) returns (raised: bool)
      requires Valid()
      modifies Objects()
      ensures Valid() && raised == (id !in services)
      ensures Now() == Apply(old(Now()), ServiceSpec.Initialize(id))
      ensures !raised && old(services[id].status) != Running ==> services[id].status == Stopped
    {
      if id !in services { return true; }
      if services[id].status == Running { return false; }
      SetStatus(id, Initializing);
      Overwrite(old(Statuses()), id, Initializing, Stopped);
      SetStatus(id, Stopped);
      return false;
    }

    /** `execute` on a running service whose handler raises. */
    method ExecuteRaising(id: Name) returns (raised: bool)
      requires Valid()
      modifies Objects()
      ensures Valid() && raised
      ensures Now() == Apply(old(Now()), ExecuteRaises(id))
      ensures id in services && old(services[id].status) == Running ==> services[id].status == Failed
    {
      if id !in services || services[id].status != Running { return true; }
      SetStatus(id, Failed);
      return true;
    }

    /** The nested `visit` of `_dependency_order`; the root is visited but not listed, and `stack` is the chain of
        services being visited. */
    method Visit(s: Search, root: Name, current: Name, ghost stack: seq<Name>) returns (raised: Option<ServiceError>)
      requires Valid() && Ready(Sorted(), s)
      requires root in s.visiting || current == root
      requires Elems(stack) == s.visiting && IsPath(Sorted(), stack + [current])
      modifies s
      ensures raised.Some? ==> !raised.value.MissingDependency? && Blames(Sorted(), current, FaultOf(raised.value))
      ensures match DependencyGraph.Visit(Sorted(), current, old(s.visiting), old(s.order))
        case Err(_) => raised.Some?
        case Ok(o) =>
          && raised == None && s.visiting == old(s.visiting) && s.visited == Elems(o)
          && o == if current == root && root !in old(s.order) then s.order + [root] else s.order
      decreases |services.Keys - s.visiting|, 0
    {
      hide DependencyGraph.VisitEach, ByPriority, Blames, IsPath, DepsFirst, Distinct;
      ghost var g := Sorted();
      ghost var found := DependencyGraph.Visit(g, current, s.visiting, s.order);
      if current in s.visiting {
        LoopBlamed(g, stack, current);
        return Some(Circular(current));
      }
      if current in s.visited { return None; }
      if current !in services {
        UnknownBlamed(g, current);
        return Some(NotFound(current));
      }
      FewerLeft(services.Keys, s.visiting, current);
      s.visiting := s.visiting + {current};
      ElemsAppend(stack, current);
      assert Ready(g, s);
      raised := VisitDependencies(s, root, current, stack + [current]);
      if raised.Some? { return; }
      ghost var o := s.order + [current];
      assert found == Ok(o) && Sorted() == g;
      PutBack(old(s.visiting), current);
      ElemsAppend(s.order, current);
      Leave(s, root, current);
      assert s.visited == Elems(o);
    }

    /** The end of `visit`. */
    method Leave(s: Search, root: Name, current: Name)
      modifies s
      ensures s.visiting == old(s.visiting) - {current} && s.visited == old(s.visited) + {current}
      ensures s.order == if current == root then old(s.order) else old(s.order) + [current]
    {
      s.visiting := s.visiting - {current};
      s.visited := s.visited + {current};
      if current != root { s.order := s.order + [current]; }
    }

    /** Looks every dependency up for its priority before visiting the first one. */
    method VisitDependencies(s: Search, root: Name, current: Name, ghost stack: seq<Name>)
        returns (raised: Option<ServiceError>)
      requires Valid() && Ready(Sorted(), s) && root in s.visiting && current in services
      requires Elems(stack) == s.visiting && stack != [] && stack[|stack| - 1] == current && IsPath(Sorted(), stack)
      modifies s
      ensures raised.Some? ==> !raised.value.MissingDependency? && Blames(Sorted(), current, FaultOf(raised.value))
      ensures match VisitEach(Sorted(), current, Sorted().succ[current], old(s.visiting), old(s.order))
        case Err(_) => raised.Some?
        case Ok(o) => raised == None && s.visiting == old(s.visiting) && s.order == o && Ready(Sorted(), s)
      decreases |services.Keys - s.visiting|, 1
    {
      hide Blames, IsPath, DepsFirst, ByPriority, DependencyGraph.Visit, Distinct;
      ghost var g := Sorted();
      ghost var visiting0, order0 := s.visiting, s.order;
      var listed := services[current].dependencies;
      var todo := ByPriority(listed, Priorities());
      ghost var whole := VisitEach(g, current, todo, visiting0, order0);
      if whole.Ok? { VisitEachSound(g, current, todo, visiting0, order0); }
      var unknown := UnknownDependency(current);
      if unknown.Some? { return Some(NotFound(unknown.value)); }
      for i := 0 to |todo|
        invariant s.visiting == visiting0 && Ready(g, s)
        invariant VisitEach(g, current, todo[i..], visiting0, s.order) == whole
      {
        assert todo[i..][1..] == todo[i + 1..];
        ghost var next := DependencyGraph.Visit(g, todo[i], visiting0, s.order);
        if next.Ok? { VisitSound(g, todo[i], visiting0, s.order); }
        assert todo[i] in todo;
        PathGrows(g, stack, todo[i]);
        raised := Visit(s, root, todo[i], stack);
        if raised.Some? {
          BlamesThrough(g, current, todo[i], FaultOf(raised.value));
          return;
        }
      }
      return None;
    }

    /** The first dependency whose priority cannot be looked up. */
    method UnknownDependency(current: Name) returns (unknown: Option<Name>)
      requires Valid() && current in services
      ensures match unknown
        case Some(d) => d in services[current].dependencies && d !in services && Blames(Sorted(), current, Missing(d))
        case None => forall d | d in services[current].dependencies :: d in services
    {
      var listed := services[current].dependencies;
      for i := 0 to |listed|
        invariant forall d | d in listed[..i] :: d in services
      {
        if listed[i] !in services {
          StepPath(Sorted(), current, listed[i]);
          return Some(listed[i]);
        }
      }
      assert listed[..|listed|] == listed;
      return None;
    }

    method DependencyOrder(id: Name) returns (raised: Option<ServiceError>, order: seq<Name>)
      requires Valid()
      ensures raised.Some? ==> !raised.value.MissingDependency? && Blames(Sorted(), id, FaultOf(raised.value))
      ensures match DependencyGraph.Visit(Sorted(), id, {}, [])
        case Err(_) => raised.Some?
        case Ok(o) => raised == None && o == order + [id]
    {
      var s := new Search();
      assert Elems<Name>([]) == {} && [] + [id] == [id];
      raised := Visit(s, id, id, []);
      order := s.order;
    }

    method Start(id: Name) returns (raised: Option<ServiceError>)
      requires Valid()
      modifies Objects()
      ensures Valid() && Now() == Started(old(Now()), id)
      ensures raised.Some? <==> !Startable(old(Now()), id)
      ensures raised.Some? ==> Blames(G(old(Now())), id, FaultOf(raised.value))
      ensures raised.Some? && raised.value.MissingDependency? <==>
        id in services && old(services[id].status) != Running && LacksDependency(id)
      decreases Rank(Sorted(), id), 3
    {
      hide Blames, Reaches, LacksDependency;
      if id !in services {
        UnknownBlamed(G(Now()), id);
        NotStarted(Now(), id, Missing(id));
        return Some(NotFound(id));
      }
      if services[id].status == Running { return None; }
      raised := StartIdle(id);
    }

    /** `start` of a service that is not running. */
    method StartIdle(id: Name) returns (raised: Option<ServiceError>)
      requires Valid() && id in services && services[id].status != Running
      modifies Objects()
      ensures Valid() && Now() == Started(old(Now()), id)
      ensures raised.Some? <==> !Startable(old(Now()), id)
      ensures raised.Some? ==> Blames(G(old(Now())), id, FaultOf(raised.value))
      ensures raised.Some? && raised.value.MissingDependency? <==> LacksDependency(id)
      decreases Rank(Sorted(), id), 2
    {
      hide Startable, Started, Lit, LacksDependency, Blames, Reaches, DependencyGraph.Visit, SortedGraph;
      ghost var f, priority := Now(), Priorities();
      assert id in f.status && f.status[id] != Running && Sorted() == SortedGraph(f.deps, priority);
      hide Now;
      var order;
      raised, order := Resolve(id);
      if raised.Some? {
        NotStarted(f, id, FaultOf(raised.value));
        return;
      }
      AllStarted(f, priority, id, order);
      StartInOrder(id, order);
    }

    /** The checks of `start` on dependencies: the service's own first, and then the whole order. */
    method Resolve(id: Name) returns (raised: Option<ServiceError>, order: seq<Name>)
      requires Valid() && id in services
      ensures raised.Some? ==> Blames(G(Now()), id, FaultOf(raised.value))
      ensures raised.Some? && raised.value.MissingDependency? <==> LacksDependency(id)
      ensures raised == None ==> DependencyGraph.Visit(Sorted(), id, {}, []) == Ok(order + [id])
    {
      hide Blames, Reaches, DependencyGraph.Visit, SortedGraph, LacksDependency;
      order := [];
      var missing := FirstMissing(id);
      if missing.Some? { return Some(MissingDependency(missing.value)), []; }
      OrderIrrelevant(Now(), Priorities(), id);
      raised, order := DependencyOrder(id);
    }

    /** `start` once the order is known. */
    method StartInOrder(id: Name, order: seq<Name>)
      requires Valid() && id in services && DependencyGraph.Visit(Sorted(), id, {}, []) == Ok(order + [id])
      modifies Objects()
      ensures Valid() && Now() == old(Now()).(status := Lit(old(Now()).status, order)[id := Running])
      decreases Rank(Sorted(), id), 1
    {
      hide Lit, Now;
      StartAll(id, order);
      MarkRunning(id);
    }

    method MarkRunning(id: Name)
      requires Valid() && id in services
      modifies services[id]
      ensures Valid() && Now() == old(Now()).(status := old(Now()).status[id := Running])
    {
      Overwrite(Now().status, id, Starting, Running);
      SetStatus(id, Starting);
      SetStatus(id, Running);
    }

    /** The loop of `start` over the resolved dependencies. */
    method StartAll(ghost id: Name, order: seq<Name>)
      requires Valid() && DependencyGraph.Visit(Sorted(), id, {}, []) == Ok(order + [id])
      modifies Objects()
      ensures Valid() && Now() == old(Now()).(status := Lit(old(Now()).status, order))
      decreases Rank(Sorted(), id), 0
    {
      ghost var f, priority, o := Now(), Priorities(), order + [id];
      assert Lit(f.status, o[..0]) == f.status;
      for i := 0 to |order|
        invariant Valid() && Now() == f.(status := Lit(f.status, o[..i]))
      {
        NextStarts(f, priority, id, i);
        RankDropsInOrder(Sorted(), id, i);
        LitAlready(f.status, o, i);
        if services[order[i]].status != Running {
          var problem := Start(order[i]);
        }
      }
      assert o[..|order|] == order;
    }

    method FirstMissing(id: Name) returns (missing: Option<Name>)
      requires Valid() && id in services
      ensures missing.Some? <==> LacksDependency(id)
      ensures missing.Some? ==> Blames(G(Now()), id, Missing(missing.value))
    {
      for i := 0 to |services[id].dependencies|
        invariant forall k | 0 <= k < i :: services[id].dependencies[k] in services
      {
        var d := services[id].dependencies[i];
        if d !in services {
          StepPath(G(Now()), id, d);
          return Some(d);
        }
      }
      return None;
    }

    /** `stop`: first the running dependents, each recursively, then the service; h ranks the running services. */
    method Stop(id: Name, ghost h: map<Name, nat>) returns (raised: Option<ServiceError>)
      requires Valid() && Ranks(G(Now()), RunningIn(Statuses()), h)
      modifies Objects()
      ensures Valid() && Now() == Halted(old(Now()), id)
      ensures raised.Some? <==> id !in services
      decreases if id in h then 0 else 1, if id in h then h[id] else 0
    {
      if id !in services { return Some(NotFound(id)); }
      ghost var f := Now();
      var dependents := RunningDependents(id);
      assert Fallen(f, dependents[..0]) == f.status;
      for i := 0 to |dependents|
        invariant Valid() && Now() == f.(status := Fallen(f, dependents[..i]))
      {
        assert dependents[..i + 1] == dependents[..i] + [dependents[i]];
        NextFalls(f, dependents[..i], dependents[i]);
        var problem := Stop(dependents[i], h);
      }
      assert dependents[..|dependents|] == dependents;
      AllFell(f, id, dependents);
      if services[id].status != Running {
        SetStatus(id, Stopped);
        return None;
      }
      SetStatus(id, Stopping);
      Overwrite(Fallen(f, dependents), id, Stopping, Stopped);
      SetStatus(id, Stopped);
      return None;
    }

    method RunningDependents(id: Name) returns (dependents: seq<Name>)
      requires Valid()
      ensures forall d :: d in dependents <==> d in RunningIn(Statuses()) && id in DependencyLists()[d]
    {
      dependents := [];
      for i := 0 to |ids|
        invariant forall d :: d in dependents <==> d in ids[..i] && d in services && services[d].status == Running
                                                   && id in services[d].dependencies
      {
        assert ids[i] in Elems(ids);
        assert ids[..i + 1] == ids[..i] + [ids[i]];
        if id in services[ids[i]].dependencies && services[ids[i]].status == Running {
          dependents := dependents + [ids[i]];
        }
      }
      assert ids[..|ids|] == ids;
      assert forall d | d in services :: d in Elems(ids);
    }

    method Unregister(id: Name, ghost h: map<Name, nat>) returns (raised: bool)
      requires Valid() && Ranks(G(Now()), RunningIn(Statuses()), h)
      modifies this, Objects()
      ensures Valid() && raised == (id !in old(services))
      ensures Now() == Unregistered(old(Now()), id)
    {
      if id !in services { return true; }
      if services[id].status in {Running, Starting, Initializing} {
        var problem := Stop(id, h);
      }
      RemoveId(id);
      return false;
    }

    method RemoveId(id: Name)
      requires Valid() && id in services
      modifies this
      ensures Valid() && Now() == Fleet(old(DependencyLists()) - {id}, old(Statuses()) - {id})
    {
      hide Distinct;
      assert id in Elems(ids);
      var i :| 0 <= i < |ids| && ids[i] == id;
      hide Elems;
      WithoutOne(ids, i);
      ids := ids[..i] + ids[i + 1..];
      services := services - {id};
      assert Statuses() == old(Statuses()) - {id};
      assert DependencyLists() == old(DependencyLists()) - {id};
    }
  }

  lemma RankDropsInOrder(g: Graph, id: Name, i: nat)
    requires g.off == {} && Visit(g, id, {}, []).Ok? && i < |Visit(g, id, {}, []).value| - 1
    ensures Rank(g, Visit(g, id, {}, []).value[i]) < Rank(g, id)
  {
    ClosureListed(g, id);
    var o := Visit(g, id, {}, []).value;
    RankDrops(g, id, o[i]);
  }
}
