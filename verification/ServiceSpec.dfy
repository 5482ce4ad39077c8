/** What starting and stopping services does to the set of running ones, and what every run keeps. */
module ServiceSpec {
  import opened Names
  import opened DependencyGraph

  datatype Status = Registered | Initializing | Stopped | Starting | Running | Stopping | Failed

  /** Dependency lists and statuses of the registered services. */
  datatype Fleet = Fleet(deps: map<Name, seq<Name>>, status: map<Name, Status>)

  function G(f: Fleet): Graph { Graph(f.deps, {}) }

  function RunningIn(status: map<Name, Status>): set<Name> {
    set s | s in status && status[s] == Running
  }

  // ---- operations ----

  ghost predicate Startable(f: Fleet, id: Name) {
    id in f.status && (f.status[id] == Running || !exists fault :: Blames(G(f), id, fault))
  }

  /** Starting brings up the service and everything it transitively needs. */
  ghost function Started(f: Fleet, id: Name): Fleet {
    if !Startable(f, id) || f.status[id] == Running then f
    else f.(status := map s | s in f.status :: if Reaches(G(f), id, s) then Running else f.status[s])
  }

  /** A chain of dependencies from s to id on which everything before id is running. */
  ghost predicate Topples(g: Graph, running: set<Name>, s: Name, id: Name) {
    exists p :: PathFrom(g, p, s, id) && ThroughRunning(running, p)
  }

  ghost predicate ThroughRunning(running: set<Name>, p: seq<Name>) {
    forall i :: 0 <= i < |p| - 1 ==> p[i] in running
  }

  /** Stopping takes down the service and everything running that needs it through running services. */
  ghost function StoppedStatus(f: Fleet, id: Name): map<Name, Status> {
    map s | s in f.status :: if Topples(G(f), RunningIn(f.status), s, id) then Stopped else f.status[s]
  }

  ghost function Halted(f: Fleet, id: Name): Fleet {
    if id in f.status then f.(status := StoppedStatus(f, id)) else f
  }

  ghost function Unregistered(f: Fleet, id: Name): Fleet {
    if id !in f.status then f
    else
      var f1 := if f.status[id] in {Running, Starting, Initializing} then Halted(f, id) else f;
      Fleet(f1.deps - {id}, f1.status - {id})
  }

  datatype Op =
    | Register(id: Name, deps: seq<Name>)
    | Unregister(id: Name)
    | Initialize(id: Name)
    | Start(id: Name)
    | Stop(id: Name)
    | ExecuteRaises(id: Name)

  ghost function Apply(f: Fleet, op: Op): Fleet {
    match op
    case Register(id, deps) => if id in f.status then f else Fleet(f.deps[id := deps], f.status[id := Registered])
    case Unregister(id) => Unregistered(f, id)
    case Initialize(id) => if id !in f.status || f.status[id] == Running then f else f.(status := f.status[id := Stopped])
    case Start(id) => Started(f, id)
    case Stop(id) => Halted(f, id)
    case ExecuteRaises(id) => if id !in f.status || f.status[id] != Running then f else f.(status := f.status[id := Failed])
  }

  ghost function Run(f: Fleet, ops: seq<Op>): Fleet
    decreases |ops|
  {
    if ops == [] then f else Run(Apply(f, ops[0]), ops[1..])
  }

  // ---- invariants ----

  ghost predicate WellFormed(f: Fleet) { f.deps.Keys == f.status.Keys }

  /** Everything a running service needs is registered and running. */
  ghost predicate Closed(f: Fleet)
    requires WellFormed(f)
  {
    forall s, d | s in f.status && f.status[s] == Running && d in f.deps[s] :: d in f.status && f.status[d] == Running
  }

  /** Heights that drop from every needed service to a running one that needs it. */
  ghost predicate Ranks(g: Graph, running: set<Name>, h: map<Name, nat>) {
    && running <= h.Keys && running <= g.succ.Keys
    && forall s, t | s in running && t in g.succ[s] && t in h :: h[s] < h[t]
  }

  /** The running services can be ranked, so no chain of dependencies among them loops. */
  ghost predicate Ranked(f: Fleet) {
    exists h: map<Name, nat> :: h.Keys == RunningIn(f.status) && Ranks(G(f), RunningIn(f.status), h)
  }

  ghost predicate Inv(f: Fleet) { WellFormed(f) && Closed(f) && Ranked(f) }

  lemma {:induction false} RankedNoLoop(g: Graph, running: set<Name>, h: map<Name, nat>, p: seq<Name>)
    requires Ranks(g, running, h) && IsPath(g, p) && |p| >= 2
    requires forall i | 0 <= i < |p| :: p[i] in running
    ensures h[p[0]] < h[p[|p| - 1]]
  {
    if |p| > 2 {
      var q := p[1..];
      assert IsPath(g, q) by {
        forall i | 0 <= i < |q| - 1 ensures q[i] in g.succ && q[i + 1] in g.succ[q[i]] {
          assert q[i] == p[i + 1] && q[i + 1] == p[i + 2];
        }
      }
      RankedNoLoop(g, running, h, q);
    }
    assert p[1] in g.succ[p[0]];
  }

  /** No service is ever running on a loop of running services. */
  lemma RunningAcyclic(f: Fleet, p: seq<Name>)
    requires WellFormed(f) && Ranked(f) && IsPath(G(f), p) && |p| >= 2
    requires forall i | 0 <= i < |p| :: p[i] in RunningIn(f.status)
    ensures p[0] != p[|p| - 1]
  {
    var h: map<Name, nat> :| h.Keys == RunningIn(f.status) && Ranks(G(f), RunningIn(f.status), h);
    RankedNoLoop(G(f), RunningIn(f.status), h, p);
  }

  // ---- what toppling reaches ----

  lemma TailPath(g: Graph, p: seq<Name>)
    requires IsPath(g, p) && |p| >= 2
    ensures IsPath(g, p[..|p| - 1])
  {
    var q := p[..|p| - 1];
    forall i | 0 <= i < |q| - 1 ensures q[i] in g.succ && q[i + 1] in g.succ[q[i]] {
      assert q[i] == p[i] && q[i + 1] == p[i + 1];
    }
  }

  lemma TopplesThrough(g: Graph, running: set<Name>, s: Name, d: Name, id: Name)
    requires Topples(g, running, s, d) && d in running && Topples(g, running, d, id)
    ensures Topples(g, running, s, id)
  {
    var p :| PathFrom(g, p, s, d) && ThroughRunning(running, p);
    var q :| PathFrom(g, q, d, id) && ThroughRunning(running, q);
    var r := p + q[1..];
    forall i | 0 <= i < |r| - 1 ensures r[i] in running && r[i] in g.succ && r[i + 1] in g.succ[r[i]] {
      if i >= |p| - 1 {
        assert r[i] == q[i - (|p| - 1)] && r[i + 1] == q[i + 1 - (|p| - 1)];
      }
    }
    assert PathFrom(g, r, s, id) && ThroughRunning(running, r);
  }

  lemma TopplesSelf(g: Graph, running: set<Name>, id: Name)
    ensures Topples(g, running, id, id)
  {
    assert PathFrom(g, [id], id, id) && ThroughRunning(running, [id]);
  }

  lemma TopplesDirect(g: Graph, running: set<Name>, d: Name, id: Name)
    requires d in running && d in g.succ && id in g.succ[d]
    ensures Topples(g, running, d, id)
  {
    assert PathFrom(g, [d, id], d, id) && ThroughRunning(running, [d, id]);
  }

  /** What falls with id is id and what falls with one of its running dependents. */
  lemma TopplesByDependent(g: Graph, running: set<Name>, s: Name, id: Name)
    ensures Topples(g, running, s, id) <==>
      s == id || exists d :: d in running && d in g.succ && id in g.succ[d] && Topples(g, running, s, d)
  {
    TopplesSelf(g, running, id);
    if Topples(g, running, s, id) && s != id {
      var p :| PathFrom(g, p, s, id) && ThroughRunning(running, p);
      var d := p[|p| - 2];
      assert d in g.succ && p[|p| - 2 + 1] in g.succ[d];
      TailPath(g, p);
      assert PathFrom(g, p[..|p| - 1], s, d) && ThroughRunning(running, p[..|p| - 1]);
    }
    forall d | d in running && d in g.succ && id in g.succ[d] && Topples(g, running, s, d)
      ensures Topples(g, running, s, id)
    {
      TopplesDirect(g, running, d, id);
      TopplesThrough(g, running, s, d, id);
    }
  }

  /** Taking down one dependent after the other reaches what taking each down at first would have reached. */
  lemma TopplesAfterOthers(g: Graph, running: set<Name>, left: set<Name>, fallen: set<Name>, s: Name, d: Name)
    requires d in running && left == running - fallen
    requires forall x | x in fallen :: Topples(g, running, x, x) && forall y | Topples(g, running, y, x) :: y in fallen
    ensures s in fallen || (Topples(g, left, s, d) <==> Topples(g, running, s, d))
  {
    if s !in fallen {
      if Topples(g, running, s, d) {
        var p :| PathFrom(g, p, s, d) && ThroughRunning(running, p);
        forall i | 0 <= i < |p| - 1 ensures p[i] in left {
          if p[i] in fallen {
            var q := p[..i + 1];
            forall k | 0 <= k < |q| - 1 ensures q[k] in running && q[k] in g.succ && q[k + 1] in g.succ[q[k]] {
              assert q[k] == p[k] && q[k + 1] == p[k + 1];
            }
            assert PathFrom(g, q, s, p[i]) && ThroughRunning(running, q);
          }
        }
        assert ThroughRunning(left, p);
      }
      if Topples(g, left, s, d) {
        var p :| PathFrom(g, p, s, d) && ThroughRunning(left, p);
        assert ThroughRunning(running, p);
      }
    }
  }

  /** While the running set is closed, what a stop takes down is the service and every running service
      that transitively needs it. */
  lemma StopTakesDependents(f: Fleet, id: Name, s: Name)
    requires WellFormed(f) && Closed(f) && id in f.status && s in f.status
    ensures Topples(G(f), RunningIn(f.status), s, id) <==> s == id || (f.status[s] == Running && Reaches(G(f), s, id))
  {
    var running := RunningIn(f.status);
    TopplesSelf(G(f), running, id);
    if Topples(G(f), running, s, id) && s != id {
      var p :| PathFrom(G(f), p, s, id) && ThroughRunning(running, p);
      assert p[0] in running;
    }
    if f.status[s] == Running && Reaches(G(f), s, id) {
      var p :| PathFrom(G(f), p, s, id);
      ClosedPath(f, p);
      assert ThroughRunning(running, p);
    }
  }

  lemma {:induction false} ClosedPath(f: Fleet, p: seq<Name>)
    requires WellFormed(f) && Closed(f) && IsPath(G(f), p) && p[0] in RunningIn(f.status)
    ensures forall i | 0 <= i < |p| :: p[i] in RunningIn(f.status)
  {
    if |p| > 1 {
      TailPath(G(f), p);
      ClosedPath(f, p[..|p| - 1]);
      assert p[..|p| - 1][|p| - 2] == p[|p| - 2];
      assert p[|p| - 2 + 1] in f.deps[p[|p| - 2]];
    }
  }

  // ---- every operation keeps the invariants ----

  lemma HeightsBounded(h: map<Name, nat>) returns (bound: nat)
    ensures forall s | s in h :: h[s] < bound
    decreases |h|
  {
    if h.Keys == {} { return 0; }
    var s :| s in h;
    var rest := HeightsBounded(h - {s});
    bound := if rest > h[s] then rest else h[s] + 1;
    forall t | t in h ensures h[t] < bound { if t != s { assert t in h - {s}; } }
  }

  lemma StartKeepsRanked(f: Fleet, id: Name)
    requires WellFormed(f) && Ranked(f)
    ensures WellFormed(Started(f, id)) && Ranked(Started(f, id))
  {
    if Startable(f, id) && f.status[id] != Running {
      var g, running := G(f), RunningIn(f.status);
      var h: map<Name, nat> :| h.Keys == running && Ranks(g, running, h);
      var bound := HeightsBounded(h);
      ClosureDecided(g, id);
      ClosureListed(g, id);
      var o := Visit(g, id, {}, []).value;
      var f1 := Started(f, id);
      forall x | x in o ensures x in f.status {
        assert o[Index(o, x)] in g.succ;
      }
      RankedAbove(g, running, h, o, bound);
      assert RunningIn(f1.status) == running + Elems(o);
    }
  }

  /** Dependencies listed before their dependents can be ranked above everything ranked so far. */
  lemma RankedAbove(g: Graph, running: set<Name>, h: map<Name, nat>, o: seq<Name>, bound: nat)
    requires running <= g.succ.Keys && Elems(o) <= g.succ.Keys && Distinct(o)
    requires h.Keys == running && Ranks(g, running, h) && forall s | s in h :: h[s] < bound
    requires forall i | 0 <= i < |o| :: Elems(g.succ[o[i]]) <= Elems(o[..i])
    ensures exists h1: map<Name, nat> :: h1.Keys == running + Elems(o) && Ranks(g, running + Elems(o), h1)
  {
    var running1 := running + Elems(o);
    var h1: map<Name, nat> := map s | s in running1 :: if s in o then bound + |o| - Index(o, s) else h[s];
    forall s, t | s in running1 && t in g.succ[s] && t in h1 ensures h1[s] < h1[t] {
      if s in o {
        assert t in Elems(g.succ[o[Index(o, s)]]);
        assert t in o[..Index(o, s)];
        DistinctIndex(o, Index(o, s), t);
      } else if t !in o {
        assert t in h;
      }
    }
    assert Ranks(g, running1, h1);
  }

  lemma DistinctIndex(o: seq<Name>, i: nat, t: Name)
    requires Distinct(o) && i < |o| && t in o[..i]
    ensures Index(o, t) < i
  {
    var k :| 0 <= k < i && o[k] == t;
  }

  lemma StartKeepsClosed(f: Fleet, id: Name)
    requires WellFormed(f) && Closed(f)
    ensures Closed(Started(f, id))
  {
    if Startable(f, id) && f.status[id] != Running {
      var g, f1 := G(f), Started(f, id);
      forall x | Reaches(g, id, x) ensures x in f.status {
        assert !Blames(g, id, Missing(x));
      }
      forall s, d | s in f1.status && f1.status[s] == Running && d in f1.deps[s]
        ensures d in f1.status && f1.status[d] == Running
      {
        if Reaches(g, id, s) {
          StepPath(g, s, d);
          JoinPaths(g, id, s, d);
        }
      }
    }
  }

  lemma FewerRunningRanked(f: Fleet, f1: Fleet)
    requires WellFormed(f) && WellFormed(f1) && Ranked(f)
    requires RunningIn(f1.status) <= RunningIn(f.status)
    requires forall s | s in RunningIn(f1.status) :: f1.deps[s] == f.deps[s]
    ensures Ranked(f1)
  {
    var h: map<Name, nat> :| h.Keys == RunningIn(f.status) && Ranks(G(f), RunningIn(f.status), h);
    var h1 := map s | s in RunningIn(f1.status) :: h[s];
    assert Ranks(G(f1), RunningIn(f1.status), h1);
  }

  lemma HaltKeepsClosed(f: Fleet, id: Name)
    requires WellFormed(f) && Closed(f) && id in f.status
    ensures WellFormed(Halted(f, id)) && Closed(Halted(f, id))
    ensures forall s | s in f.status && Halted(f, id).status[s] == Running :: s != id && id !in f.deps[s]
  {
    var g, running, f1 := G(f), RunningIn(f.status), Halted(f, id);
    TopplesSelf(g, running, id);
    forall s, d | s in f.status && f1.status[s] == Running && d in f.deps[s]
      ensures d in f.status && f1.status[d] == Running && d != id
    {
      assert s in running;
      TopplesDirect(g, running, s, d);
      if Topples(g, running, d, id) {
        if d in running { TopplesThrough(g, running, s, d, id); }
      }
    }
  }

  lemma ApplyKeepsRanked(f: Fleet, op: Op)
    requires WellFormed(f) && Ranked(f)
    ensures WellFormed(Apply(f, op)) && Ranked(Apply(f, op))
  {
    if op.Start? { StartKeepsRanked(f, op.id); } else { FewerRunningRanked(f, Apply(f, op)); }
  }

  lemma ApplyKeepsClosed(f: Fleet, op: Op)
    requires WellFormed(f) && Closed(f) && !op.ExecuteRaises?
    ensures WellFormed(Apply(f, op)) && Closed(Apply(f, op))
  {
    hide Topples, Startable;
    match op {
      case Start(id) => StartKeepsClosed(f, id);
      case Stop(id) => if id in f.status { HaltKeepsClosed(f, id); }
      case Unregister(id) => if id in f.status { HaltKeepsClosed(f, id); }
      case _ =>
    }
  }

  /** Without a raising operation handler, the running services stay closed under dependencies in every run. */
  lemma {:induction false} EveryRunClosed(f: Fleet, ops: seq<Op>)
    requires Inv(f) && forall op | op in ops :: !op.ExecuteRaises?
    ensures Inv(Run(f, ops))
    decreases |ops|
  {
    if ops != [] {
      ApplyKeepsClosed(f, ops[0]);
      ApplyKeepsRanked(f, ops[0]);
      EveryRunClosed(Apply(f, ops[0]), ops[1..]);
    }
  }

  /** Even with handlers raising, no run ever has running services depending on each other in a loop. */
  lemma {:induction false} EveryRunAcyclic(f: Fleet, ops: seq<Op>)
    requires WellFormed(f) && Ranked(f)
    ensures WellFormed(Run(f, ops)) && Ranked(Run(f, ops))
    decreases |ops|
  {
    if ops != [] {
      ApplyKeepsRanked(f, ops[0]);
      EveryRunAcyclic(Apply(f, ops[0]), ops[1..]);
    }
  }

  /** A raising handler leaves the running services closed exactly when no running service needs the failed one. */
  lemma RaisingHandlerKeepsClosed(f: Fleet, id: Name)
    requires WellFormed(f) && Closed(f) && id in f.status && f.status[id] == Running
    ensures Closed(Apply(f, ExecuteRaises(id))) <==> forall s | s in f.status && f.status[s] == Running && s != id :: id !in f.deps[s]
  {
    var f1 := Apply(f, ExecuteRaises(id));
    if Closed(f1) {
      forall s | s in f.status && f.status[s] == Running && s != id ensures id !in f.deps[s] {
        assert f1.status[s] == Running;
      }
    }
  }

  /** Such a run: start a, which brings up the b it needs, and let b's handler raise. */
  lemma RaisingHandlerBreaksClosure(a: Name, b: Name)
    requires a != b
    ensures var f := Fleet(map[a := [b], b := []], map[a := Running, b := Running]);
      Inv(f) && !Closed(Apply(f, ExecuteRaises(b)))
  {
    var f := Fleet(map[a := [b], b := []], map[a := Running, b := Running]);
    var h: map<Name, nat> := map[a := 0, b := 1];
    assert RunningIn(f.status) == {a, b} == h.Keys;
    assert Ranks(G(f), RunningIn(f.status), h);
    RaisingHandlerKeepsClosed(f, b);
    assert b in f.deps[a] && f.status[a] == Running;
  }

  // ---- what each operation leaves ----

  lemma {:induction false} PathWithin(g: Graph, s: set<Name>, p: seq<Name>)
    requires IsPath(g, p) && p[0] in s && forall x, d | x in s && x in g.succ && d in g.succ[x] :: d in s
    ensures p[|p| - 1] in s
  {
    if |p| > 1 {
      TailPath(g, p);
      PathWithin(g, s, p[..|p| - 1]);
      assert p[|p| - 2] in g.succ && p[|p| - 2 + 1] in g.succ[p[|p| - 2]];
    }
  }

  /** A start that goes through adds to the running services no more than keeping them closed takes: what then runs is
      within every set of names that holds them, the service, and all that its members need. Other statuses stay. */
  lemma StartLeast(f: Fleet, id: Name, s: set<Name>)
    requires WellFormed(f) && Startable(f, id)
    requires RunningIn(f.status) <= s && id in s && forall x, d | x in s && x in f.deps && d in f.deps[x] :: d in s
    ensures var w := Started(f, id);
      && w.deps == f.deps && w.status.Keys == f.status.Keys
      && RunningIn(f.status) + {id} <= RunningIn(w.status) <= s
      && forall x | x in f.status :: w.status[x] == Running || w.status[x] == f.status[x]
  {
    TrivialPath(G(f), id);
    forall x | Reaches(G(f), id, x) ensures x in s {
      var p :| PathFrom(G(f), p, id, x);
      PathWithin(G(f), s, p);
    }
  }

  /** A stop leaves STOPPED the service and every running one that transitively needs it, and nothing else changed. */
  lemma StopLeaves(f: Fleet, id: Name)
    requires WellFormed(f) && Closed(f) && id in f.status
    ensures var w := Halted(f, id);
      && w.deps == f.deps && w.status.Keys == f.status.Keys
      && forall s | s in f.status ::
           w.status[s] == if s == id || (f.status[s] == Running && Reaches(G(f), s, id)) then Stopped else f.status[s]
  {
    forall s | s in f.status { StopTakesDependents(f, id, s); }
  }

  /** Unregistering forgets the service, and stops what ran on it. */
  lemma UnregisterLeaves(f: Fleet, id: Name)
    requires WellFormed(f) && Closed(f) && id in f.status
    ensures var w := Apply(f, Unregister(id));
      && w.deps == f.deps - {id} && w.status.Keys == f.status.Keys - {id}
      && forall s | s in w.status ::
           w.status[s] == if f.status[s] == Running && Reaches(G(f), s, id) then Stopped else f.status[s]
  {
    StopLeaves(f, id);
    forall s | s in f.status && f.status[s] == Running && Reaches(G(f), s, id) ensures f.status[id] == Running {
      var p :| PathFrom(G(f), p, s, id);
      ClosedPath(f, p);
    }
  }

  /** The other operations set one status, or none: REGISTERED when new, STOPPED by an initialization unless running, FAILED by a
      failing operation of a running service. */
  lemma StatusSet(f: Fleet, id: Name, deps: seq<Name>)
    ensures id !in f.status ==>
      && Apply(f, Register(id, deps)) == Fleet(f.deps[id := deps], f.status[id := Registered])
      && Apply(f, Initialize(id)) == f && Apply(f, ExecuteRaises(id)) == f
    ensures id in f.status ==>
      && Apply(f, Register(id, deps)) == f
      && Apply(f, Initialize(id)).status == (if f.status[id] == Running then f.status else f.status[id := Stopped])
      && Apply(f, ExecuteRaises(id)).status == (if f.status[id] == Running then f.status[id := Failed] else f.status)
      && Apply(f, Initialize(id)).deps == f.deps && Apply(f, ExecuteRaises(id)).deps == f.deps
      && (f.status[id] in {Registered, Stopped, Stopping, Failed} ==>
            Apply(f, Unregister(id)) == Fleet(f.deps - {id}, f.status - {id}))
  {}

  /** The dependencies an id was registered with, since it was last free. */
  function Declared(ops: seq<Op>, id: Name, was: Option<seq<Name>>): Option<seq<Name>>
    decreases |ops|
  {
    if ops == [] then was
    else
      Declared(ops[1..], id,
        if ops[0].Register? && ops[0].id == id && was == None then Some(ops[0].deps)
        else if ops[0].Unregister? && ops[0].id == id then None
        else was)
  }

  function DepsOf(f: Fleet, id: Name): Option<seq<Name>> {
    if id in f.deps then Some(f.deps[id]) else None
  }

  /** Through every run, a service's dependencies are those it was registered with. */
  lemma {:induction false} DependenciesKept(f: Fleet, ops: seq<Op>, id: Name)
    requires WellFormed(f)
    ensures WellFormed(Run(f, ops)) && DepsOf(Run(f, ops), id) == Declared(ops, id, DepsOf(f, id))
    decreases |ops|
  {
    if ops != [] {
      DependenciesStep(f, ops[0], id);
      DependenciesKept(Apply(f, ops[0]), ops[1..], id);
    }
  }

  lemma DependenciesStep(f: Fleet, op: Op, id: Name)
    requires WellFormed(f)
    ensures WellFormed(Apply(f, op))
    ensures DepsOf(Apply(f, op), id) ==
      if op.Register? && op.id == id && DepsOf(f, id) == None then Some(op.deps)
      else if op.Unregister? && op.id == id then None
      else DepsOf(f, id)
  {
    hide Topples, Startable;
  }
}
