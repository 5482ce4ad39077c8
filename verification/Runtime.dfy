/** `Runtime` as a class: fields updated step by step, each method tied to `RuntimeSpec`. */
module RuntimeClass {
  import opened Names
  import opened DependencyGraph
  import opened RuntimeSpec
  import opened SearchState

  lemma SameOrder(v: View)
    ensures GraphOf(Cleared(v)) == GraphOf(v) && StartOrder(Cleared(v)) == StartOrder(v)
  {}

  class Runtime {
    var state: RuntimeState
    var components: seq<Name>
    var handlers: set<Name>
    var deps: map<Name, set<Name>>
    var componentState: map<Name, ComponentState>
    var enabled: map<Name, bool>
    var initialized: seq<Name>
    var error: Option<Problem>
    var shutdownErrors: seq<Name>
    ghost var log: seq<Event>

    ghost function Now(): View
      reads this
    {
      View(state, components, handlers, deps, componentState, enabled, initialized, error, shutdownErrors, log)
    }

    constructor ()
      ensures Now() == FRESH
    {
      state, components, handlers, deps := Stopped, [], {}, map[];
      componentState, enabled, initialized := map[], map[], [];
      error, shutdownErrors, log := None, [], [];
    }

    method RegisterComponent(name: Name, needs: set<Name>, hasHandler: bool) returns (raised: Option<Problem>)
      modifies this
      ensures Now() == Apply(old(Now()), Op.RegisterComponent(name, needs, hasHandler))
      ensures raised.Some? <==> old(state) != Stopped || name in old(components)
      ensures raised.Some? ==> unchanged(this)
      ensures raised == None ==>
        && components == old(components) + [name] && deps == old(deps)[name := needs] && enabled == old(enabled)[name := true]
        && handlers == old(handlers) + if hasHandler then {name} else {}
    {
      if state != Stopped { return Some(WrongState(state)); }
      if name in components { return Some(AlreadyRegistered(name)); }
      components := components + [name];
      deps := deps[name := needs];
      componentState := componentState[name := Registered];
      enabled := enabled[name := true];
      if hasHandler { handlers := handlers + {name}; }
      return None;
    }

    method SetDependencies(name: Name, needs: set<Name>) returns (raised: Option<Problem>)
      modifies this
      ensures Now() == Apply(old(Now()), Op.SetDependencies(name, needs))
      ensures deps == if raised == None then old(deps)[name := needs] else old(deps)
      ensures raised.Some? <==> old(state) != Stopped || name !in components
    {
      if state != Stopped { return Some(WrongState(state)); }
      if name !in components { return Some(NotRegistered(name)); }
      deps := deps[name := needs];
      return None;
    }

    method SetEnabled(name: Name, on: bool) returns (raised: Option<Problem>)
      modifies this
      ensures Now() == Apply(old(Now()), Op.SetEnabled(name, on))
      ensures enabled == if raised == None then old(enabled)[name := on] else old(enabled)
      ensures raised.Some? <==> old(state) != Stopped || name !in components
    {
      if state != Stopped { return Some(WrongState(state)); }
      if name !in components { return Some(NotRegistered(name)); }
      enabled := enabled[name := on];
      return None;
    }

    method Visit(s: Search, name: Name) returns (raised: Option<Fault>)
      requires WellFormed(Now()) && s.visited == Elems(s.order)
      modifies s
      ensures match DependencyGraph.Visit(GraphOf(Now()), name, old(s.visiting), old(s.order))
        case Ok(o) => raised == None && s.order == o && s.visiting == old(s.visiting) && s.visited == Elems(o)
        case Err(f) => raised == Some(f)
      decreases |deps.Keys - s.visiting|, 0
    {
      hide VisitEach, DepsFirst, Sorted, Distinct;
      ghost var g := GraphOf(Now());
      if name in s.visiting { return Some(Cycle(name)); }
      if name in s.visited { return None; }
      assert name in components <==> name in deps by { assert name in components <==> name in Elems(components); }
      if name !in components { return Some(Missing(name)); }
      FewerLeft(deps.Keys, s.visiting, name);
      s.visiting := s.visiting + {name};
      raised := VisitDependencies(s, name);
      assert GraphOf(Now()) == g;
      if raised.Some? { return; }
      PutBack(old(s.visiting), name);
      ElemsAppend(s.order, name);
      s.visiting := s.visiting - {name};
      s.visited := s.visited + {name};
      s.order := s.order + [name];
    }

    /** The loop of `visit` over the sorted dependencies of a component. */
    method VisitDependencies(s: Search, name: Name) returns (raised: Option<Fault>)
      requires WellFormed(Now()) && s.visited == Elems(s.order) && name in deps
      modifies s
      ensures match VisitEach(GraphOf(Now()), name, Sorted(deps[name]), old(s.visiting), old(s.order))
        case Ok(o) => raised == None && s.order == o && s.visiting == old(s.visiting) && s.visited == Elems(o)
        case Err(f) => raised == Some(f)
      decreases |deps.Keys - s.visiting|, 1
    {
      ghost var g := GraphOf(Now());
      ghost var visiting0, order0 := s.visiting, s.order;
      var todo := Sorted(deps[name]);
      for i := 0 to |todo|
        invariant s.visited == Elems(s.order) && s.visiting == visiting0
        invariant VisitEach(g, name, todo[i..], visiting0, s.order) == VisitEach(g, name, todo, visiting0, order0)
      {
        var on := if todo[i] in enabled then enabled[todo[i]] else true;
        if !on { return Some(DependsOnDisabled(name, todo[i])); }
        assert todo[i..][1..] == todo[i + 1..];
        raised := Visit(s, todo[i]);
        if raised.Some? { return; }
      }
      return None;
    }

    method GetStartOrder() returns (r: Result<seq<Name>>)
      requires WellFormed(Now())
      ensures r == StartOrder(Now())
    {
      var s := new Search();
      ghost var g := GraphOf(Now());
      for i := 0 to |components|
        invariant fresh(s) && s.visited == Elems(s.order) && s.visiting == {}
        invariant VisitRoots(g, components[i..], s.order) == VisitRoots(g, components, [])
      {
        var name := components[i];
        assert name in Elems(components);
        assert components[i..][1..] == components[i + 1..];
        if enabled[name] {
          var raised := Visit(s, name);
          if raised.Some? { return Err(raised.value); }
        }
      }
      return Ok(s.order);
    }

    method Start(initFails: set<Name>, stopFails: set<Name>) returns (raised: Option<Problem>)
      requires WellFormed(Now())
      modifies this
      ensures Now() == RuntimeSpec.Start(old(Now()), initFails, stopFails)
      ensures raised == None <==> state == Running
      ensures raised.Some? ==> raised == if old(state) == Stopped || old(state) == Failed then error else Some(WrongState(old(state)))
    {
      if state == Running { return None; }
      if state != Stopped && state != Failed { return Some(WrongState(state)); }
      ghost var before := Now();
      error, shutdownErrors, initialized := None, [], [];
      state := Starting;
      state := Initializing;
      assert Now() == Cleared(before);
      var ordered := GetStartOrder();
      SameOrder(before);
      if ordered.Err? {
        error := Some(BadOrder(ordered.fault));
        state := Failed;
        ShutdownInitialized(stopFails);
        initialized := [];
        return error;
      }
      MarkDisabledComponents();
      raised := InitializeAll(ordered.value, initFails, stopFails);
    }

    method MarkDisabledComponents()
      modifies this`componentState
      ensures componentState == MarkDisabled(old(componentState), GraphOf(old(Now())).off)
    {
      componentState := map n | n in componentState ::
        if n in enabled && !enabled[n] then Disabled else componentState[n];
    }

    /** The loop of `start` over the resolved order. */
    method InitializeAll(order: seq<Name>, initFails: set<Name>, stopFails: set<Name>) returns (raised: Option<Problem>)
      requires state == Initializing
      modifies this
      ensures Now() == Boot(old(Now()), order, initFails, stopFails)
      ensures raised == None <==> state == Running
      ensures raised.Some? ==> raised == error
    {
      ghost var booting := Now();
      for i := 0 to |order|
        invariant Boot(Now(), order[i..], initFails, stopFails) == Boot(booting, order, initFails, stopFails)
        invariant state == Initializing
      {
        assert order[i..][1..] == order[i + 1..];
        var ok := InitializeOne(order[i], initFails);
        if !ok {
          ShutdownInitialized(stopFails);
          initialized := [];
          return error;
        }
      }
      state := Running;
      return None;
    }

    method InitializeOne(name: Name, initFails: set<Name>) returns (ok: bool)
      modifies this
      ensures ok <==> name !in initFails
      ensures Now() == if ok then BringUp(old(Now()), name) else GiveUp(old(Now()), name)
      ensures !ok ==> error.Some?
    {
      ghost var before := Now();
      Overwrite(componentState, name, Launching, Broken);
      Overwrite(componentState, name, Launching, Active);
      componentState := componentState[name := Launching];
      if name in initFails {
        error := Some(InitializerRaised(name));
        state := Failed;
        componentState := componentState[name := Broken];
        log := log + [UpFailed(name, NeedsOf(before, name))];
        return false;
      }
      log := log + [Up(name, NeedsOf(before, name))];
      initialized := initialized + [name];
      componentState := componentState[name := Active];
      return true;
    }

    method ShutdownInitialized(stopFails: set<Name>)
      modifies this
      ensures Now() == Shutdown(old(Now()), old(initialized), stopFails)
      ensures state == old(state) && error == old(error)
    {
      var i := |initialized|;
      assert initialized[..i] == initialized;
      while i > 0
        invariant 0 <= i <= |initialized| && initialized == old(initialized)
        invariant Shutdown(Now(), initialized[..i], stopFails) == Shutdown(old(Now()), old(initialized), stopFails)
        invariant state == old(state) && error == old(error)
      {
        i := i - 1;
        assert Front(initialized[..i + 1]) == initialized[..i];
        ShutdownOne(initialized[i], stopFails);
      }
    }

    method ShutdownOne(name: Name, stopFails: set<Name>)
      modifies this
      ensures Now() == TakeDown(old(Now()), name, stopFails)
    {
      Overwrite(componentState, name, Stopping, Broken);
      Overwrite(componentState, name, Stopping, Halted);
      log := log + [Down(name)];
      if name !in handlers {
        componentState := componentState[name := Halted];
        return;
      }
      componentState := componentState[name := Stopping];
      if name in stopFails {
        shutdownErrors := shutdownErrors + [name];
        componentState := componentState[name := Broken];
        return;
      }
      componentState := componentState[name := Halted];
    }

    method Stop(stopFails: set<Name>)
      modifies this
      ensures Now() == RuntimeSpec.Stop(old(Now()), stopFails)
      ensures old(state) == Stopped || old(state) == ShuttingDown ==> unchanged(this)
    {
      if state == Stopped { return; }
      if state == ShuttingDown { return; }
      state := ShuttingDown;
      ShutdownInitialized(stopFails);
      initialized := [];
      state := Stopped;
    }

    method Restart(stopFails: set<Name>, initFails: set<Name>, rollbackFails: set<Name>) returns (raised: Option<Problem>)
      requires Inv(Now())
      modifies this
      ensures Now() == Apply(old(Now()), DoRestart(stopFails, initFails, rollbackFails))
      ensures Inv(Now()) && (raised == None <==> state == Running)
      ensures state == Running ==> log == old(log) + Downs(old(initialized)) + Ups(Now(), initialized)
    {
      ghost var before := Now();
      RestartOutcome(before, stopFails, initFails, rollbackFails);
      if state != Stopped {
        StopOutcome(Now(), stopFails);
        Stop(stopFails);
      }
      raised := Start(initFails, rollbackFails);
      ApplyKeeps(before, DoRestart(stopFails, initFails, rollbackFails));
      if state == Running { assert Ups(Now(), initialized) == Ups(before, initialized); }
    }
  }
}
