/** The enable/disable policy the application applies before a start. */
module ComponentPolicy {
  import opened Names
  import opened DependencyGraph
  import opened RuntimeSpec
  import opened RuntimeClass

  /** Nothing outside `off` depends on something inside it. */
  ghost predicate Cascaded(deps: map<Name, set<Name>>, off: set<Name>) {
    forall n | n in deps && n !in off :: deps[n] !! off
  }

  /** The smallest such set that includes the requested components. */
  ghost predicate IsCascade(deps: map<Name, set<Name>>, requested: set<Name>, off: set<Name>) {
    && requested <= off && Cascaded(deps, off)
    && forall s | requested <= s && Cascaded(deps, s) :: off <= s
  }

  ghost predicate LeadsTo(v: View, n: Name, requested: set<Name>) {
    exists r :: r in requested && Reaches(GraphOf(v), n, r)
  }

  /** A component is switched off exactly when some chain of dependencies leads from it to a requested one. */
  lemma CascadeIsReachability(v: View, requested: set<Name>, off: set<Name>)
    requires WellFormed(v) && requested <= v.deps.Keys && IsCascade(v.deps, requested, off)
    ensures forall n :: n in off <==> exists r :: r in requested && Reaches(GraphOf(v), n, r)
  {
    hide Reaches, GraphOf, WellFormed;
    LeadersCascade(v, requested, off);
    forall n, r | r in requested && Reaches(GraphOf(v), n, r) ensures n in off { LeadsIntoOff(v, off, n, r); }
    forall n | n in off ensures LeadsTo(v, n, requested) {}
  }

  /** Those among `off` that lead to a requested one are closed under depending on one, so they are all of it. */
  lemma LeadersCascade(v: View, requested: set<Name>, off: set<Name>)
    requires WellFormed(v) && requested <= v.deps.Keys && IsCascade(v.deps, requested, off)
    ensures forall n | n in off :: LeadsTo(v, n, requested)
  {
    hide LeadsTo, GraphOf, WellFormed;
    var s := set n | n in off && LeadsTo(v, n, requested);
    forall r | r in requested ensures r in s { RequestedLeads(v, r, requested); }
    forall n, d | n in v.deps && n !in s && d in v.deps[n] ensures d !in s {
      if d in s { NeedsLead(v, n, d, requested); }
    }
    assert Cascaded(v.deps, s);
    assert off <= s;
  }

  lemma RequestedLeads(v: View, r: Name, requested: set<Name>)
    requires r in requested
    ensures LeadsTo(v, r, requested)
  {
    TrivialPath(GraphOf(v), r);
  }

  lemma NeedsLead(v: View, n: Name, d: Name, requested: set<Name>)
    requires n in v.deps && d in v.deps[n] && LeadsTo(v, d, requested)
    ensures LeadsTo(v, n, requested)
  {
    var r :| r in requested && Reaches(GraphOf(v), d, r);
    assert d in Elems(GraphOf(v).succ[n]);
    StepPath(GraphOf(v), n, d);
    JoinPaths(GraphOf(v), n, d, r);
  }

  lemma LeadsIntoOff(v: View, off: set<Name>, n: Name, r: Name)
    requires Cascaded(v.deps, off) && r in off && Reaches(GraphOf(v), n, r)
    ensures n in off
  {
    var p :| PathFrom(GraphOf(v), p, n, r);
    PathIntoOff(v, off, p);
  }

  lemma {:induction false} PathIntoOff(v: View, off: set<Name>, p: seq<Name>)
    requires Cascaded(v.deps, off) && IsPath(GraphOf(v), p) && p[|p| - 1] in off
    ensures p[0] in off
  {
    if |p| > 1 {
      assert IsPath(GraphOf(v), p[1..]) by {
        forall k | 0 <= k < |p[1..]| - 1
          ensures p[1..][k] in GraphOf(v).succ && p[1..][k + 1] in GraphOf(v).succ[p[1..][k]]
        {
          assert p[1..][k] == p[k + 1] && p[1..][k + 1] == p[k + 2];
        }
      }
      PathIntoOff(v, off, p[1..]);
      assert p[1] in Elems(GraphOf(v).succ[p[0]]);
    }
  }

  function SwitchOff(v: View, off: set<Name>): View {
    v.(enabled := map n | n in v.deps.Keys :: n !in off)
  }

  /** With the cascade applied to registered, acyclic dependencies, ordering succeeds and lists the complement. */
  lemma CascadedStartSucceeds(v: View, requested: set<Name>, off: set<Name>)
    requires WellFormed(v) && IsCascade(v.deps, requested, off)
    requires forall n | n in v.deps :: v.deps[n] <= v.deps.Keys && !OnCycle(GraphOf(v), n)
    ensures var w := SwitchOff(v, off);
      && StartOrder(w).Ok? && IsStartOrder(GraphOf(w), StartOrder(w).value)
      && Elems(StartOrder(w).value) == v.deps.Keys - off
  {
    var w := SwitchOff(v, off);
    var g := GraphOf(w);
    assert g.succ.Keys - g.off == v.deps.Keys - off;
    SearchDecides(g, w.components);
    forall c, f | c in g.succ && c !in g.off ensures !Blames(g, c, f) {
      NothingToBlame(v, off, c, f);
    }
  }

  lemma NothingToBlame(v: View, off: set<Name>, c: Name, f: Fault)
    requires WellFormed(v) && Cascaded(v.deps, off) && c in v.deps && c !in off
    requires forall n | n in v.deps :: v.deps[n] <= v.deps.Keys && !OnCycle(GraphOf(v), n)
    ensures !Blames(GraphOf(SwitchOff(v, off)), c, f)
  {
    var w := SwitchOff(v, off);
    var g := GraphOf(w);
    if Blames(g, c, f) {
      var n := match f case Cycle(n) => n case Missing(n) => n case DependsOnDisabled(n, _) => n;
      var p :| PathFrom(g, p, c, n);
      StaysRegistered(w, p);
      if f.Cycle? { CycleKept(v, w, n); }
    }
  }

  lemma CycleKept(v: View, w: View, n: Name)
    requires v.deps == w.deps && OnCycle(GraphOf(w), n)
    ensures OnCycle(GraphOf(v), n)
  {
    var p :| PathFrom(GraphOf(w), p, n, n) && |p| >= 2;
    assert GraphOf(v).succ == GraphOf(w).succ;
    assert PathFrom(GraphOf(v), p, n, n);
  }

  lemma {:induction false} StaysRegistered(w: View, p: seq<Name>)
    requires WellFormed(w) && forall n | n in w.deps :: w.deps[n] <= w.deps.Keys
    requires Cascaded(w.deps, GraphOf(w).off)
    requires IsPath(GraphOf(w), p) && p[0] in w.deps && w.enabled[p[0]]
    ensures p[|p| - 1] in w.deps && w.enabled[p[|p| - 1]]
  {
    if |p| > 1 {
      assert p[1] in Elems(GraphOf(w).succ[p[0]]);
      assert IsPath(GraphOf(w), p[1..]) by {
        forall k | 0 <= k < |p[1..]| - 1
          ensures p[1..][k] in GraphOf(w).succ && p[1..][k + 1] in GraphOf(w).succ[p[1..][k]]
        {
          assert p[1..][k] == p[k + 1] && p[1..][k + 1] == p[k + 2];
        }
      }
      assert p[1] !in GraphOf(w).off;
      StaysRegistered(w, p[1..]);
    }
  }

  /** The `while changed` loop: disable every component that depends on a disabled one, until none is left. */
  method Cascade(components: seq<Name>, deps: map<Name, set<Name>>, requested: set<Name>) returns (disabled: set<Name>)
    requires Elems(components) == deps.Keys && requested <= deps.Keys
    ensures IsCascade(deps, requested, disabled) && disabled <= deps.Keys
  {
    disabled := requested;
    var changed := true;
    while changed
      invariant requested <= disabled <= deps.Keys
      invariant forall s | requested <= s && Cascaded(deps, s) :: disabled <= s
      invariant !changed ==> Cascaded(deps, disabled)
      decreases |deps.Keys - disabled|, changed
    {
      ghost var before := disabled;
      disabled, changed := Sweep(components, deps, requested, disabled);
      if changed {
        assert deps.Keys - disabled < deps.Keys - before;
        SubsetSize(deps.Keys - disabled, deps.Keys - before);
      }
    }
  }

  method Sweep(components: seq<Name>, deps: map<Name, set<Name>>, ghost requested: set<Name>, before: set<Name>)
    returns (disabled: set<Name>, changed: bool)
    requires Elems(components) == deps.Keys && requested <= before <= deps.Keys
    requires forall s | requested <= s && Cascaded(deps, s) :: before <= s
    ensures before <= disabled <= deps.Keys
    ensures forall s | requested <= s && Cascaded(deps, s) :: disabled <= s
    ensures if changed then before < disabled else disabled == before && Cascaded(deps, before)
  {
    disabled, changed := before, false;
    for i := 0 to |components|
      invariant before <= disabled <= deps.Keys
      invariant forall s | requested <= s && Cascaded(deps, s) :: disabled <= s
      invariant if changed then before < disabled else disabled == before
      invariant !changed ==> forall n | n in components[..i] && n !in before :: n in deps && deps[n] !! before
    {
      var component := components[i];
      assert component in Elems(components);
      if component !in disabled && exists dep | dep in deps[component] :: dep in disabled {
        disabled := disabled + {component};
        changed := true;
      }
      assert components[..i + 1] == components[..i] + [component];
    }
    assert components[..|components|] == components;
    assert forall n | n in deps :: n in Elems(components);
  }

  /** The enable flags once those of the listed components have been written. */
  function Flags(enabled: map<Name, bool>, written: seq<Name>, off: set<Name>): map<Name, bool>
    decreases |written|
  {
    if written == [] then enabled
    else Flags(enabled, Front(written), off)[Last(written) := Last(written) !in off]
  }

  lemma {:induction false} FlagsOf(enabled: map<Name, bool>, written: seq<Name>, off: set<Name>)
    requires Elems(written) <= enabled.Keys
    ensures Flags(enabled, written, off) ==
      map n | n in enabled :: if n in Elems(written) then n !in off else enabled[n]
    decreases |written|
  {
    if written != [] {
      assert Elems(written) == Elems(Front(written)) + {Last(written)};
      FlagsOf(enabled, Front(written), off);
    }
  }

  lemma FlagsOfAll(enabled: map<Name, bool>, all: seq<Name>, off: set<Name>)
    requires Elems(all) == enabled.Keys
    ensures Flags(enabled, all, off) == map n | n in enabled.Keys :: n !in off
  {
    FlagsOf(enabled, all, off);
  }

  /** `_apply_component_policy`: compute the cascade, then write the enable flag of every component. */
  method Apply(runtime: Runtime, requested: set<Name>) returns (disabled: set<Name>, raised: bool)
    requires WellFormed(runtime.Now()) && requested <= runtime.deps.Keys
    modifies runtime
    ensures IsCascade(runtime.deps, requested, disabled) && disabled <= runtime.deps.Keys
    ensures raised <==> old(runtime.state) != Stopped && runtime.components != []
    ensures runtime.Now() == if raised then old(runtime.Now())
                             else SwitchOff(old(runtime.Now()), disabled)
  {
    hide IsCascade;
    disabled := Cascade(runtime.components, runtime.deps, requested);
    var all := runtime.components;
    ghost var start := runtime.Now();
    for i := 0 to |all|
      invariant runtime.Now() == start.(enabled := runtime.enabled)
      invariant i > 0 ==> runtime.state == Stopped
      invariant runtime.enabled == Flags(start.enabled, all[..i], disabled)
    {
      var component := all[i];
      assert component in Elems(all);
      assert Front(all[..i + 1]) == all[..i];
      var problem := runtime.SetEnabled(component, component !in disabled);
      if problem.Some? { return disabled, true; }
    }
    assert all[..|all|] == all;
    FlagsOfAll(start.enabled, all, disabled);
    return disabled, false;
  }
}
