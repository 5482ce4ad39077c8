/** The lifecycle of `Runtime` as functions on its state, and what every run of it keeps. */
module RuntimeSpec {
  import opened Names
  import opened DependencyGraph

  function Front<T>(s: seq<T>): seq<T>
    requires s != []
  {
    s[..|s| - 1]
  }

  function Last<T>(s: seq<T>): T
    requires s != []
  {
    s[|s| - 1]
  }

  datatype RuntimeState = Stopped | Starting | Initializing | Running | ShuttingDown | Failed

  datatype ComponentState = Registered | Disabled | Launching | Active | Stopping | Halted | Broken

  datatype Problem =
    | BadOrder(fault: Fault)
    | InitializerRaised(name: Name)
    | WrongState(state: RuntimeState)
    | AlreadyRegistered(name: Name)
    | NotRegistered(name: Name)

  /** What the runtime did to components, oldest first; `needs` are the dependencies at that moment. */
  datatype Event =
    | Up(name: Name, needs: set<Name>)
    | UpFailed(name: Name, needs: set<Name>)
    | Down(name: Name)

  datatype View = View(
    state: RuntimeState,
    components: seq<Name>,
    handlers: set<Name>,
    deps: map<Name, set<Name>>,
    componentState: map<Name, ComponentState>,
    enabled: map<Name, bool>,
    initialized: seq<Name>,
    error: Option<Problem>,
    shutdownErrors: seq<Name>,
    log: seq<Event>)

  const FRESH := View(Stopped, [], {}, map[], map[], map[], [], None, [], [])

  ghost predicate WellFormed(v: View) {
    && Distinct(v.components)
    && Elems(v.components) == v.deps.Keys == v.componentState.Keys == v.enabled.Keys
    && v.handlers <= v.deps.Keys
  }

  function GraphOf(v: View): Graph {
    Graph(map n | n in v.deps :: Sorted(v.deps[n]), set n | n in v.enabled && !v.enabled[n])
  }

  /** `get_start_order`: visit the registered components in registration order. */
  function StartOrder(v: View): Result<seq<Name>> {
    VisitRoots(GraphOf(v), v.components, [])
  }

  // ---- operations; `initFails` and `stopFails` are the handlers that raise during the call ----

  function MarkDisabled(states: map<Name, ComponentState>, off: set<Name>): map<Name, ComponentState> {
    map n | n in states :: if n in off then Disabled else states[n]
  }

  function Cleared(v: View): View {
    v.(state := Initializing, error := None, shutdownErrors := [], initialized := [])
  }

  function Start(v: View, initFails: set<Name>, stopFails: set<Name>): View {
    if v.state != Stopped && v.state != Failed then v
    else
      var v0 := Cleared(v);
      match StartOrder(v)
      case Err(f) => v0.(state := Failed, error := Some(BadOrder(f)))
      case Ok(order) =>
        Boot(v0.(componentState := MarkDisabled(v0.componentState, GraphOf(v).off)), order, initFails, stopFails)
  }

  function NeedsOf(v: View, n: Name): set<Name> {
    if n in v.deps then v.deps[n] else {}
  }

  function BringUp(v: View, n: Name): View {
    v.(componentState := v.componentState[n := Active], initialized := v.initialized + [n],
       log := v.log + [Up(n, NeedsOf(v, n))])
  }

  function GiveUp(v: View, n: Name): View {
    v.(state := Failed, error := Some(InitializerRaised(n)), componentState := v.componentState[n := Broken],
       log := v.log + [UpFailed(n, NeedsOf(v, n))])
  }

  function Boot(v: View, order: seq<Name>, initFails: set<Name>, stopFails: set<Name>): View
    decreases |order|
  {
    if order == [] then v.(state := Running)
    else if order[0] in initFails then
      Shutdown(GiveUp(v, order[0]), v.initialized, stopFails).(initialized := [])
    else
      Boot(BringUp(v, order[0]), order[1..], initFails, stopFails)
  }

  /** Shut down the listed components, last one first. */
  function Shutdown(v: View, todo: seq<Name>, stopFails: set<Name>): View
    decreases |todo|
  {
    if todo == [] then v else Shutdown(TakeDown(v, Last(todo), stopFails), Front(todo), stopFails)
  }

  function TakeDown(v: View, n: Name, stopFails: set<Name>): View {
    var raises := n in v.handlers && n in stopFails;
    v.(componentState := v.componentState[n := if raises then Broken else Halted],
       shutdownErrors := if raises then v.shutdownErrors + [n] else v.shutdownErrors,
       log := v.log + [Down(n)])
  }

  function Stop(v: View, stopFails: set<Name>): View {
    if v.state == Stopped || v.state == ShuttingDown then v
    else Shutdown(v.(state := ShuttingDown), v.initialized, stopFails).(initialized := [], state := Stopped)
  }

  datatype Op =
    | RegisterComponent(name: Name, needs: set<Name>, hasHandler: bool)
    | SetDependencies(name: Name, needs: set<Name>)
    | SetEnabled(name: Name, on: bool)
    | DoStart(initFails: set<Name>, stopFails: set<Name>)
    | DoStop(stopFails: set<Name>)
    | DoRestart(stopFails: set<Name>, initFails: set<Name>, rollbackFails: set<Name>)

  function Apply(v: View, op: Op): View {
    match op
    case RegisterComponent(n, needs, hasHandler) =>
      if v.state != Stopped || n in v.components then v
      else v.(components := v.components + [n], deps := v.deps[n := needs],
              componentState := v.componentState[n := Registered], enabled := v.enabled[n := true],
              handlers := if hasHandler then v.handlers + {n} else v.handlers)
    case SetDependencies(n, needs) =>
      if v.state != Stopped || n !in v.components then v else v.(deps := v.deps[n := needs])
    case SetEnabled(n, on) =>
      if v.state != Stopped || n !in v.components then v else v.(enabled := v.enabled[n := on])
    case DoStart(initFails, stopFails) => Start(v, initFails, stopFails)
    case DoStop(stopFails) => Stop(v, stopFails)
    case DoRestart(stopFails, initFails, rollbackFails) =>
      Start(if v.state != Stopped then Stop(v, stopFails) else v, initFails, rollbackFails)
  }

  function Run(v: View, ops: seq<Op>): View
    decreases |ops|
  {
    if ops == [] then v else Run(Apply(v, ops[0]), ops[1..])
  }

  // ---- reading the log: which components are up, and was every step allowed ----

  datatype Entry = Entry(name: Name, needs: set<Name>)

  /** The components up after the log, in the order they came up. */
  function UpAfter(log: seq<Event>): seq<Entry> {
    if log == [] then []
    else
      var up := UpAfter(Front(log));
      match Last(log)
      case Up(n, needs) => up + [Entry(n, needs)]
      case UpFailed(_, _) => up
      case Down(n) => Without(up, n)
  }

  function Without(up: seq<Entry>, n: Name): seq<Entry> {
    if up == [] then []
    else if Last(up).name == n then Front(up)
    else Without(Front(up), n) + [Last(up)]
  }

  function NamesOf(up: seq<Entry>): seq<Name> {
    seq(|up|, i requires 0 <= i < |up| => up[i].name)
  }

  /** Every initializer ran while all its dependencies were up; every shutdown hit the component that
      came up last among those still up, and none still up needed it. */
  ghost predicate Disciplined(log: seq<Event>) {
    log == [] || (Disciplined(Front(log)) && Allowed(UpAfter(Front(log)), Last(log)))
  }

  ghost predicate Allowed(up: seq<Entry>, e: Event) {
    match e
    case Up(n, needs) => n !in NamesOf(up) && needs <= Elems(NamesOf(up))
    case UpFailed(n, needs) => n !in NamesOf(up) && needs <= Elems(NamesOf(up))
    case Down(n) => up != [] && Last(up).name == n && forall x | x in up :: n !in x.needs
  }

  ghost predicate Stacked(up: seq<Entry>) {
    Distinct(NamesOf(up)) && forall i | 0 <= i < |up| :: up[i].needs <= Elems(NamesOf(up[..i]))
  }

  lemma StackUp(up: seq<Entry>, n: Name, needs: set<Name>)
    requires Stacked(up) && n !in NamesOf(up) && needs <= Elems(NamesOf(up))
    ensures Stacked(up + [Entry(n, needs)])
  {
    var more := up + [Entry(n, needs)];
    assert NamesOf(more) == NamesOf(up) + [n];
    forall i | 0 <= i < |more| ensures more[i].needs <= Elems(NamesOf(more[..i])) {
      assert more[..i] == up[..i];
    }
  }

  lemma StackDown(up: seq<Entry>)
    requires Stacked(up) && up != []
    ensures Stacked(Front(up))
  {
    assert NamesOf(Front(up)) == Front(NamesOf(up));
    forall i | 0 <= i < |Front(up)| ensures Front(up)[i].needs <= Elems(NamesOf(Front(up)[..i])) {
      assert Front(up)[..i] == up[..i];
    }
  }

  lemma {:induction false} DisciplinedStacks(log: seq<Event>)
    requires Disciplined(log)
    ensures Stacked(UpAfter(log))
  {
    hide Stacked;
    if log == [] {
      NothingStacked();
    } else {
      DisciplinedStacks(Front(log));
      var up := UpAfter(Front(log));
      match Last(log) {
        case Up(n, needs) => StackUp(up, n, needs);
        case UpFailed(_, _) =>
        case Down(n) => StackDown(up);
      }
    }
  }

  lemma NothingStacked()
    ensures Stacked([])
  {}

  // ---- the invariant of every run ----

  ghost predicate UpMatches(v: View) {
    && Disciplined(v.log)
    && NamesOf(UpAfter(v.log)) == v.initialized
  }

  ghost predicate Settled(v: View)
    requires WellFormed(v)
  {
    match v.state
    case Stopped => v.initialized == []
    case Failed => v.initialized == []
    case Running =>
      && IsStartOrder(GraphOf(v), v.initialized)
      && (forall n | n in v.deps :: v.componentState[n] == if v.enabled[n] then Active else Disabled)
    case _ => false
  }

  ghost predicate Inv(v: View) {
    WellFormed(v) && UpMatches(v) && Settled(v)
  }

  function Downs(ns: seq<Name>): seq<Event> {
    seq(|ns|, i requires 0 <= i < |ns| => Down(ns[|ns| - 1 - i]))
  }

  function Ups(v: View, ns: seq<Name>): seq<Event> {
    seq(|ns|, i requires 0 <= i < |ns| => Up(ns[i], if ns[i] in v.deps then v.deps[ns[i]] else {}))
  }

  /** Those of the components, last one first, whose shutdown handlers raise. */
  function RaisedBy(v: View, ns: seq<Name>, stopFails: set<Name>): seq<Name> {
    if ns == [] then []
    else (if Last(ns) in v.handlers && Last(ns) in stopFails then [Last(ns)] else []) + RaisedBy(v, Front(ns), stopFails)
  }

  /** What shutting the listed components down makes of the component states. */
  function TakenDown(v: View, ns: seq<Name>, stopFails: set<Name>): map<Name, ComponentState> {
    map n | n in v.componentState ::
      if n !in ns then v.componentState[n] else if n in v.handlers && n in stopFails then Broken else Halted
  }

  lemma TakeDownEffect(v: View, n: Name, stopFails: set<Name>)
    requires n in v.componentState
    ensures var w := TakeDown(v, n, stopFails);
      && w.log == v.log + [Down(n)] && w.componentState.Keys == v.componentState.Keys
      && w == v.(log := w.log, shutdownErrors := w.shutdownErrors, componentState := w.componentState)
      && w.componentState == v.componentState[n := if n in v.handlers && n in stopFails then Broken else Halted]
      && w.shutdownErrors == v.shutdownErrors + if n in v.handlers && n in stopFails then [n] else []
  {}

  /** Shutting down touches only the listed components and logs them in exact reverse order. */
  lemma {:induction false} ShutdownEffect(v: View, todo: seq<Name>, stopFails: set<Name>)
    requires Distinct(todo) && Elems(todo) <= v.componentState.Keys
    ensures var w := Shutdown(v, todo, stopFails);
      && w.log == v.log + Downs(todo)
      && w == v.(log := w.log, shutdownErrors := w.shutdownErrors, componentState := w.componentState)
      && w.componentState == TakenDown(v, todo, stopFails)
      && w.shutdownErrors == v.shutdownErrors + RaisedBy(v, todo, stopFails)
    decreases |todo|
  {
    hide TakeDown;
    if todo != [] {
      var n := Last(todo);
      assert n in Elems(todo);
      assert Elems(Front(todo)) <= Elems(todo);
      TakeDownEffect(v, n, stopFails);
      var v1 := TakeDown(v, n, stopFails);
      ShutdownEffect(v1, Front(todo), stopFails);
      SameRaisers(v, v1, Front(todo), stopFails);
      assert Downs(todo) == [Down(n)] + Downs(Front(todo));
      assert todo == Front(todo) + [n];
      assert TakenDown(v1, Front(todo), stopFails) == TakenDown(v, todo, stopFails);
    } else {
      assert TakenDown(v, todo, stopFails) == v.componentState;
    }
  }

  lemma {:induction false} SameRaisers(v: View, w: View, ns: seq<Name>, stopFails: set<Name>)
    requires w.handlers == v.handlers
    ensures RaisedBy(w, ns, stopFails) == RaisedBy(v, ns, stopFails)
  {
    if ns != [] { SameRaisers(v, w, Front(ns), stopFails); }
  }

  lemma LastUnneeded(up: seq<Entry>)
    requires Stacked(up) && up != []
    ensures forall e | e in up :: Last(up).name !in e.needs
  {
    var n := Last(up).name;
    forall i, x | 0 <= i < |up| && x in up[i].needs ensures x != n {
      assert x in Elems(NamesOf(up[..i]));
      var j :| 0 <= j < i && NamesOf(up[..i])[j] == x;
      assert NamesOf(up)[j] == x && NamesOf(up)[|up| - 1] == n;
    }
  }

  lemma DownDisciplined(log: seq<Event>)
    requires Disciplined(log) && UpAfter(log) != []
    ensures var log1 := log + [Down(Last(UpAfter(log)).name)];
      Disciplined(log1) && UpAfter(log1) == Front(UpAfter(log))
  {
    var up := UpAfter(log);
    var n := Last(up).name;
    var log1 := log + [Down(n)];
    assert Front(log1) == log;
    DisciplinedStacks(log);
    LastUnneeded(up);
    assert up[|up| - 1].name == n;
  }

  /** Shutting down everything that is up, last first, is disciplined and leaves nothing up. */
  lemma {:induction false} DownsDisciplined(log: seq<Event>, todo: seq<Name>, all: seq<Event>)
    requires Disciplined(log) && NamesOf(UpAfter(log)) == todo && all == log + Downs(todo)
    ensures Disciplined(all) && UpAfter(all) == []
    decreases |todo|
  {
    hide Disciplined, UpAfter;
    assert |UpAfter(log)| == |NamesOf(UpAfter(log))|;
    if todo == [] {
      assert all == log;
    } else {
      var up := UpAfter(log);
      assert Last(up).name == Last(NamesOf(up));
      DownDisciplined(log);
      assert NamesOf(Front(up)) == Front(todo);
      assert Downs(todo) == [Down(Last(todo))] + Downs(Front(todo));
      assert all == log + [Down(Last(todo))] + Downs(Front(todo));
      DownsDisciplined(log + [Down(Last(todo))], Front(todo), all);
    }
  }

  /** Mid-start: some of the order is up, the rest is still to come. */
  ghost predicate Booting(v: View, order: seq<Name>) {
    && WellFormed(v) && UpMatches(v) && v.state == Initializing
    && IsStartOrder(GraphOf(v), v.initialized + order)
    && (forall n | n in v.deps && n in v.initialized :: v.componentState[n] == Active)
    && (forall n | n in v.deps && !v.enabled[n] :: v.componentState[n] == Disabled)
  }

  lemma BootNeeds(v: View, order: seq<Name>)
    requires Booting(v, order) && order != []
    ensures order[0] in v.deps && order[0] !in v.initialized && v.enabled[order[0]]
    ensures NeedsOf(v, order[0]) <= Elems(v.initialized) <= v.deps.Keys
  {
    var g := GraphOf(v);
    var full := v.initialized + order;
    var k := |v.initialized|;
    assert full[k] == order[0] && full[k] in g.succ && full[k] !in g.off;
    assert full[..k] == v.initialized;
    forall d | d in v.deps[order[0]] ensures d in v.initialized {
      assert d in Elems(g.succ[full[k]]);
    }
    forall i | 0 <= i < k ensures v.initialized[i] != order[0] && v.initialized[i] in v.deps {
      assert full[i] == v.initialized[i];
    }
  }

  lemma UpDisciplined(log: seq<Event>, n: Name, needs: set<Name>)
    requires Disciplined(log) && n !in NamesOf(UpAfter(log)) && needs <= Elems(NamesOf(UpAfter(log)))
    ensures Disciplined(log + [Up(n, needs)]) && NamesOf(UpAfter(log + [Up(n, needs)])) == NamesOf(UpAfter(log)) + [n]
  {
    var more := log + [Up(n, needs)];
    assert Front(more) == log && Last(more) == Up(n, needs);
    assert UpAfter(more) == UpAfter(log) + [Entry(n, needs)];
  }

  lemma BringUpKeeps(v: View, order: seq<Name>)
    requires Booting(v, order) && order != []
    ensures Booting(BringUp(v, order[0]), order[1..])
  {
    hide Disciplined, UpAfter, IsStartOrder;
    BootNeeds(v, order);
    var n := order[0];
    var w := BringUp(v, n);
    UpDisciplined(v.log, n, NeedsOf(v, n));
    assert w.initialized + order[1..] == v.initialized + order;
    assert GraphOf(w) == GraphOf(v);
  }

  /** An initializer that raises marks its component and takes everything that is up down again. */
  lemma GiveUpEffect(v: View, order: seq<Name>, stopFails: set<Name>)
    requires Booting(v, order) && order != []
    ensures var w := Shutdown(GiveUp(v, order[0]), v.initialized, stopFails);
      && w == v.(state := Failed, error := Some(InitializerRaised(order[0])), log := w.log,
                 shutdownErrors := w.shutdownErrors, componentState := w.componentState)
      && order[0] in v.deps && w.log == v.log + [UpFailed(order[0], v.deps[order[0]])] + Downs(v.initialized)
      && w.shutdownErrors == v.shutdownErrors + RaisedBy(v, v.initialized, stopFails)
      && w.componentState == TakenDown(v, v.initialized, stopFails)[order[0] := Broken]
  {
    hide UpMatches, IsStartOrder, RaisedBy, Downs;
    BootNeeds(v, order);
    var down := GiveUp(v, order[0]);
    DistinctUp(v, order);
    ShutdownEffect(down, v.initialized, stopFails);
    SameRaisers(v, down, v.initialized, stopFails);
    assert TakenDown(down, v.initialized, stopFails) == TakenDown(v, v.initialized, stopFails)[order[0] := Broken];
  }

  lemma DistinctUp(v: View, order: seq<Name>)
    requires Booting(v, order)
    ensures Distinct(v.initialized)
  {
    DisciplinedStacks(v.log);
  }

  lemma GiveUpKeeps(v: View, order: seq<Name>, stopFails: set<Name>)
    requires Booting(v, order) && order != []
    ensures var w := Shutdown(GiveUp(v, order[0]), v.initialized, stopFails);
      Inv(w.(initialized := [])) && UpAfter(w.log) == []
  {
    hide IsStartOrder, RaisedBy, Downs, Shutdown, TakenDown;
    GiveUpEffect(v, order, stopFails);
    BootNeeds(v, order);
    var down := GiveUp(v, order[0]);
    var w := Shutdown(down, v.initialized, stopFails);
    assert Front(down.log) == v.log;
    DownsDisciplined(down.log, v.initialized, w.log);
    TakenDownKeys(v, v.initialized, stopFails);
    assert w.componentState.Keys == v.componentState.Keys + {order[0]};
  }

  lemma TakenDownKeys(v: View, ns: seq<Name>, stopFails: set<Name>)
    ensures TakenDown(v, ns, stopFails).Keys == v.componentState.Keys
  {}

  lemma AllUp(v: View)
    requires Booting(v, [])
    ensures Inv(v.(state := Running))
  {
    var w := v.(state := Running);
    assert v.initialized + [] == v.initialized && GraphOf(w) == GraphOf(v);
    forall n | n in v.deps && v.enabled[n] ensures n in v.initialized {
      assert n in GraphOf(v).succ.Keys - GraphOf(v).off;
      assert n in Elems(v.initialized);
    }
  }

  ghost predicate SameGraph(v: View, w: View) {
    w.deps == v.deps && w.enabled == v.enabled && w.components == v.components && w.handlers == v.handlers
  }

  /** w is how bringing up `order` from v may end: RUNNING with all of it up, or FAILED with nothing up. */
  ghost predicate BootEnds(v: View, order: seq<Name>, initFails: set<Name>, w: View) {
    && Inv(w) && SameGraph(v, w)
    && (w.state == Running <==> Elems(order) !! initFails)
    && (w.state == Running ==> w.initialized == v.initialized + order && w.log == v.log + Ups(v, order)
                               && w.error == v.error && w.shutdownErrors == v.shutdownErrors)
    && (w.state != Running ==> w.state == Failed && UpAfter(w.log) == [])
  }

  lemma BootEndsLater(v: View, order: seq<Name>, initFails: set<Name>, w: View)
    requires order != [] && order[0] !in initFails
    requires BootEnds(BringUp(v, order[0]), order[1..], initFails, w)
    ensures BootEnds(v, order, initFails, w)
  {
    hide Inv;
    assert v.initialized + [order[0]] + order[1..] == v.initialized + order;
    assert Elems(order) == {order[0]} + Elems(order[1..]);
    assert Ups(v, order) == [Up(order[0], NeedsOf(v, order[0]))] + Ups(BringUp(v, order[0]), order[1..]);
  }

  lemma {:induction false} BootKeeps(v: View, order: seq<Name>, initFails: set<Name>, stopFails: set<Name>)
    requires Booting(v, order)
    ensures BootEnds(v, order, initFails, Boot(v, order, initFails, stopFails))
    decreases |order|
  {
    hide Inv, Shutdown, TakenDown, RaisedBy, Downs;
    if order == [] {
      AllUp(v);
      assert v.initialized + order == v.initialized && v.log + Ups(v, order) == v.log;
    } else if order[0] in initFails {
      GiveUpKeeps(v, order, stopFails);
      GiveUpEffect(v, order, stopFails);
      assert order[0] in Elems(order);
    } else {
      BringUpKeeps(v, order);
      BootKeeps(BringUp(v, order[0]), order[1..], initFails, stopFails);
      BootEndsLater(v, order, initFails, Boot(v, order, initFails, stopFails));
    }
  }

  /** `start` from STOPPED or FAILED ends RUNNING exactly when a start order exists and no initializer
      in it raises; otherwise it ends FAILED with nothing up. */
  lemma StartOutcome(v: View, initFails: set<Name>, stopFails: set<Name>)
    requires Inv(v) && v.state != Running
    ensures var w := Start(v, initFails, stopFails);
      && Inv(w) && SameGraph(v, w)
      && (w.state == Running <==> StartOrder(v).Ok? && Elems(StartOrder(v).value) !! initFails)
      && (w.state == Running ==> w.initialized == StartOrder(v).value && w.log == v.log + Ups(v, StartOrder(v).value)
                                 && w.error == None && w.shutdownErrors == [])
      && (w.state != Running ==> w.state == Failed && w.initialized == [] && UpAfter(w.log) == [])
      && (StartOrder(v).Err? ==> w == v.(state := Failed, error := Some(BadOrder(StartOrder(v).fault)), shutdownErrors := [],
                                         initialized := []))
  {
    SearchDecides(GraphOf(v), v.components);
    assert UpAfter(v.log) == [] by { assert |NamesOf(UpAfter(v.log))| == 0; }
    if StartOrder(v).Ok? {
      var order := StartOrder(v).value;
      StartBooting(v);
      assert [] + order == order;
      assert Ups(Marked(v), order) == Ups(v, order);
      BootKeeps(Marked(v), order, initFails, stopFails);
    }
  }

  /** The state a start with an order begins to bring components up in. */
  function Marked(v: View): View {
    Cleared(v).(componentState := MarkDisabled(v.componentState, GraphOf(v).off))
  }

  lemma StartBooting(v: View)
    requires Inv(v) && v.state != Running && StartOrder(v).Ok?
    ensures Booting(Marked(v), StartOrder(v).value)
  {
    SearchDecides(GraphOf(v), v.components);
    hide UpMatches, IsStartOrder, VisitRoots, Distinct, Elems, Sorted;
    var order := StartOrder(v).value;
    assert [] + order == order;
    MarkedSame(v);
  }

  lemma MarkedSame(v: View)
    ensures GraphOf(Marked(v)) == GraphOf(v) && Marked(v).componentState.Keys == v.componentState.Keys
    ensures forall n | n in v.componentState && n in v.enabled && !v.enabled[n] :: Marked(v).componentState[n] == Disabled
  {}

  lemma NothingTaken(v: View, stopFails: set<Name>)
    ensures v.log + Downs([]) == v.log && TakenDown(v, [], stopFails) == v.componentState && RaisedBy(v, [], stopFails) == []
  {}

  lemma SameTakenDown(v: View, w: View, ns: seq<Name>, stopFails: set<Name>)
    requires w.handlers == v.handlers && w.componentState == v.componentState
    ensures TakenDown(w, ns, stopFails) == TakenDown(v, ns, stopFails) && RaisedBy(w, ns, stopFails) == RaisedBy(v, ns, stopFails)
  {
    SameRaisers(v, w, ns, stopFails);
  }

  /** `stop` from any settled state leaves nothing up, having shut down exactly what was up, last first. */
  lemma StopOutcome(v: View, stopFails: set<Name>)
    requires Inv(v)
    ensures var w := Stop(v, stopFails);
      && Inv(w) && w.state == Stopped && UpAfter(w.log) == []
      && w.log == v.log + Downs(v.initialized)
      && SameGraph(v, w) && w.error == v.error
      && w.componentState == TakenDown(v, v.initialized, stopFails)
      && w.shutdownErrors == v.shutdownErrors + RaisedBy(v, v.initialized, stopFails)
  {
    hide Shutdown, TakenDown, RaisedBy, Downs, Disciplined;
    assert UpAfter(v.log) == [] || v.state == Running by { assert |NamesOf(UpAfter(v.log))| == |UpAfter(v.log)|; }
    TakenDownKeys(v, v.initialized, stopFails);
    NothingTaken(v, stopFails);
    if v.state == Stopped {
      assert v.initialized == [];
    } else {
      DisciplinedStacks(v.log);
      forall n | n in v.initialized ensures n in v.componentState {
        if v.state == Running { assert n in Elems(v.initialized); }
      }
      ShutdownEffect(v.(state := ShuttingDown), v.initialized, stopFails);
      SameTakenDown(v, v.(state := ShuttingDown), v.initialized, stopFails);
      DownsDisciplined(v.log, v.initialized, v.log + Downs(v.initialized));
    }
  }

  /** `restart` shuts down exactly what was up, last first, and then starts: RUNNING exactly when an order exists and no
      initializer in it raises. */
  lemma RestartOutcome(v: View, stopFails: set<Name>, initFails: set<Name>, rollbackFails: set<Name>)
    requires Inv(v)
    ensures var w := Apply(v, DoRestart(stopFails, initFails, rollbackFails));
      && SameGraph(v, w) && StartOrder(Stop(v, stopFails)) == StartOrder(v)
      && (w.state == Running <==> StartOrder(v).Ok? && Elems(StartOrder(v).value) !! initFails)
      && (w.state == Running ==>
            w.initialized == StartOrder(v).value && w.log == v.log + Downs(v.initialized) + Ups(v, StartOrder(v).value))
      && (w.state != Running ==> w.state == Failed && w.initialized == [] && UpAfter(w.log) == [])
  {
    hide Inv, Start, UpAfter;
    StopOutcome(v, stopFails);
    var stopped := Stop(v, stopFails);
    if v.state == Stopped { StoppedAlready(v, stopFails); }
    SameGraphSameOrder(v, stopped);
    StartOutcome(stopped, initFails, rollbackFails);
    if StartOrder(v).Ok? { assert Ups(stopped, StartOrder(v).value) == Ups(v, StartOrder(v).value); }
  }

  lemma StoppedAlready(v: View, stopFails: set<Name>)
    requires Inv(v) && v.state == Stopped
    ensures Stop(v, stopFails) == v
  {}

  lemma SameGraphSameOrder(v: View, w: View)
    requires SameGraph(v, w)
    ensures GraphOf(w) == GraphOf(v) && StartOrder(w) == StartOrder(v)
  {}

  /** Configuring takes place while stopped, with nothing up. */
  lemma ConfigureKeeps(v: View, op: Op)
    requires Inv(v) && (op.RegisterComponent? || op.SetDependencies? || op.SetEnabled?)
    ensures Inv(Apply(v, op))
  {
    hide Disciplined, UpAfter, NamesOf, IsStartOrder, WellFormed;
    ConfigureWellFormed(v, op);
  }

  lemma ConfigureWellFormed(v: View, op: Op)
    requires WellFormed(v) && (op.RegisterComponent? || op.SetDependencies? || op.SetEnabled?)
    ensures WellFormed(Apply(v, op))
  {
    var n := op.name;
    assert n in v.components <==> n in Elems(v.components);
    hide Distinct, Elems;
    if v.state == Stopped {
      if op.RegisterComponent? {
        ElemsAppend(v.components, n);
        assert v.deps[n := op.needs].Keys == v.deps.Keys + {n};
        assert v.componentState[n := Registered].Keys == v.componentState.Keys + {n};
        assert v.enabled[n := true].Keys == v.enabled.Keys + {n};
      } else if n in v.components {
        assert v.deps.Keys + {n} == v.deps.Keys;
      }
    }
  }

  lemma ApplyKeeps(v: View, op: Op)
    requires Inv(v)
    ensures Inv(Apply(v, op))
  {
    hide Inv, Stop;
    match op {
      case RegisterComponent(_, _, _) => ConfigureKeeps(v, op);
      case SetDependencies(_, _) => ConfigureKeeps(v, op);
      case SetEnabled(_, _) => ConfigureKeeps(v, op);
      case DoStart(initFails, stopFails) =>
        if v.state != Running { StartOutcome(v, initFails, stopFails); }
      case DoStop(stopFails) => StopOutcome(v, stopFails);
      case DoRestart(stopFails, initFails, rollbackFails) =>
        StopOutcome(v, stopFails);
        StartOutcome(if v.state != Stopped then Stop(v, stopFails) else v, initFails, rollbackFails);
    }
  }

  /** Over every sequence of operations, with handlers raising wherever they like: components come up
      only after all they need and go down only last-up-first when nothing up needs them, and nothing
      is up unless the runtime is RUNNING. */
  lemma {:induction false} EveryRunDisciplined(v: View, ops: seq<Op>)
    requires Inv(v)
    ensures Inv(Run(v, ops))
    decreases |ops|
  {
    if ops != [] {
      ApplyKeeps(v, ops[0]);
      EveryRunDisciplined(Apply(v, ops[0]), ops[1..]);
    }
  }

  lemma FreshRunDisciplined(ops: seq<Op>)
    ensures var w := Run(FRESH, ops);
      Disciplined(w.log) && (w.state != Running ==> UpAfter(w.log) == [])
  {
    EveryRunDisciplined(FRESH, ops);
    var w := Run(FRESH, ops);
    assert |NamesOf(UpAfter(w.log))| == |UpAfter(w.log)|;
  }

  lemma TraceSplit(v: View, order: seq<Name>, k: nat, stopFails: set<Name>)
    requires 0 < k < |order| && order[0] in v.componentState
    ensures var v1, rest := BringUp(v, order[0]), order[1..];
      && v.log + Ups(v, order[..k]) == v1.log + Ups(v1, rest[..k - 1])
      && v.initialized + order[..k] == v1.initialized + rest[..k - 1]
      && TakenDown(v, v.initialized + order[..k], stopFails) == TakenDown(v1, v.initialized + order[..k], stopFails)
  {
    var v1, rest := BringUp(v, order[0]), order[1..];
    assert order[..k] == [order[0]] + rest[..k - 1];
    assert Ups(v, order[..k]) == [Up(order[0], NeedsOf(v, order[0]))] + Ups(v1, rest[..k - 1]);
    assert order[0] in v.initialized + order[..k];
  }

  lemma NoUps(v: View, order: seq<Name>)
    ensures Ups(v, order[..0]) == [] && v.initialized + order[..0] == v.initialized
  {}

  /** What a start comes to whose k-th initializer is the first to raise: those before it come up and go down
      again, last one first; it is marked, named as the error, and the shutdown handlers that raise are recorded. */
  ghost predicate FailsAt(v: View, order: seq<Name>, k: nat, stopFails: set<Name>, w: View)
    requires k < |order|
  {
    var up := v.initialized + order[..k];
    && order[k] in v.deps
    && w.log == v.log + Ups(v, order[..k]) + [UpFailed(order[k], v.deps[order[k]])] + Downs(up)
    && w.error == Some(InitializerRaised(order[k])) && w.state == Failed && w.initialized == []
    && w.shutdownErrors == v.shutdownErrors + RaisedBy(v, up, stopFails)
    && w.componentState == TakenDown(v, up, stopFails)[order[k] := Broken]
  }

  lemma {:induction false} FailedStartTrace(v: View, order: seq<Name>, k: nat, initFails: set<Name>, stopFails: set<Name>)
    requires Booting(v, order) && k < |order|
    requires order[k] in initFails && forall i | 0 <= i < k :: order[i] !in initFails
    ensures FailsAt(v, order, k, stopFails, Boot(v, order, initFails, stopFails))
    decreases |order|
  {
    hide Ups, Downs, RaisedBy, TakenDown, Shutdown, Disciplined, UpAfter, UpMatches, IsStartOrder, Settled;
    var n := order[0];
    if k == 0 {
      GiveUpEffect(v, order, stopFails);
      NoUps(v, order);
    } else {
      BringUpKeeps(v, order);
      BootNeeds(v, order);
      var v1, rest := BringUp(v, n), order[1..];
      FailedStartTrace(v1, rest, k - 1, initFails, stopFails);
      TraceSplit(v, order, k, stopFails);
      SameRaisers(v, v1, v.initialized + order[..k], stopFails);
    }
  }

  /** A start with an order whose k-th initializer is the first to raise. */
  lemma StartFailsAt(v: View, k: nat, initFails: set<Name>, stopFails: set<Name>)
    requires Inv(v) && v.state != Running && StartOrder(v).Ok? && k < |StartOrder(v).value|
    requires StartOrder(v).value[k] in initFails && forall i | 0 <= i < k :: StartOrder(v).value[i] !in initFails
    ensures var ready := v.(shutdownErrors := [], initialized := [],
                            componentState := map n | n in v.deps.Keys :: if v.enabled[n] then v.componentState[n] else Disabled);
      FailsAt(ready, StartOrder(v).value, k, stopFails, Start(v, initFails, stopFails))
  {
    hide FailsAt, Boot, StartOrder, UpMatches, Booting;
    var order, v1 := StartOrder(v).value, Marked(v);
    StartBooting(v);
    FailedStartTrace(v1, order, k, initFails, stopFails);
    var ready := v.(shutdownErrors := [], initialized := [],
                    componentState := map n | n in v.deps.Keys :: if v.enabled[n] then v.componentState[n] else Disabled);
    assert ready.componentState == v1.componentState;
    FailsAlike(v1, ready, order, k, stopFails, Boot(v1, order, initFails, stopFails));
  }

  lemma FailsAlike(v: View, v': View, order: seq<Name>, k: nat, stopFails: set<Name>, w: View)
    requires k < |order| && FailsAt(v, order, k, stopFails, w)
    requires v'.deps == v.deps && v'.handlers == v.handlers && v'.log == v.log && v'.initialized == v.initialized
    requires v'.shutdownErrors == v.shutdownErrors && v'.componentState == v.componentState
    ensures FailsAt(v', order, k, stopFails, w)
  {
    hide Downs, RaisedBy;
    SameRaisers(v, v', v.initialized + order[..k], stopFails);
    assert Ups(v', order[..k]) == Ups(v, order[..k]);
    assert TakenDown(v', v.initialized + order[..k], stopFails) == TakenDown(v, v.initialized + order[..k], stopFails);
  }

  // ---- what is configured ----

  datatype Setup = Setup(needs: set<Name>, on: bool, hasHandler: bool)

  function SetupOf(v: View, n: Name): Option<Setup>
    requires v.deps.Keys == v.enabled.Keys
  {
    if n in v.deps then Some(Setup(v.deps[n], v.enabled[n], n in v.handlers)) else None
  }

  /** What the operations carried out while stopped say of n: as it was registered first, with the dependencies and
      the switch set last since. */
  function Configured(v: View, ops: seq<Op>, n: Name, was: Option<Setup>): Option<Setup>
    decreases |ops|
  {
    if ops == [] then was
    else
      var now := if v.state != Stopped then was else
        match ops[0]
        case RegisterComponent(m, needs, hasHandler) => if m == n && was == None then Some(Setup(needs, true, hasHandler)) else was
        case SetDependencies(m, needs) => if m == n && was.Some? then Some(was.value.(needs := needs)) else was
        case SetEnabled(m, on) => if m == n && was.Some? then Some(was.value.(on := on)) else was
        case _ => was;
      Configured(Apply(v, ops[0]), ops[1..], n, now)
  }

  /** The names registered along a run, each at its first registration while stopped. */
  function Registrations(v: View, ops: seq<Op>, was: seq<Name>): seq<Name>
    decreases |ops|
  {
    if ops == [] then was
    else
      Registrations(Apply(v, ops[0]), ops[1..],
        if v.state == Stopped && ops[0].RegisterComponent? && ops[0].name !in was then was + [ops[0].name] else was)
  }

  lemma SetupStep(v: View, op: Op, n: Name)
    requires Inv(v)
    ensures var w := Apply(v, op);
      && w.deps.Keys == w.enabled.Keys
      && w.components == (if v.state == Stopped && op.RegisterComponent? && op.name !in v.components
                          then v.components + [op.name] else v.components)
      && SetupOf(w, n) ==
           if v.state != Stopped then SetupOf(v, n)
           else if op.RegisterComponent? && op.name == n && SetupOf(v, n) == None then Some(Setup(op.needs, true, op.hasHandler))
           else if op.SetDependencies? && op.name == n && SetupOf(v, n).Some? then Some(SetupOf(v, n).value.(needs := op.needs))
           else if op.SetEnabled? && op.name == n && SetupOf(v, n).Some? then Some(SetupOf(v, n).value.(on := op.on))
           else SetupOf(v, n)
  {
    hide UpMatches, Settled;
    assert n in v.components <==> n in Elems(v.components);
    if op.DoStart? || op.DoStop? || op.DoRestart? { LifecycleSameGraph(v, op); }
    else { assert op.name in v.components <==> op.name in Elems(v.components); }
  }

  lemma LifecycleSameGraph(v: View, op: Op)
    requires Inv(v) && (op.DoStart? || op.DoStop? || op.DoRestart?)
    ensures SameGraph(v, Apply(v, op))
  {
    hide Inv, Stop;
    ApplyKeeps(v, op);
    match op {
      case DoStart(initFails, stopFails) =>
        if v.state != Running { StartOutcome(v, initFails, stopFails); }
      case DoStop(stopFails) => StopOutcome(v, stopFails);
      case DoRestart(stopFails, initFails, rollbackFails) => RestartOutcome(v, stopFails, initFails, rollbackFails);
    }
  }

  /** After every run, each component's dependencies, switch and shutdown handler are those its registration and the
      settings that took effect since say, and the components stand in the order of their registration. */
  lemma {:induction false} ConfigurationKept(v: View, ops: seq<Op>, n: Name)
    requires Inv(v)
    ensures var w := Run(v, ops);
      && w.deps.Keys == w.enabled.Keys && SetupOf(w, n) == Configured(v, ops, n, SetupOf(v, n))
      && w.components == Registrations(v, ops, v.components)
    decreases |ops|
  {
    hide Inv, Apply;
    SetupKnown(v);
    if ops != [] {
      ApplyKeeps(v, ops[0]);
      SetupStep(v, ops[0], n);
      ConfigurationKept(Apply(v, ops[0]), ops[1..], n);
    }
  }

  lemma SetupKnown(v: View)
    requires Inv(v)
    ensures v.deps.Keys == v.enabled.Keys
  {}

  /** From the start: nothing is configured but what the operations say. */
  lemma FreshConfiguration(ops: seq<Op>, n: Name)
    ensures var w := Run(FRESH, ops);
      && (n in w.deps <==> Configured(FRESH, ops, n, None).Some?)
      && (n in w.deps ==> n in w.enabled && Configured(FRESH, ops, n, None) == Some(Setup(w.deps[n], w.enabled[n], n in w.handlers)))
      && w.components == Registrations(FRESH, ops, [])
  {
    ConfigurationKept(FRESH, ops, n);
  }
}
