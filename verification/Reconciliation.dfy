/** What a reconcile run achieves, and that the index stays exact over whole runs. */
module Reconciliation {
  import opened Names
  import opened Dicts
  import opened ResourceSpec
  import opened IngestionSpec

  ghost predicate Keyed(target: map<string, Resource>) {
    forall id | id in target :: target[id].resourceId == id
  }

  /** The resources once those in `done` have been settled. */
  ghost function Settled(current: map<string, Resource>, target: map<string, Resource>, done: set<string>): map<string, Resource>
    requires done <= target.Keys
  {
    map id | id in current.Keys + done :: if id in done then Goal(current, target[id]) else current[id]
  }

  lemma SettledMore(current: map<string, Resource>, target: map<string, Resource>, id: string, done: set<string>)
    requires done + {id} <= target.Keys && id !in done && Keyed(target)
    ensures Settled(current[id := Goal(current, target[id])], target, done) == Settled(current, target, {id} + done)
  {}

  ghost predicate AnyBlocks(current: map<string, Resource>, target: map<string, Resource>, ids: set<string>) {
    exists id :: id in ids && id in target && Blocks(current, target[id])
  }

  lemma BlocksFirstOrRest(current: map<string, Resource>, target: map<string, Resource>, id: string, rest: set<string>, after: map<string, Resource>)
    requires id in target && id !in rest && Keyed(target) && after == current[id := Goal(current, target[id])]
    ensures AnyBlocks(current, target, {id} + rest) <==> Blocks(current, target[id]) || AnyBlocks(after, target, rest)
  {
    hide Goal;
    assert forall x | x in rest && x in target :: Blocks(after, target[x]) == Blocks(current, target[x]);
    if Blocks(current, target[id]) { assert id in {id} + rest; }
    if x :| x in rest && x in target && Blocks(after, target[x]) { assert x in {id} + rest; }
  }

  /** Settling in order raises exactly when some changed resource is refused; otherwise all reach their goal. */
  lemma {:induction false} SettleAllEffect(w: Catalog, target: map<string, Resource>, ids: seq<string>)
    requires Sound(w) && Keyed(target) && Distinct(ids) && Elems(ids) <= target.Keys
    ensures var (w1, raised) := SettleAll(w, target, ids);
      && (raised.Some? <==> w.index.Some? && AnyBlocks(w.resources.items, target, Elems(ids)))
      && (raised == None ==> Sound(w1))
      && (raised == None ==> w1.index.Some? == w.index.Some?)
      && (raised == None ==> w1.resources.items == Settled(w.resources.items, target, Elems(ids)))
    decreases |ids|
  {
    hide Sound, Settle, Goal, Blocks;
    var items := w.resources.items;
    if ids == [] {
      assert Settled(items, target, Elems(ids)) == items;
    } else {
      var id, rest := ids[0], ids[1..];
      assert id in Elems(ids) && ids == [id] + rest && Elems(ids) == {id} + Elems(rest) && id !in Elems(rest);
      SettleEffect(w, target[id]);
      var (w1, raised) := Settle(w, target[id]);
      BlocksFirstOrRest(items, target, id, Elems(rest), w1.resources.items);
      if raised == None {
        SettleAllEffect(w1, target, rest);
        SettledMore(items, target, id, Elems(rest));
      }
    }
  }

  /** Filed afresh: the entry shows the resource as it is. */
  ghost predicate Fresh(w: Catalog, id: string) {
    && w.index.Some? && id in w.resources.items
    && EntryId(id) in w.index.value.items && w.index.value.items[EntryId(id)] == EntryOf(w.resources.items[id])
  }

  lemma SettleFresh(w: Catalog, r: Resource)
    requires Inv(w) && w.index.Some? && Nameable(r)
    ensures var w1 := Settle(w, r).0;
      Inv(w1) && w1.index.Some? && Fresh(w1, r.resourceId) && forall x | x != r.resourceId && Fresh(w, x) :: Fresh(w1, x)
  {
    hide Settle, Inv, Goal;
    InvSound(w);
    SettleEffect(w, r);
    SettleKeeps(w, r);
    forall x | x != r.resourceId && Fresh(w, x) ensures Fresh(Settle(w, r).0, x) {
      if EntryId(x) == EntryId(r.resourceId) { EntryIdInjective(x, r.resourceId); }
    }
  }

  lemma {:induction false} SettleAllFresh(w: Catalog, target: map<string, Resource>, ids: seq<string>)
    requires Inv(w) && w.index.Some? && Keyed(target) && Distinct(ids) && Elems(ids) <= target.Keys
    requires forall id | id in target :: Nameable(target[id])
    ensures var w1 := SettleAll(w, target, ids).0;
      && Inv(w1) && w1.index.Some? && SettleAll(w, target, ids).1 == None
      && (forall id | id in ids :: Fresh(w1, id)) && (forall x | x !in ids && Fresh(w, x) :: Fresh(w1, x))
    decreases |ids|
  {
    hide Inv, Settle, Fresh, Nameable;
    if ids != [] {
      var id, rest := ids[0], ids[1..];
      assert id in Elems(ids) && id !in rest && forall x :: x in ids <==> x == id || x in rest;
      InvSound(w);
      SettleEffect(w, target[id]);
      SettleFresh(w, target[id]);
      SettleAllFresh(Settle(w, target[id]).0, target, rest);
    }
  }

  lemma DropKeepsFresh(w: Catalog, id: string, x: string)
    requires Inv(w) && w.index.Some? && Fresh(w, x) && x != id
    ensures Fresh(Unregister(w, id).0, x)
  {
    if id in w.resources.items {
      UnregisterUnfiles(w, id);
      UnregisterEffect(w, id);
      if EntryId(x) == EntryId(id) { EntryIdInjective(x, id); }
    }
  }

  /** Dropping removes exactly the ids that are not listed. */
  lemma {:induction false} DropAllEffect(w: Catalog, target: map<string, Resource>, ids: seq<string>)
    requires Sound(w)
    ensures var w1 := DropAll(w, target, ids);
      && Sound(w1) && w1.index.Some? == w.index.Some?
      && w1.resources.items == w.resources.items - (Elems(ids) - target.Keys)
      && (Inv(w) ==> Inv(w1) && forall x | x in target && Fresh(w, x) :: Fresh(w1, x))
    decreases |ids|
  {
    hide Sound, Inv, Fresh, Unregister;
    if ids != [] {
      var id, rest := ids[0], ids[1..];
      assert ids == [id] + rest && Elems(ids) == {id} + Elems(rest);
      var w1 := if id in target then w else Unregister(w, id).0;
      if id !in target { DropOne(w, target, id); }
      DropAllEffect(w1, target, rest);
    }
  }

  lemma DropOne(w: Catalog, target: map<string, Resource>, id: string)
    requires Sound(w) && id !in target
    ensures var w1 := Unregister(w, id).0;
      && Sound(w1) && w1.index.Some? == w.index.Some? && w1.resources.items == w.resources.items - {id}
      && (Inv(w) ==> Inv(w1) && forall x | x in target && Fresh(w, x) :: Fresh(w1, x))
  {
    UnregisterEffect(w, id);
    if Inv(w) {
      UnregisterKeeps(w, id);
      forall x | x in target && Fresh(w, x) ensures Fresh(Unregister(w, id).0, x) { DropKeepsFresh(w, id, x); }
    }
  }

  lemma TargetKeyed(items: seq<Item>)
    ensures Keyed(Target(items))
  {
    forall id | id in Target(items) ensures Target(items)[id].resourceId == id { ListedIff(items, id); }
  }

  // ---- main results ----

  lemma SettledThenDropped(current: map<string, Resource>, target: map<string, Resource>)
    ensures var m := Settled(current, target, target.Keys) - (current.Keys - target.Keys);
      m.Keys == target.Keys && forall id | id in target :: m[id] == Goal(current, target[id])
  {}

  /** A reconcile raises exactly when an attached engine refuses a resource that is new or changed; otherwise
      the registry holds exactly the listed ids, each with its listed content. */
  lemma ReconcileReaches(w: Catalog, items: seq<Item>)
    requires Sound(w)
    ensures var (w1, raised), target := Reconcile(w, items), Target(items);
      && (raised.Some? <==> w.index.Some? && AnyBlocks(w.resources.items, target, target.Keys))
      && (raised == None ==>
            && Sound(w1) && w1.index.Some? == w.index.Some? && w1.resources.items.Keys == target.Keys
            && forall id | id in target :: w1.resources.items[id] == Goal(w.resources.items, target[id]))
  {
    hide Sound, Goal, AnyBlocks, Settled, SettleAll, DropAll;
    var current, target := w.resources.items, Target(items);
    TargetKeyed(items);
    SettleAllEffect(w, target, Sorted(target.Keys));
    var (w1, raised) := SettleAll(w, target, Sorted(target.Keys));
    if raised == None {
      DropAllEffect(w1, target, Sorted(current.Keys));
      SettledThenDropped(current, target);
    }
  }

  /** A goal has the listed name, type, capabilities and metadata, and the listed owner and source where given. */
  lemma GoalMatches(current: map<string, Resource>, r: Resource)
    requires r.resourceId in current ==> current[r.resourceId].resourceId == r.resourceId
    ensures var g := Goal(current, r);
      && g.resourceId == r.resourceId && g.name == r.name && g.resourceType == r.resourceType
      && g.capabilities == r.capabilities && g.metadata == r.metadata
      && (r.owner.Some? ==> g.owner == r.owner) && (r.source.Some? ==> g.source == r.source)
      && (Goal(current, r) == Goal(current[r.resourceId := g], r))
  {}

  /** With names the engine accepts, a reconcile keeps the index exact and files every listed resource afresh,
      unchanged ones included. */
  lemma ReconcileFiles(w: Catalog, items: seq<Item>)
    requires Inv(w) && (w.index.Some? ==> forall id | id in Target(items) :: Nameable(Target(items)[id]))
    ensures var w1 := Reconcile(w, items).0;
      Inv(w1) && (w.index.Some? ==> forall id | id in Target(items) :: Fresh(w1, id))
  {
    hide Fresh;
    var target := Target(items);
    TargetKeyed(items);
    InvSound(w);
    SettleAllEffect(w, target, Sorted(target.Keys));
    if w.index.Some? { SettleAllFresh(w, target, Sorted(target.Keys)); }
    var w1 := SettleAll(w, target, Sorted(target.Keys)).0;
    assert forall id :: id in Sorted(target.Keys) <==> id in Elems(Sorted(target.Keys));
    DropAllEffect(w1, target, Sorted(w.resources.items.Keys));
  }

  /** A listed owner or source that is missing where the registry has one cannot be cleared. */
  ghost predicate Lingers(current: map<string, Resource>, r: Resource) {
    var g := Goal(current, r);
    (r.owner == None && g.owner.Some?) || (r.source == None && g.source.Some?)
  }

  /** A second run on the same listing changes no resource, and reports as updated exactly those whose owner or
      source the listing leaves out but the registry still has. */
  lemma SecondRun(w: Catalog, items: seq<Item>)
    requires Sound(w) && Reconcile(w, items).1 == None
    ensures var w1, target := Reconcile(w, items).0, Target(items);
      var after := w1.resources.items;
      && Reconcile(w1, items).1 == None && Reconcile(w1, items).0.resources.items == after
      && Added(after, target) == {} && Removed(after, target) == {}
      && Updated(after, target) == set id | id in target && Lingers(w.resources.items, target[id])
      && Unchanged(after, target) == target.Keys - Updated(after, target)
  {
    var w1, target := Reconcile(w, items).0, Target(items);
    ReconcileReaches(w, items);
    ReconcileReaches(w1, items);
    TargetKeyed(items);
    StillAccepted(w.resources.items, w1.resources.items, target);
    forall id | id in target
      ensures Goal(w1.resources.items, target[id]) == w1.resources.items[id]
      ensures Same(w1.resources.items[id], target[id]) == !Lingers(w.resources.items, target[id])
    {
      GoalAgain(w.resources.items, w1.resources.items, target[id]);
    }
  }

  lemma StillAccepted(current: map<string, Resource>, after: map<string, Resource>, target: map<string, Resource>)
    requires Keyed(target) && after.Keys == target.Keys
    requires forall id | id in current :: current[id].resourceId == id
    requires forall id | id in target :: after[id] == Goal(current, target[id])
    ensures AnyBlocks(after, target, target.Keys) ==> AnyBlocks(current, target, target.Keys)
  {
    if id :| id in target && Blocks(after, target[id]) {
      GoalAgain(current, after, target[id]);
      assert Blocks(current, target[id]);
    }
  }

  lemma GoalAgain(current: map<string, Resource>, after: map<string, Resource>, r: Resource)
    requires r.resourceId in current ==> current[r.resourceId].resourceId == r.resourceId
    requires r.resourceId in after && after[r.resourceId] == Goal(current, r)
    ensures Goal(after, r) == after[r.resourceId] && Same(after[r.resourceId], r) == !Lingers(current, r)
  {}

  /** The four lists partition the ids involved. */
  lemma ReportPartitions(current: map<string, Resource>, target: map<string, Resource>)
    ensures Added(current, target) + Updated(current, target) + Unchanged(current, target) == target.Keys
    ensures Added(current, target) !! Updated(current, target) !! Unchanged(current, target) !! Removed(current, target)
    ensures Removed(current, target) + (current.Keys * target.Keys) == current.Keys
    ensures Updated(current, target) + Unchanged(current, target) <= current.Keys
    ensures forall id | id in current && id in target ::
      id in Unchanged(current, target) <==>
        current[id] == target[id].(resourceId := current[id].resourceId, status := current[id].status,
                                   connectionInfo := current[id].connectionInfo)
  {
    forall id | id in target ensures id in Added(current, target) + Updated(current, target) + Unchanged(current, target) {
      if id in current { assert Same(current[id], target[id]) || !Same(current[id], target[id]); }
    }
  }

  /** A known resource survives exactly when some valid item lists it. */
  lemma SurvivesIff(w: Catalog, items: seq<Item>, id: string)
    requires Sound(w) && id in w.resources.items && Reconcile(w, items).1 == None
    ensures id in Reconcile(w, items).0.resources.items <==> exists i :: 0 <= i < |items| && Lists(items[i], id)
  {
    ReconcileReaches(w, items);
    ListedIff(items, id);
  }

  /** An invalid item does cause deletion: a known resource listed without its name is removed. */
  lemma InvalidItemDeletes(known: Resource)
    requires known.resourceId == "lamp"
    ensures var listing := [Item(Text("lamp"), Text("device"), Absent, Absent, Absent, NoCapabilities, NoMetadata)];
      var w := Catalog(Dict(["lamp"], map["lamp" := known]), None);
      && Sound(w) && Normalize(listing[0]) == None && "lamp" !in Reconcile(w, listing).0.resources.items
  {
    var listing := [Item(Text("lamp"), Text("device"), Absent, Absent, Absent, NoCapabilities, NoMetadata)];
    var w := Catalog(Dict(["lamp"], map["lamp" := known]), None);
    SurvivesIff(w, listing, "lamp") by { ReconcileReaches(w, listing); }
  }

  // ---- whole runs ----

  datatype Op =
    | DoRegister(r: Resource, categorize: bool)
    | DoUnregister(id: string)
    | DoUpdate(id: string, p: Patch)
    | DoMarkSeen(id: string)
    | DoClear
    | DoIngest(id: string, fetched: Option<Item>)
    | DoReconcile(items: seq<Item>)

  function Apply(w: Catalog, op: Op): Catalog {
    match op
    case DoRegister(r, categorize) => Register(w, r, categorize).0
    case DoUnregister(id) => Unregister(w, id).0
    case DoUpdate(id, p) => Update(w, id, p).0
    case DoMarkSeen(id) => Update(w, id, SEEN).0
    case DoClear => Cleared(w)
    case DoIngest(id, fetched) => Ingest(w, id, fetched).0
    case DoReconcile(items) => Reconcile(w, items).0
  }

  function Run(w: Catalog, ops: seq<Op>): Catalog
    decreases |ops|
  {
    if ops == [] then w else Run(Apply(w, ops[0]), ops[1..])
  }

  /** A longer run is a run and one more operation. */
  lemma {:induction false} RunSnoc(w: Catalog, ops: seq<Op>, op: Op)
    ensures Run(w, ops + [op]) == Apply(Run(w, ops), op)
    decreases |ops|
  {
    hide Apply;
    var all := ops + [op];
    if ops == [] {
      assert all == [op] && all[1..] == [];
    } else {
      assert all[0] == ops[0] && all[1..] == ops[1..] + [op];
      RunSnoc(Apply(w, ops[0]), ops[1..], op);
    }
  }

  /** What the operation brings in is categorized and has no blank names. */
  ghost predicate Tame(op: Op) {
    match op
    case DoRegister(r, categorize) => categorize && Nameable(r)
    case DoIngest(_, fetched) =>
      fetched.Some? && Normalize(fetched.value).Some? ==> Nameable(Normalize(fetched.value).value)
    case DoReconcile(items) => forall id | id in Target(items) :: Nameable(Target(items)[id])
    case _ => true
  }

  lemma UpsertKeeps(w: Catalog, r: Resource)
    requires Inv(w) && Nameable(r)
    ensures Inv(Upsert(w, r).0)
  {
    hide Inv, Register, Unregister, Update, Recategorize;
    var id := r.resourceId;
    InvSound(w);
    if id !in w.resources.items {
      RegisterKeeps(w, r, true);
    } else if w.resources.items[id].resourceType != r.resourceType {
      UnregisterKeeps(w, id);
      UnregisterEffect(w, id);
      RegisterKeeps(Unregister(w, id).0, r, true);
    } else {
      UpdateKeeps(w, id, Refresh(r));
      UpdateEffect(w, id, Refresh(r));
      RecategorizeKeeps(Update(w, id, Refresh(r)).0, id);
    }
  }

  lemma ApplyKeeps(w: Catalog, op: Op)
    requires Inv(w) && Tame(op)
    ensures Inv(Apply(w, op))
  {
    hide Inv, Nameable, Register, Unregister, Update;
    match op {
      case DoRegister(r, categorize) => RegisterStepKeeps(w, r);
      case DoUnregister(id) => UnregisterKeeps(w, id);
      case DoUpdate(id, p) => UpdateKeeps(w, id, p);
      case DoMarkSeen(id) => UpdateKeeps(w, id, SEEN);
      case DoClear => ClearKeeps(w);
      case DoIngest(id, fetched) =>
        UnregisterKeeps(w, id);
        if fetched.Some? && Normalize(fetched.value).Some? { UpsertKeeps(w, Normalize(fetched.value).value); }
      case DoReconcile(items) => ReconcileFiles(w, items);
    }
  }

  lemma RegisterStepKeeps(w: Catalog, r: Resource)
    requires Inv(w) && Nameable(r)
    ensures Inv(Register(w, r, true).0)
  {
    if r.resourceId !in w.resources.items { RegisterKeeps(w, r, true); }
  }

  lemma ClearKeeps(w: Catalog)
    ensures Inv(Cleared(w))
  {}

  /** In every run of categorizing, non-blank operations: one linked entry per resource, and discovery by
      category agrees with a scan by type. */
  lemma {:induction false} EveryRunIndexed(w: Catalog, ops: seq<Op>)
    requires Inv(w) && forall op | op in ops :: Tame(op)
    ensures Inv(Run(w, ops))
    decreases |ops|
  {
    if ops != [] {
      ApplyKeeps(w, ops[0]);
      EveryRunIndexed(Apply(w, ops[0]), ops[1..]);
    }
  }

  lemma DiscoveryAgrees(w: Catalog, ops: seq<Op>, category: string, id: string)
    requires Inv(w) && w.index.Some? && forall op | op in ops :: Tame(op)
    ensures var v := Run(w, ops);
      && Inv(v) && v.index.Some?
      && Discover(v, None, None, None, Some(category)) == Scan(v, Some(category), None, None)
      && (id in v.resources.items ==> LinkedTo(v.index.value, id) == {EntryId(id)})
  {
    EveryRunIndexed(w, ops);
    StaysAttached(w, ops);
    DiscoverIsScan(Run(w, ops), None, None, category);
    if id in Run(w, ops).resources.items { OneEntryEach(Run(w, ops), id); }
  }

  lemma {:induction false} StaysAttached(w: Catalog, ops: seq<Op>)
    requires Inv(w) && forall op | op in ops :: Tame(op)
    ensures Run(w, ops).index.Some? == w.index.Some?
    decreases |ops|
  {
    if ops != [] {
      InvSound(w);
      assert Tame(ops[0]);
      if ops[0].DoReconcile? { ReconcileStaysAttached(w, ops[0].items); }
      ApplyKeeps(w, ops[0]);
      StaysAttached(Apply(w, ops[0]), ops[1..]);
    }
  }

  lemma ReconcileStaysAttached(w: Catalog, items: seq<Item>)
    requires Inv(w) && forall id | id in Target(items) :: Nameable(Target(items)[id])
    ensures Reconcile(w, items).0.index.Some? == w.index.Some?
  {
    InvSound(w);
    ReconcileReaches(w, items);
  }
}
