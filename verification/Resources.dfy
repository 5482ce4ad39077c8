/** The organization engine, the resource registry and the ingestor that keeps them in step with a backend. */
module Resources {
  import opened Names
  import opened Dicts
  import opened Sorting
  import opened ResourceSpec
  import opened IngestionSpec
  import opened Labels

  class OrganizationEngine {
    var entries: Dict<Entry>

    constructor ()
      ensures entries == Dict([], map[])
    {
      entries := Dict([], map[]);
    }

    method CategorizeResource(resource: Resource) returns (raised: Option<Raised>)
      modifies this
      ensures (entries, raised) == Categorize(old(entries), resource)
    {
      if !Nameable(resource) { return Some(InvalidEntry); }
      var entryId := EntryId(resource.resourceId);
      var candidate := EntryOf(resource);
      if entryId in entries.items {
        var existing := entries.items[entryId];
        existing := existing.(category := candidate.category, name := candidate.name,
                              resourceId := candidate.resourceId, metadata := candidate.metadata);
        entries := entries.Put(entryId, existing);
      } else {
        entries := entries.Put(entryId, candidate);
      }
      return None;
    }

    method RemoveResource(resourceId: string)
      requires entries.Valid()
      modifies this
      ensures entries.Valid() && entries == Unlink(old(entries), resourceId)
    {
      hide Dict.Without;
      var doomed := EntriesOf(resourceId);
      NothingWithout(entries);
      assert Elems(doomed[..0]) == {};
      for i := 0 to |doomed|
        invariant entries == old(entries).Without(Elems(doomed[..i]))
      {
        old(entries).WithoutTwice(Elems(doomed[..i]), {doomed[i]});
        assert Elems(doomed[..i + 1]) == Elems(doomed[..i]) + {doomed[i]};
        entries := entries.Without({doomed[i]});
      }
      assert doomed[..|doomed|] == doomed;
      old(entries).WithoutValid(Elems(doomed));
    }

    method EntriesOf(resourceId: string) returns (ids: seq<string>)
      requires entries.Valid()
      ensures Elems(ids) == LinkedTo(entries, resourceId)
    {
      ids := [];
      for i := 0 to |entries.keys|
        invariant forall k :: k in ids <==> k in entries.keys[..i] && entries.items[k].resourceId == Some(resourceId)
      {
        var k := entries.keys[i];
        assert entries.keys[..i + 1] == entries.keys[..i] + [k];
        if entries.items[k].resourceId == Some(resourceId) { ids := ids + [k]; }
      }
      assert entries.keys[..|entries.keys|] == entries.keys;
    }

    method ByCategory(category: string) returns (found: seq<Entry>)
      requires entries.Valid()
      ensures found == Where(entries.Values(), (e: Entry) => e.category == category)
      ensures (set e | e in found && e.resourceId.Some? :: e.resourceId.value) == Members(entries, category)
    {
      found := Where(entries.Values(), (e: Entry) => e.category == category);
      WhereMembers(entries.Values(), (e: Entry) => e.category == category);
      forall k | k in entries.items ensures entries.items[k] in entries.Values() {
        assert entries.Values()[Index(entries.keys, k)] == entries.items[k];
      }
    }

    method Clear()
      modifies this
      ensures entries == Dict([], map[])
    {
      entries := Dict([], map[]);
    }
  }

  lemma NothingWithout<V>(d: Dict<V>)
    requires d.Valid()
    ensures d.Without({}) == d
  {
    var none: set<string> := {};
    WhereAll(d.keys, k => k !in none);
    assert d.items - none == d.items;
  }

  class ResourceRegistry {
    var resources: Dict<Resource>
    var organization: OrganizationEngine?

    ghost function Now(): Catalog
      reads this, organization
    {
      Catalog(resources, if organization == null then None else Some(organization.entries))
    }

    ghost predicate Valid()
      reads this, organization
    {
      Sound(Now())
    }

    constructor (organization: OrganizationEngine?)
      ensures resources == Dict([], map[]) && this.organization == organization
    {
      resources, this.organization := Dict([], map[]), organization;
    }

    method Categorized(resource: Resource) returns (raised: Option<Raised>)
      modifies organization
      ensures (Now(), raised) == Recategorize(old(Now()), resource)
    {
      if organization == null { return None; }
      raised := organization.CategorizeResource(resource);
    }

    method Register(resource: Resource, categorize: bool) returns (raised: Option<Raised>)
      modifies this, organization
      ensures organization == old(organization)
      ensures (Now(), raised) == ResourceSpec.Register(old(Now()), resource, categorize)
      ensures resources.items == if raised == Some(AlreadyRegistered) then old(resources).items
                                 else old(resources).items[resource.resourceId := resource]
      ensures raised == Some(AlreadyRegistered) <==> resource.resourceId in old(resources).items
    {
      if resource.resourceId in resources.items { return Some(AlreadyRegistered); }
      resources := resources.Put(resource.resourceId, resource);
      if !categorize { return None; }
      raised := Categorized(resource);
    }

    method Unregister(resourceId: string) returns (raised: Option<Raised>)
      requires Valid()
      modifies this, organization
      ensures Valid() && organization == old(organization)
      ensures (Now(), raised) == ResourceSpec.Unregister(old(Now()), resourceId)
    {
      UnregisterEffect(Now(), resourceId);
      if resourceId !in resources.items { return Some(NotFound); }
      resources := resources.Without({resourceId});
      if organization != null { organization.RemoveResource(resourceId); }
      return None;
    }

    method Update(resourceId: string, p: Patch) returns (raised: Option<Raised>)
      modifies this
      ensures organization == old(organization)
      ensures (Now(), raised) == ResourceSpec.Update(old(Now()), resourceId, p)
    {
      if resourceId !in resources.items { return Some(NotFound); }
      var resource := resources.items[resourceId];
      if p.name.Some? { resource := resource.(name := p.name.value); }
      if p.status.Some? { resource := resource.(status := p.status.value); }
      if p.owner.Some? { resource := resource.(owner := p.owner); }
      if p.source.Some? { resource := resource.(source := p.source); }
      if p.capabilities.Some? { resource := resource.(capabilities := p.capabilities.value); }
      if p.metadata.Some? { resource := resource.(metadata := p.metadata.value); }
      if p.connectionInfo.Some? { resource := resource.(connectionInfo := p.connectionInfo.value); }
      resources := resources.Put(resourceId, resource);
      return None;
    }

    method List(resourceType: Option<string>, status: Option<string>) returns (found: seq<Resource>)
      requires Valid()
      ensures found == Scan(Now(), resourceType, status, None)
    {
      var all := resources.Values();
      found := all;
      if resourceType.Some? { found := Where(found, Wanted(resourceType, None, None)); }
      else { WhereAll(all, Wanted(None, None, None)); }
      assert found == Where(all, Wanted(resourceType, None, None));
      if status.Some? {
        found := Where(found, Wanted(None, status, None));
        WhereTwice(all, Wanted(resourceType, None, None), Wanted(None, status, None), Wanted(resourceType, status, None));
      }
    }

    method Discover(resourceType: Option<string>, status: Option<string>, owner: Option<string>, category: Option<string>)
        returns (found: seq<Resource>)
      requires Valid()
      ensures found == ResourceSpec.Discover(Now(), resourceType, status, owner, category)
    {
      hide Where, Members;
      found := List(resourceType, status);
      if owner.Some? {
        found := Where(found, Wanted(None, None, owner));
        WhereTwice(resources.Values(), Wanted(resourceType, status, None), Wanted(None, None, owner),
                   Wanted(resourceType, status, owner));
      }
      assert found == Scan(Now(), resourceType, status, owner);
      if category.Some? {
        if organization == null { return []; }
        var entries := organization.ByCategory(category.value);
        var ids := set e | e in entries && e.resourceId.Some? :: e.resourceId.value;
        assert ids == Members(organization.entries, category.value);
        found := Where(found, IdIn(ids));
      }
    }

    method Clear()
      modifies this, organization
      ensures Valid() && organization == old(organization) && Now() == Cleared(old(Now()))
      ensures resources == Dict([], map[]) && (organization != null ==> organization.entries == Dict([], map[]))
    {
      resources := Dict([], map[]);
      if organization != null { organization.Clear(); }
    }
  }

  datatype Report = Report(
    added: seq<string>, updated: seq<string>, removed: seq<string>, untouched: seq<string>,
    failed: seq<string>, errors: map<string, Flaw>)

  /** The report lists each id once, in order, under what happened to it. */
  ghost predicate Reports(report: Report, current: map<string, Resource>, items: seq<Item>) {
    var target := Target(items);
    && ListsSet(report.added, Added(current, target)) && ListsSet(report.updated, Updated(current, target))
    && ListsSet(report.untouched, Unchanged(current, target)) && ListsSet(report.removed, Removed(current, target))
    && ListsSet(report.failed, report.errors.Keys) && |report.failed| == Invalid(items)
    && exists labels :: RecordedAll(items, labels, report.errors)
  }

  /** The invalid items, in id order, are on record under these labels. */
  ghost predicate RecordedAll(items: seq<Item>, labels: seq<string>, errors: map<string, Flaw>) {
    var sorted := StableSort(items, ByKey());
    Recorded(sorted, |sorted|, labels, errors)
  }

  /** Those of the ids gone through so far that are wanted, in that order. */
  ghost predicate Collects(list: seq<string>, seen: seq<string>, wanted: set<string>) {
    Distinct(list) && forall x :: x in list <==> x in seen && x in wanted
  }

  lemma CollectsNext(list: seq<string>, ids: seq<string>, i: nat, wanted: set<string>)
    requires i < |ids| && Distinct(ids) && Collects(list, ids[..i], wanted)
    ensures Collects(if ids[i] in wanted then list + [ids[i]] else list, ids[..i + 1], wanted)
  {
    assert ids[..i + 1] == ids[..i] + [ids[i]] && ids[i] !in ids[..i];
  }

  lemma CollectsNone(ids: seq<string>, wanted: set<string>)
    ensures Collects([], ids[..0], wanted)
  {}

  lemma CollectsAll(list: seq<string>, ids: seq<string>, wanted: set<string>)
    requires Collects(list, ids[..|ids|], wanted) && wanted <= Elems(ids)
    ensures Distinct(list) && Elems(list) == wanted
  {
    assert ids[..|ids|] == ids;
  }

  /** The listed ids gone through so far, told apart by what happens to them. */
  ghost predicate Sorts(added: seq<string>, updated: seq<string>, untouched: seq<string>, seen: seq<string>,
                        current: map<string, Resource>, target: map<string, Resource>) {
    && Collects(added, seen, Added(current, target)) && Collects(updated, seen, Updated(current, target))
    && Collects(untouched, seen, Unchanged(current, target))
  }

  lemma SortsNone(ids: seq<string>, current: map<string, Resource>, target: map<string, Resource>)
    ensures Sorts([], [], [], ids[..0], current, target)
  {}

  lemma SortsNext(added: seq<string>, updated: seq<string>, untouched: seq<string>, ids: seq<string>, i: nat,
                  current: map<string, Resource>, target: map<string, Resource>)
    requires i < |ids| && Distinct(ids) && ids[i] in target && Sorts(added, updated, untouched, ids[..i], current, target)
    ensures var id := ids[i];
      if id !in current then Sorts(added + [id], updated, untouched, ids[..i + 1], current, target)
      else if Same(current[id], target[id]) then Sorts(added, updated, untouched + [id], ids[..i + 1], current, target)
      else Sorts(added, updated + [id], untouched, ids[..i + 1], current, target)
  {
    hide Same, Collects;
    CollectsNext(added, ids, i, Added(current, target));
    CollectsNext(updated, ids, i, Updated(current, target));
    CollectsNext(untouched, ids, i, Unchanged(current, target));
  }

  lemma SortsAll(added: seq<string>, updated: seq<string>, untouched: seq<string>, ids: seq<string>,
                 current: map<string, Resource>, target: map<string, Resource>)
    requires Elems(ids) == target.Keys && Sorts(added, updated, untouched, ids[..|ids|], current, target)
    ensures Distinct(added) && Distinct(updated) && Distinct(untouched)
    ensures Elems(added) == Added(current, target) && Elems(updated) == Updated(current, target)
    ensures Elems(untouched) == Unchanged(current, target)
  {
    hide Same, Collects;
    CollectsAll(added, ids, Added(current, target));
    CollectsAll(updated, ids, Updated(current, target));
    CollectsAll(untouched, ids, Unchanged(current, target));
  }

  /** The ids still to come are as they were. */
  ghost predicate Agrees(items: map<string, Resource>, current: map<string, Resource>, rest: seq<string>) {
    forall id | id in rest :: (id in current <==> id in items) && (id in current ==> items[id] == current[id])
  }

  lemma AgreesNext(items: map<string, Resource>, current: map<string, Resource>, ids: seq<string>, i: nat, r: Resource)
    requires i < |ids| && Distinct(ids) && Agrees(items, current, ids[i..])
    ensures Agrees(items[ids[i] := r], current, ids[i + 1..])
    ensures (ids[i] in current <==> ids[i] in items) && (ids[i] in current ==> items[ids[i]] == current[ids[i]])
  {
    assert ids[i..][0] == ids[i] && ids[i..] == [ids[i]] + ids[i + 1..];
  }

  lemma AgreesFirst(current: map<string, Resource>, ids: seq<string>)
    ensures Agrees(current, current, ids)
  {}

  lemma NothingListed(items: seq<Item>)
    ensures Target(items[|items|..]) == map[] && Invalid(items[|items|..]) == 0
  {}

  lemma ListingNext(items: seq<Item>, i: nat, m: map<string, Resource>)
    requires i < |items|
    ensures var r := Normalize(items[i]);
      && m + Target(items[i..]) == (if r == None then m else m[r.value.resourceId := r.value]) + Target(items[i + 1..])
      && Invalid(items[i..]) == (if r == None then 1 else 0) + Invalid(items[i + 1..])
  {
    hide Normalize;
    assert items[i..][0] == items[i] && items[i..][1..] == items[i + 1..];
  }

  class ResourceIngestor {
    const registry: ResourceRegistry

    constructor (registry: ResourceRegistry)
      ensures this.registry == registry
    {
      this.registry := registry;
    }

    method UpsertNormalized(normalized: Resource) returns (created: bool, raised: Option<Raised>)
      requires registry.Valid()
      modifies registry, registry.organization
      ensures registry.Valid() && registry.organization == old(registry.organization)
      ensures (registry.Now(), raised) == Upsert(old(registry.Now()), normalized)
      ensures var was, id := old(registry.resources.items), normalized.resourceId;
        created <==> !(id in was && was[id].resourceType == normalized.resourceType)
    {
      ghost var w := registry.Now();
      UpsertEffect(w, normalized);
      var id := normalized.resourceId;
      if id !in registry.resources.items {
        raised := registry.Register(normalized, true);
        return true, raised;
      }
      var existing := registry.resources.items[id];
      if existing.resourceType != normalized.resourceType {
        var _ := registry.Unregister(id);
        raised := registry.Register(normalized, true);
        return true, raised;
      }
      var _ := registry.Update(id, Patch(Some(normalized.name), None, normalized.owner, normalized.source,
        Some(normalized.capabilities), Some(normalized.metadata), None));
      raised := registry.Categorized(registry.resources.items[id]);
      return false, raised;
    }

    /** `ingest_resource`, given what the backend returned for the id. */
    method IngestResource(resourceId: string, stored: Option<Item>) returns (raised: Option<Raised>)
      requires registry.Valid()
      modifies registry, registry.organization
      ensures registry.Valid() && registry.organization == old(registry.organization)
      ensures (registry.Now(), raised) == Ingest(old(registry.Now()), resourceId, stored)
    {
      hide Upsert, ResourceSpec.Unregister, Sound;
      if resourceId == "" { return Some(InvalidEntry); }
      if stored == None {
        var _ := registry.Unregister(resourceId);
        return Some(NotFound);
      }
      var normalized := Normalize(stored.value);
      if normalized == None { return Some(InvalidEntry); }
      var _, refused := UpsertNormalized(normalized.value);
      return refused;
    }

    method Reconcile(storedAll: seq<Item>) returns (report: Report, raised: Option<Raised>)
      requires registry.Valid()
      modifies registry, registry.organization
      ensures registry.Valid() && registry.organization == old(registry.organization)
      ensures (registry.Now(), raised) == IngestionSpec.Reconcile(old(registry.Now()), storedAll)
      ensures raised == None ==> Reports(report, old(registry.resources.items), storedAll)
    {
      var authoritative, failed, errors := ReadListing(storedAll);
      forall id | id in authoritative ensures authoritative[id].resourceId == id { ListedIff(storedAll, id); }
      var current := registry.resources.items;
      report := Report([], [], [], [], [], map[]);
      var added, updated, untouched;
      added, updated, untouched, raised := SettleListed(authoritative, current);
      if raised.Some? { return; }
      var removed := DropAbsent(authoritative, current);
      SortedNames(added);
      SortedNames(updated);
      SortedNames(removed);
      SortedNames(untouched);
      SortedNames(failed);
      SortPermutes(failed, ByName());
      report := Report(StableSort(added, ByName()), StableSort(updated, ByName()), StableSort(removed, ByName()),
                       StableSort(untouched, ByName()), StableSort(failed, ByName()), errors);
    }

    /** Normalize the items in id order; an invalid one is reported under a label not used so far. */
    method ReadListing(storedAll: seq<Item>)
        returns (authoritative: map<string, Resource>, failed: seq<string>, errors: map<string, Flaw>)
      ensures authoritative == Target(storedAll) && |failed| == Invalid(storedAll)
      ensures Distinct(failed) && Elems(failed) == errors.Keys
      ensures RecordedAll(storedAll, failed, errors)
    {
      hide Normalize, FlawIn, StableSort, Target, Invalid, Chosen;
      authoritative, failed, errors := map[], [], map[];
      var items := StableSort(storedAll, ByKey());
      OrderIrrelevant(storedAll);
      assert items[0..] == items;
      for i := 0 to |items|
        invariant authoritative + Target(items[i..]) == Target(items)
        invariant |failed| + Invalid(items[i..]) == Invalid(items)
        invariant Recorded(items, i, failed, errors) && Elems(failed) == errors.Keys
      {
        ListingNext(items, i, authoritative);
        FlawIff(items[i]);
        var normalized := Normalize(items[i]);
        if normalized == None {
          var name := NextLabel(items[i], i, errors.Keys);
          RecordedNext(items, i, failed, errors, name);
          ElemsAppend(failed, name);
          failed := failed + [name];
          errors := errors[name := FlawIn(items[i]).value];
        } else {
          RecordedValid(items, i, failed, errors);
          authoritative := authoritative[normalized.value.resourceId := normalized.value];
        }
      }
      RecordedOnce(items, |items|, failed, errors);
      NothingListed(items);
    }

    /** Add or update a listed resource, or only file an unchanged one again. */
    method SettleOne(existing: Option<Resource>, normalized: Resource) returns (raised: Option<Raised>)
      requires registry.Valid()
      requires existing == if normalized.resourceId in registry.resources.items
                           then Some(registry.resources.items[normalized.resourceId]) else None
      modifies registry, registry.organization
      ensures registry.Valid() && registry.organization == old(registry.organization)
      ensures (registry.Now(), raised) == Settle(old(registry.Now()), normalized)
    {
      hide Upsert, Recategorize, Sound, Same;
      if existing.Some? && Same(existing.value, normalized) {
        RecategorizeEffect(registry.Now(), existing.value);
        var _ := registry.Categorized(existing.value);
        return None;
      }
      var _, refused := UpsertNormalized(normalized);
      return refused;
    }

    method SettleListed(authoritative: map<string, Resource>, current: map<string, Resource>)
        returns (added: seq<string>, updated: seq<string>, untouched: seq<string>, raised: Option<Raised>)
      requires registry.Valid() && registry.resources.items == current
      requires forall id | id in authoritative :: authoritative[id].resourceId == id
      modifies registry, registry.organization
      ensures registry.Valid() && registry.organization == old(registry.organization)
      ensures (registry.Now(), raised) == SettleAll(old(registry.Now()), authoritative, Sorted(authoritative.Keys))
      ensures raised == None ==>
        && Distinct(added) && Distinct(updated) && Distinct(untouched)
        && Elems(added) == Added(current, authoritative) && Elems(updated) == Updated(current, authoritative)
        && Elems(untouched) == Unchanged(current, authoritative)
    {
      hide Upsert, Recategorize, Goal, Blocks, Sound, Same, Settle, Agrees, Sorts;
      added, updated, untouched, raised := [], [], [], None;
      ghost var w := registry.Now();
      var ids := Sorted(authoritative.Keys);
      AgreesFirst(current, ids[0..]);
      SortsNone(ids, current, authoritative);
      for i := 0 to |ids|
        invariant registry.Valid() && registry.organization == old(registry.organization)
        invariant raised == None && SettleAll(registry.Now(), authoritative, ids[i..]) == SettleAll(w, authoritative, ids)
        invariant Agrees(registry.resources.items, current, ids[i..])
        invariant Sorts(added, updated, untouched, ids[..i], current, authoritative)
      {
        var id := ids[i];
        assert id in Elems(ids) && ids[i..][0] == id && ids[i..][1..] == ids[i + 1..];
        SettleEffect(registry.Now(), authoritative[id]);
        AgreesNext(registry.resources.items, current, ids, i, Goal(registry.resources.items, authoritative[id]));
        SortsNext(added, updated, untouched, ids, i, current, authoritative);
        var existing := if id in current then Some(current[id]) else None;
        raised := SettleOne(existing, authoritative[id]);
        if raised.Some? { return; }
        if existing == None { added := added + [id]; }
        else if Same(current[id], authoritative[id]) { untouched := untouched + [id]; }
        else { updated := updated + [id]; }
      }
      SortsAll(added, updated, untouched, ids, current, authoritative);
    }

    method DropAbsent(authoritative: map<string, Resource>, current: map<string, Resource>) returns (removed: seq<string>)
      requires registry.Valid()
      modifies registry, registry.organization
      ensures registry.Valid() && registry.organization == old(registry.organization)
      ensures registry.Now() == DropAll(old(registry.Now()), authoritative, Sorted(current.Keys))
      ensures Distinct(removed) && Elems(removed) == Removed(current, authoritative)
    {
      hide ResourceSpec.Unregister, Sound, Collects;
      removed := [];
      ghost var w := registry.Now();
      var ids := Sorted(current.Keys);
      CollectsNone(ids, Removed(current, authoritative));
      for i := 0 to |ids|
        invariant registry.Valid() && registry.organization == old(registry.organization)
        invariant DropAll(registry.Now(), authoritative, ids[i..]) == DropAll(w, authoritative, ids)
        invariant Collects(removed, ids[..i], Removed(current, authoritative))
      {
        var id := ids[i];
        assert id in Elems(ids) && ids[i..][0] == id && ids[i..][1..] == ids[i + 1..];
        CollectsNext(removed, ids, i, Removed(current, authoritative));
        if id !in authoritative {
          var _ := registry.Unregister(id);
          removed := removed + [id];
        }
      }
      CollectsAll(removed, ids, Removed(current, authoritative));
    }
  }
}
