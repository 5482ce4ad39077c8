/** Reconciling the registry with an authoritative listing, as functions on the catalog. */
module IngestionSpec {
  import opened Names
  import opened Sorting
  import opened ResourceSpec

  /** A value of the external listing; `Other` is one of the wrong type. */
  datatype Field = Absent | Null | Text(text: string) | Other
  datatype Capabilities = NoCapabilities | Strings(names: seq<string>) | BadCapabilities
  datatype Metadata = NoMetadata | Mapping(entries: map<string, string>) | BadMetadata

  datatype Item =
    | NotAnObject
    | Item(resourceId: Field, resourceType: Field, name: Field, owner: Field, source: Field,
           capabilities: Capabilities, metadata: Metadata)

  predicate Required(f: Field) { f.Text? && f.text != "" }

  predicate Optional(f: Field) { f.Absent? || f.Null? || Required(f) }

  /** `normalize_resource`; None where validation raises. */
  function Normalize(item: Item): Option<Resource> {
    if item.Item? && Required(item.resourceId) && Required(item.resourceType) && Required(item.name)
       && Optional(item.owner) && Optional(item.source) && !item.capabilities.BadCapabilities? && !item.metadata.BadMetadata?
    then
      Some(Resource(item.resourceId.text, item.name.text, item.resourceType.text, "offline",
        if item.owner.Text? then Some(item.owner.text) else None, if item.source.Text? then Some(item.source.text) else None,
        if item.capabilities.Strings? then item.capabilities.names else [],
        if item.metadata.Mapping? then item.metadata.entries else map[], map[]))
    else None
  }

  /** The item that lists a resource. */
  function Listing(r: Resource): Item {
    Item(Text(r.resourceId), Text(r.resourceType), Text(r.name), if r.owner.Some? then Text(r.owner.value) else Null,
         if r.source.Some? then Text(r.source.value) else Absent, Strings(r.capabilities), Mapping(r.metadata))
  }

  /** A resource that is listed is read back with everything the listing carries, exactly when no text of it is empty. */
  lemma NormalizeRoundTrip(r: Resource)
    ensures Normalize(Listing(r)) ==
      if r.resourceId != "" && r.resourceType != "" && r.name != "" && r.owner != Some("") && r.source != Some("")
      then Some(r.(status := "offline", connectionInfo := map[])) else None
  {}

  /** An item is read exactly when it has non-empty texts for id, type and name, a non-empty text or nothing for owner
      and source, and lists and mappings where it has any; a resource that is read is offline. */
  lemma NormalizeReads(item: Item, r: Resource)
    ensures Normalize(item) == Some(r) <==>
      && item.Item?
      && item.resourceId == Text(r.resourceId) && r.resourceId != "" && item.resourceType == Text(r.resourceType)
      && r.resourceType != "" && item.name == Text(r.name) && r.name != ""
      && (if r.owner.Some? then item.owner == Text(r.owner.value) && r.owner.value != "" else item.owner in {Absent, Null})
      && (if r.source.Some? then item.source == Text(r.source.value) && r.source.value != "" else item.source in {Absent, Null})
      && (item.capabilities == Strings(r.capabilities) || (item.capabilities == NoCapabilities && r.capabilities == []))
      && (item.metadata == Mapping(r.metadata) || (item.metadata == NoMetadata && r.metadata == map[]))
      && r.status == "offline" && r.connectionInfo == map[]
  {}

  function SortKey(item: Item): string { if item.Item? && item.resourceId.Text? then item.resourceId.text else "" }

  function ByKey(): (Item, Item) -> bool { (a: Item, b: Item) => Le(SortKey(a), SortKey(b)) }

  // ---- the listed state: the last valid item of each id ----

  function Target(items: seq<Item>): map<string, Resource> {
    if items == [] then map[] else Claim(Normalize(items[0]), Target(items[1..]))
  }

  /** An item counts unless a later one claims its id. */
  function Claim(r: Option<Resource>, later: map<string, Resource>): map<string, Resource> {
    if r == None || r.value.resourceId in later then later else later[r.value.resourceId := r.value]
  }

  function Invalid(items: seq<Item>): nat {
    if items == [] then 0 else (if Normalize(items[0]) == None then 1 else 0) + Invalid(items[1..])
  }

  predicate Lists(item: Item, id: string) {
    Normalize(item).Some? && Normalize(item).value.resourceId == id
  }

  /** The listed state has an id exactly when a valid item lists it. */
  lemma {:induction false} ListedIff(items: seq<Item>, id: string)
    ensures id in Target(items) <==> exists i :: 0 <= i < |items| && Lists(items[i], id)
    ensures id in Target(items) ==> Target(items)[id].resourceId == id
  {
    hide Normalize;
    if items != [] {
      var rest := items[1..];
      ListedIff(rest, id);
      if i :| 0 <= i < |items| && Lists(items[i], id) {
        assert i > 0 ==> rest[i - 1] == items[i];
      }
      if i :| 0 <= i < |rest| && Lists(rest[i], id) {
        assert items[i + 1] == rest[i];
      }
    }
  }

  /** It has there what the last valid item listing it says. */
  lemma {:induction false} LastValidWins(items: seq<Item>, i: nat)
    requires i < |items| && Normalize(items[i]).Some?
    requires forall j | i < j < |items| :: !Lists(items[j], Normalize(items[i]).value.resourceId)
    ensures var r := Normalize(items[i]).value; r.resourceId in Target(items) && Target(items)[r.resourceId] == r
  {
    hide Normalize;
    var rest := items[1..];
    if i == 0 {
      assert forall j | 0 <= j < |rest| :: rest[j] == items[j + 1];
      ListedIff(rest, Normalize(items[0]).value.resourceId);
    } else {
      assert forall j | i - 1 < j < |rest| :: rest[j] == items[j + 1];
      LastValidWins(rest, i - 1);
    }
  }

  lemma {:induction false} InsertClaims(x: Item, items: seq<Item>)
    ensures Target(Insert(x, items, ByKey())) == Claim(Normalize(x), Target(items))
    ensures Invalid(Insert(x, items, ByKey())) == Invalid([x] + items)
  {
    if items != [] && !ByKey()(x, items[0]) {
      LeTotal(SortKey(x), SortKey(x));
      assert SortKey(x) != SortKey(items[0]);
      InsertClaims(x, items[1..]);
      var moved := Insert(x, items[1..], ByKey());
      assert ([items[0]] + moved)[1..] == moved && ([x] + items)[1..] == items && ([x] + items[1..])[1..] == items[1..];
    } else {
      assert ([x] + items)[1..] == items;
    }
  }

  /** Processing the items in id order, as `sorted` arranges them, comes to the same listed state. */
  lemma {:induction false} OrderIrrelevant(items: seq<Item>)
    ensures Target(StableSort(items, ByKey())) == Target(items)
    ensures Invalid(StableSort(items, ByKey())) == Invalid(items)
  {
    if items != [] {
      OrderIrrelevant(items[1..]);
      var rest := StableSort(items[1..], ByKey());
      InsertClaims(items[0], rest);
      assert ([items[0]] + rest)[1..] == rest;
    }
  }

  /** The items are gone through by id, those without a text for an id first. */
  lemma ItemsOrdered(items: seq<Item>, i: nat, j: nat)
    requires i < j < |StableSort(items, ByKey())|
    ensures var x, y := StableSort(items, ByKey())[i], StableSort(items, ByKey())[j];
      && (x.Item? && x.resourceId.Text? && y.Item? && y.resourceId.Text? ==> Le(x.resourceId.text, y.resourceId.text))
      && (x.Item? && x.resourceId.Text? && x.resourceId.text != "" ==> y.Item? && y.resourceId.Text?)
  {
    KeysOrdered();
    SortOrdered(items, ByKey(), (a, b) => true);
    var s := StableSort(items, ByKey());
    assert ByKey()(s[i], s[j]);
  }

  lemma KeysOrdered()
    ensures TotalPreorder(ByKey())
  {
    forall x: Item, y: Item ensures ByKey()(x, y) || ByKey()(y, x) { LeTotal(SortKey(x), SortKey(y)); }
    forall x: Item, y: Item, z: Item | ByKey()(x, y) && ByKey()(y, z) ensures ByKey()(x, z) {
      LeTransitive(SortKey(x), SortKey(y), SortKey(z));
    }
  }

  // ---- one resource ----

  /** `_upsert_normalized` */
  function Upsert(w: Catalog, r: Resource): (Catalog, Option<Raised>) {
    var id := r.resourceId;
    if id !in w.resources.items then Register(w, r, true)
    else if w.resources.items[id].resourceType != r.resourceType then Register(Unregister(w, id).0, r, true)
    else
      var w1 := Update(w, id, Refresh(r)).0;
      if id in w1.resources.items then Recategorize(w1, w1.resources.items[id]) else (w1, None)
  }

  function Refresh(r: Resource): Patch {
    Patch(Some(r.name), None, r.owner, r.source, Some(r.capabilities), Some(r.metadata), None)
  }

  /** `_normalized_equals` */
  predicate Same(a: Resource, b: Resource) {
    a.name == b.name && a.resourceType == b.resourceType && a.owner == b.owner && a.source == b.source &&
    a.capabilities == b.capabilities && a.metadata == b.metadata
  }

  /** Bring one listed resource up to date; an unchanged one is only filed again, ignoring failures. */
  function Settle(w: Catalog, r: Resource): (Catalog, Option<Raised>) {
    var id := r.resourceId;
    if id in w.resources.items && Same(w.resources.items[id], r) then (Recategorize(w, w.resources.items[id]).0, None)
    else Upsert(w, r)
  }

  function SettleAll(w: Catalog, target: map<string, Resource>, ids: seq<string>): (Catalog, Option<Raised>)
    decreases |ids|
  {
    if ids == [] || ids[0] !in target then (w, None)
    else
      var (w1, raised) := Settle(w, target[ids[0]]);
      if raised.Some? then (w1, raised) else SettleAll(w1, target, ids[1..])
  }

  function DropAll(w: Catalog, target: map<string, Resource>, ids: seq<string>): Catalog
    decreases |ids|
  {
    if ids == [] then w
    else DropAll(if ids[0] in target then w else Unregister(w, ids[0]).0, target, ids[1..])
  }

  /** `ingest_resource` with what the backend returned for the id. */
  function Ingest(w: Catalog, id: string, fetched: Option<Item>): (Catalog, Option<Raised>) {
    if id == "" then (w, Some(InvalidEntry))
    else if fetched == None then (Unregister(w, id).0, Some(NotFound))
    else
      var r := Normalize(fetched.value);
      if r == None then (w, Some(InvalidEntry)) else Upsert(w, r.value)
  }

  /** `reconcile` on a listing, with what it raises. */
  function Reconcile(w: Catalog, items: seq<Item>): (Catalog, Option<Raised>) {
    var target := Target(items);
    var (w1, raised) := SettleAll(w, target, Sorted(target.Keys));
    if raised.Some? then (w1, raised) else (DropAll(w1, target, Sorted(w.resources.items.Keys)), None)
  }

  function Added(current: map<string, Resource>, target: map<string, Resource>): set<string> { target.Keys - current.Keys }
  function Removed(current: map<string, Resource>, target: map<string, Resource>): set<string> { current.Keys - target.Keys }
  function Unchanged(current: map<string, Resource>, target: map<string, Resource>): set<string> {
    set id | id in current && id in target && Same(current[id], target[id])
  }
  function Updated(current: map<string, Resource>, target: map<string, Resource>): set<string> {
    set id | id in current && id in target && !Same(current[id], target[id])
  }

  // ---- what one resource comes to ----

  /** The listed content over what was there: an owner or source the listing leaves out is kept, and so is
      presence, unless the type changed. */
  function Goal(current: map<string, Resource>, r: Resource): Resource {
    if r.resourceId in current && current[r.resourceId].resourceType == r.resourceType
    then Patched(current[r.resourceId], Refresh(r)) else r
  }

  /** The update or registration of r fails on blank names. */
  predicate Blocks(current: map<string, Resource>, r: Resource) {
    !Nameable(r) && !(r.resourceId in current && Same(current[r.resourceId], r))
  }

  /** Ingesting one resource: what the backend no longer has is unregistered, what it has but cannot be read changes
      nothing, and anything else comes to its goal. */
  lemma IngestEffect(w: Catalog, id: string, fetched: Option<Item>)
    requires Sound(w)
    ensures var (w1, raised), items := Ingest(w, id, fetched), w.resources.items;
      && (id == "" ==> w1 == w && raised == Some(InvalidEntry))
      && (id != "" && fetched == None ==> w1.resources.items == items - {id} && raised == Some(NotFound))
      && (id != "" && fetched.Some? && Normalize(fetched.value) == None ==> w1 == w && raised == Some(InvalidEntry))
      && (id != "" && fetched.Some? && Normalize(fetched.value).Some? ==>
            var r := Normalize(fetched.value).value;
            && w1.resources.items == items[r.resourceId := Goal(items, r)]
            && raised == if w.index.Some? && !Nameable(r) then Some(InvalidEntry) else None)
  {
    hide Normalize, Sound, Register, Unregister, Update, Recategorize;
    if fetched == None {
      UnregisterEffect(w, id);
    } else if Normalize(fetched.value).Some? {
      UpsertEffect(w, Normalize(fetched.value).value);
    }
  }

  lemma UpsertEffect(w: Catalog, r: Resource)
    requires Sound(w)
    ensures var (w1, raised) := Upsert(w, r);
      && Sound(w1) && w1.index.Some? == w.index.Some?
      && w1.resources.items == w.resources.items[r.resourceId := Goal(w.resources.items, r)]
      && raised == if w.index.Some? && !Nameable(r) then Some(InvalidEntry) else None
  {
    hide Register, Unregister, Update, Recategorize, Sound;
    var id, items := r.resourceId, w.resources.items;
    if id !in items {
      RegisterEffect(w, r);
    } else if items[id].resourceType != r.resourceType {
      UnregisterEffect(w, id);
      RegisterEffect(Unregister(w, id).0, r);
      Overwrite(items, id, items[id], r);
      assert (items - {id})[id := r] == items[id := r];
    } else {
      UpdateEffect(w, id, Refresh(r));
      var w1 := Update(w, id, Refresh(r)).0;
      SoundId(w, id);
      assert Nameable(w1.resources.items[id]) == Nameable(r);
      RecategorizeEffect(w1, w1.resources.items[id]);
    }
  }

  lemma RecategorizeEffect(w: Catalog, r: Resource)
    requires Sound(w)
    ensures var (w1, raised) := Recategorize(w, r);
      && Sound(w1) && w1.index.Some? == w.index.Some? && w1.resources == w.resources
      && raised == (if w.index.Some? && !Nameable(r) then Some(InvalidEntry) else None)
  {}

  lemma UnregisterEffect(w: Catalog, id: string)
    requires Sound(w)
    ensures var w1 := Unregister(w, id).0;
      Sound(w1) && w1.index.Some? == w.index.Some? && w1.resources.items == w.resources.items - {id}
  {
    w.resources.WithoutValid({id});
    if w.index.Some? { w.index.value.WithoutValid(LinkedTo(w.index.value, id)); }
  }

  lemma RegisterEffect(w: Catalog, r: Resource)
    requires Sound(w) && r.resourceId !in w.resources.items
    ensures var (w1, raised) := Register(w, r, true);
      && Sound(w1) && w1.index.Some? == w.index.Some? && w1.resources.items == w.resources.items[r.resourceId := r]
      && raised == (if w.index.Some? && !Nameable(r) then Some(InvalidEntry) else None)
  {
    var w1 := w.(resources := w.resources.Put(r.resourceId, r));
    w.resources.PutValid(r.resourceId, r);
    RecategorizeEffect(w1, r);
  }

  lemma UpdateEffect(w: Catalog, id: string, p: Patch)
    requires Sound(w) && id in w.resources.items
    ensures var w1 := Update(w, id, p).0;
      Sound(w1) && w1.index == w.index && w1.resources.items == w.resources.items[id := Patched(w.resources.items[id], p)]
  {
    w.resources.PutValid(id, Patched(w.resources.items[id], p));
  }

  /** Every step puts the goal in place; it raises exactly when the engine refuses a changed resource. */
  lemma SettleEffect(w: Catalog, r: Resource)
    requires Sound(w)
    ensures var (w1, raised) := Settle(w, r);
      && Sound(w1) && w1.index.Some? == w.index.Some?
      && w1.resources.items == w.resources.items[r.resourceId := Goal(w.resources.items, r)]
      && raised == if w.index.Some? && Blocks(w.resources.items, r) then Some(InvalidEntry) else None
  {
    hide Upsert, Recategorize, Sound;
    var id, items := r.resourceId, w.resources.items;
    if id in items && Same(items[id], r) {
      assert Goal(items, r) == items[id] && items[id := items[id]] == items;
      RecategorizeEffect(w, items[id]);
    } else {
      UpsertEffect(w, r);
    }
  }

  lemma SoundId(w: Catalog, id: string)
    requires Sound(w) && id in w.resources.items
    ensures w.resources.items[id].resourceId == id
  {}

  lemma RecategorizeFiles(w: Catalog, id: string)
    requires Inv(w) && id in w.resources.items && w.index.Some? && Nameable(w.resources.items[id])
    ensures var w1 := Recategorize(w, w.resources.items[id]).0;
      && Inv(w1) && w1.index.Some?
      && w1.index.value.items == w.index.value.items[EntryId(id) := EntryOf(w.resources.items[id])]
  {
    RecategorizeKeeps(w, id);
    CategorizeFiles(w.index.value, w.resources.items[id]);
  }

  lemma RegisterFiles(w: Catalog, r: Resource)
    requires Inv(w) && r.resourceId !in w.resources.items && w.index.Some? && Nameable(r)
    ensures var w1 := Register(w, r, true).0;
      && Inv(w1) && w1.index.Some? && w1.index.value.items == w.index.value.items[EntryId(r.resourceId) := EntryOf(r)]
  {
    RegisterKeeps(w, r, true);
    CategorizeFiles(w.index.value, r);
  }

  lemma UnregisterUnfiles(w: Catalog, id: string)
    requires Inv(w) && id in w.resources.items && w.index.Some?
    ensures var w1 := Unregister(w, id).0;
      Inv(w1) && w1.index.Some? && w1.index.value.items == w.index.value.items - {EntryId(id)}
  {
    UnregisterKeeps(w, id);
    OneEntryEach(w, id);
  }

  /** With names the engine accepts, every step keeps the index exact and files the resource afresh. */
  lemma SettleKeeps(w: Catalog, r: Resource)
    requires Inv(w) && w.index.Some? && Nameable(r)
    ensures var w1, id := Settle(w, r).0, r.resourceId;
      && Inv(w1) && w1.index.Some?
      && w1.index.value.items == w.index.value.items[EntryId(id) := EntryOf(Goal(w.resources.items, r))]
  {
    hide Register, Unregister, Recategorize, Inv;
    var id, items := r.resourceId, w.resources.items;
    InvSound(w);
    if id !in items {
      RegisterFiles(w, r);
    } else if items[id].resourceType != r.resourceType {
      UnregisterUnfiles(w, id);
      UnregisterEffect(w, id);
      RegisterFiles(Unregister(w, id).0, r);
      var entries := w.index.value.items;
      assert (entries - {EntryId(id)})[EntryId(id) := EntryOf(r)] == entries[EntryId(id) := EntryOf(r)];
    } else if Same(items[id], r) {
      assert Goal(items, r) == items[id];
      RecategorizeFiles(w, id);
    } else {
      UpdateKeeps(w, id, Refresh(r));
      UpdateEffect(w, id, Refresh(r));
      RecategorizeFiles(Update(w, id, Refresh(r)).0, id);
    }
  }

  lemma InvSound(w: Catalog)
    requires Inv(w)
    ensures Sound(w) && forall id | id in w.resources.items :: w.resources.items[id].resourceId == id
  {}
}
