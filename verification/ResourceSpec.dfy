/** The resource registry and the organization index beside it, as functions on their joint state. */
module ResourceSpec {
  import opened Names
  import opened Dicts
  import opened JoinNames

  datatype Resource = Resource(
    resourceId: string, name: string, resourceType: string, status: string,
    owner: Option<string>, source: Option<string>, capabilities: seq<string>,
    metadata: map<string, string>, connectionInfo: map<string, string>)

  datatype Facts = Facts(
    resourceType: string, owner: Option<string>, source: Option<string>, status: string,
    capabilities: seq<string>, metadata: map<string, string>, connectionInfo: map<string, string>)

  datatype Entry = Entry(entryId: string, category: string, name: string, resourceId: Option<string>, metadata: Facts)

  /** None for the index stands for a registry without an organization engine. */
  datatype Catalog = Catalog(resources: Dict<Resource>, index: Option<Dict<Entry>>)

  datatype Raised = AlreadyRegistered | NotFound | InvalidEntry

  // ---- the index ----

  function EntryId(id: string): string { "resource:" + id }

  lemma EntryIdInjective(a: string, b: string)
    requires EntryId(a) == EntryId(b)
    ensures a == b
  {
    assert EntryId(a)[9..] == a && EntryId(b)[9..] == b;
  }

  function FactsOf(r: Resource): Facts {
    Facts(r.resourceType, r.owner, r.source, r.status, r.capabilities, r.metadata, r.connectionInfo)
  }

  function EntryOf(r: Resource): Entry {
    Entry(EntryId(r.resourceId), r.resourceType, r.name, Some(r.resourceId), FactsOf(r))
  }

  predicate Nameable(r: Resource) {
    Strip(r.resourceId) != "" && Strip(r.resourceType) != "" && Strip(r.name) != ""
  }

  /** `categorize_resource`: refresh the entry of the resource in place, or add it. */
  function Categorize(index: Dict<Entry>, r: Resource): (Dict<Entry>, Option<Raised>) {
    var k := EntryId(r.resourceId);
    if !Nameable(r) then (index, Some(InvalidEntry))
    else (index.Put(k, if k in index.items then EntryOf(r).(entryId := index.items[k].entryId) else EntryOf(r)), None)
  }

  function LinkedTo(index: Dict<Entry>, id: string): set<string> {
    set k | k in index.items && index.items[k].resourceId == Some(id)
  }

  /** `remove_resource` */
  function Unlink(index: Dict<Entry>, id: string): Dict<Entry> { index.Without(LinkedTo(index, id)) }

  // ---- the registry ----

  function Register(w: Catalog, r: Resource, categorize: bool): (Catalog, Option<Raised>) {
    if r.resourceId in w.resources.items then (w, Some(AlreadyRegistered))
    else
      var w1 := w.(resources := w.resources.Put(r.resourceId, r));
      if categorize then Recategorize(w1, r) else (w1, None)
  }

  /** Categorize in the attached engine, if there is one. */
  function Recategorize(w: Catalog, r: Resource): (Catalog, Option<Raised>) {
    if w.index == None then (w, None)
    else var (index, raised) := Categorize(w.index.value, r); (w.(index := Some(index)), raised)
  }

  function Unregister(w: Catalog, id: string): (Catalog, Option<Raised>) {
    if id !in w.resources.items then (w, Some(NotFound))
    else (Catalog(w.resources.Without({id}), if w.index.Some? then Some(Unlink(w.index.value, id)) else None), None)
  }

  /** The keyword arguments of `update`; None leaves a field alone. */
  datatype Patch = Patch(
    name: Option<string>, status: Option<string>, owner: Option<string>, source: Option<string>,
    capabilities: Option<seq<string>>, metadata: Option<map<string, string>>, connectionInfo: Option<map<string, string>>)

  function Or<T>(x: Option<T>, y: T): T { if x.Some? then x.value else y }

  function Patched(r: Resource, p: Patch): Resource {
    r.(name := Or(p.name, r.name), status := Or(p.status, r.status),
       owner := if p.owner.Some? then p.owner else r.owner, source := if p.source.Some? then p.source else r.source,
       capabilities := Or(p.capabilities, r.capabilities), metadata := Or(p.metadata, r.metadata),
       connectionInfo := Or(p.connectionInfo, r.connectionInfo))
  }

  function Update(w: Catalog, id: string, p: Patch): (Catalog, Option<Raised>) {
    if id !in w.resources.items then (w, Some(NotFound))
    else (w.(resources := w.resources.Put(id, Patched(w.resources.items[id], p))), None)
  }

  const SEEN := Patch(None, Some("online"), None, None, None, None, None)

  function Cleared(w: Catalog): Catalog {
    Catalog(Dict([], map[]), if w.index.Some? then Some(Dict([], map[])) else None)
  }

  // ---- discovery ----

  function Fits(wanted: Option<string>, actual: Option<string>): bool { wanted.Some? ==> wanted == actual }

  function Wanted(resourceType: Option<string>, status: Option<string>, owner: Option<string>): Resource -> bool {
    (r: Resource) => Fits(resourceType, Some(r.resourceType)) && Fits(status, Some(r.status)) && Fits(owner, r.owner)
  }

  function IdIn(ids: set<string>): Resource -> bool { (r: Resource) => r.resourceId in ids }

  function Scan(w: Catalog, resourceType: Option<string>, status: Option<string>, owner: Option<string>): seq<Resource>
    requires forall k | k in w.resources.keys :: k in w.resources.items
  {
    Where(w.resources.Values(), Wanted(resourceType, status, owner))
  }

  /** The resource ids the index holds under a category. */
  function Members(index: Dict<Entry>, category: string): set<string> {
    set k | k in index.items && index.items[k].category == category && index.items[k].resourceId.Some?
      :: index.items[k].resourceId.value
  }

  function Discover(w: Catalog, resourceType: Option<string>, status: Option<string>, owner: Option<string>, category: Option<string>)
    : seq<Resource>
    requires forall k | k in w.resources.keys :: k in w.resources.items
  {
    var found := Scan(w, resourceType, status, owner);
    if category == None then found
    else if w.index == None then []
    else Where(found, IdIn(Members(w.index.value, category.value)))
  }

  // ---- the invariant ----

  /** The entry of a resource is there, links it, and files it under its type. */
  predicate Filed(index: Dict<Entry>, r: Resource) {
    var k := EntryId(r.resourceId);
    k in index.items && index.items[k].category == r.resourceType && index.items[k].resourceId == Some(r.resourceId)
  }

  /** Every resource is filed under exactly one entry, and every link leads to a resource. */
  ghost predicate Linked(resources: Dict<Resource>, index: Dict<Entry>) {
    && index.Valid()
    && (forall k | k in index.items :: index.items[k].entryId == k)
    && (forall id | id in resources.items :: Filed(index, resources.items[id]))
    && (forall k | k in index.items && index.items[k].resourceId.Some? ::
          k == EntryId(index.items[k].resourceId.value) && index.items[k].resourceId.value in resources.items)
  }

  ghost predicate Sound(w: Catalog) {
    && w.resources.Valid()
    && (forall id | id in w.resources.items :: w.resources.items[id].resourceId == id)
    && (w.index.Some? ==> w.index.value.Valid())
  }

  ghost predicate Inv(w: Catalog) {
    Sound(w) && (w.index.Some? ==> Linked(w.resources, w.index.value))
  }

  lemma CategorizeFiles(index: Dict<Entry>, r: Resource)
    requires index.Valid() && Nameable(r)
    ensures var after := Categorize(index, r).0;
      && after.Valid() && Filed(after, r) && after.items[EntryId(r.resourceId)].name == r.name && after.items.Keys == index.items.Keys + {EntryId(r.resourceId)}
      && after.items == index.items[EntryId(r.resourceId) := after.items[EntryId(r.resourceId)]]
      && ((forall k | k in index.items :: index.items[k].entryId == k) ==>
            && after.items[EntryId(r.resourceId)] == EntryOf(r)
            && EntryOf(r) == Entry("resource:" + r.resourceId, r.resourceType, r.name, Some(r.resourceId),
                                   Facts(r.resourceType, r.owner, r.source, r.status, r.capabilities, r.metadata, r.connectionInfo)))
  {}

  /** A known id is not registered over, and an unknown one neither updated nor unregistered: nothing changes. */
  lemma RegistryRefuses(w: Catalog, r: Resource, categorize: bool, p: Patch)
    ensures r.resourceId in w.resources.items ==> Register(w, r, categorize) == (w, Some(AlreadyRegistered))
    ensures r.resourceId !in w.resources.items ==>
      Update(w, r.resourceId, p) == (w, Some(NotFound)) && Unregister(w, r.resourceId) == (w, Some(NotFound))
  {}

  /** An update sets the fields it gives and keeps the others, the id and type always, and touches no other resource;
      marking a resource seen makes it online. */
  lemma UpdateSets(w: Catalog, id: string, p: Patch)
    requires id in w.resources.items
    ensures var was, now := w.resources.items[id], Update(w, id, p).0.resources.items;
      && now.Keys == w.resources.items.Keys && (forall x | x in now && x != id :: now[x] == w.resources.items[x])
      && now[id].resourceId == was.resourceId && now[id].resourceType == was.resourceType
      && now[id].name == (match p.name case Some(v) => v case None => was.name)
      && now[id].status == (match p.status case Some(v) => v case None => was.status)
      && now[id].owner == (match p.owner case Some(v) => p.owner case None => was.owner)
      && now[id].source == (match p.source case Some(v) => p.source case None => was.source)
      && now[id].capabilities == (match p.capabilities case Some(v) => v case None => was.capabilities)
      && now[id].metadata == (match p.metadata case Some(v) => v case None => was.metadata)
      && now[id].connectionInfo == (match p.connectionInfo case Some(v) => v case None => was.connectionInfo)
      && Update(w, id, SEEN).0.resources.items[id] == was.(status := "online")
  {}

  /** Registering a new resource keeps the invariant exactly when it is categorized under non-blank names. */
  lemma RegisterKeeps(w: Catalog, r: Resource, categorize: bool)
    requires Inv(w) && r.resourceId !in w.resources.items
    ensures Inv(Register(w, r, categorize).0) <==> (w.index.Some? ==> categorize && Nameable(r))
    ensures Sound(Register(w, r, categorize).0)
  {
    hide Linked, Nameable;
    w.resources.PutValid(r.resourceId, r);
    if w.index.Some? {
      if Nameable(r) { CategorizeLinks(w.resources, w.index.value, r); }
      NotYetLinked(w.resources, w.index.value, r);
      assert Categorize(w.index.value, r).0.Valid() by { w.index.value.PutValid(EntryId(r.resourceId), EntryOf(r)); }
    }
  }

  /** An index that is exact without a resource is not exact with it. */
  lemma NotYetLinked(resources: Dict<Resource>, index: Dict<Entry>, r: Resource)
    requires Linked(resources, index) && r.resourceId !in resources.items
    ensures index.Valid() && !Linked(resources.Put(r.resourceId, r), index)
  {
    assert !Filed(index, resources.Put(r.resourceId, r).items[r.resourceId]);
  }

  lemma CategorizeLinks(resources: Dict<Resource>, index: Dict<Entry>, r: Resource)
    requires Linked(resources, index) && Nameable(r)
    requires forall id | id in resources.items :: resources.items[id].resourceId == id
    ensures Linked(resources.Put(r.resourceId, r), Categorize(index, r).0)
  {
    CategorizeFiles(index, r);
    FiledAlone(resources, index, r, Categorize(index, r).0);
  }

  /** Filing one resource leaves the others filed. */
  lemma FiledAlone(resources: Dict<Resource>, index: Dict<Entry>, r: Resource, after: Dict<Entry>)
    requires Linked(resources, index) && forall id | id in resources.items :: resources.items[id].resourceId == id
    requires after.Valid() && after.items == index.items[EntryId(r.resourceId) := EntryOf(r)]
    ensures Linked(resources.Put(r.resourceId, r), after)
  {
    var more := resources.Put(r.resourceId, r);
    forall id | id in more.items ensures Filed(after, more.items[id]) {
      if id != r.resourceId {
        if EntryId(id) == EntryId(r.resourceId) { EntryIdInjective(id, r.resourceId); }
      }
    }
  }

  lemma UnregisterKeeps(w: Catalog, id: string)
    requires Inv(w)
    ensures Inv(Unregister(w, id).0)
  {
    if id in w.resources.items {
      w.resources.WithoutValid({id});
      if w.index.Some? {
        w.index.value.WithoutValid(LinkedTo(w.index.value, id));
      }
    }
  }

  lemma UpdateKeeps(w: Catalog, id: string, p: Patch)
    requires Inv(w)
    ensures Inv(Update(w, id, p).0)
  {
    if id in w.resources.items { w.resources.PutValid(id, Patched(w.resources.items[id], p)); }
  }

  lemma LinksAreValid(resources: Dict<Resource>, index: Dict<Entry>)
    requires Linked(resources, index)
    ensures index.Valid()
  {}

  lemma RecategorizeKeeps(w: Catalog, id: string)
    requires Inv(w) && id in w.resources.items
    ensures Inv(Recategorize(w, w.resources.items[id]).0)
  {
    hide Linked, Nameable;
    var r := w.resources.items[id];
    if w.index.Some? && Nameable(r) {
      CategorizeLinks(w.resources, w.index.value, r);
      assert w.resources.Put(id, r) == w.resources;
      assert Categorize(w.index.value, r).0.Valid() by { LinksAreValid(w.resources, Categorize(w.index.value, r).0); }
    }
  }

  /** Each resource has exactly one entry linked to it, `resource:<id>`. */
  lemma OneEntryEach(w: Catalog, id: string)
    requires Inv(w) && w.index.Some? && id in w.resources.items
    ensures LinkedTo(w.index.value, id) == {EntryId(id)}
  {
    assert Filed(w.index.value, w.resources.items[id]);
  }

  lemma MembersExact(w: Catalog, category: string)
    requires Inv(w) && w.index.Some?
    ensures forall id | id in w.resources.items ::
      id in Members(w.index.value, category) <==> w.resources.items[id].resourceType == category
  {
    var index := w.index.value;
    forall id | id in w.resources.items
      ensures id in Members(index, category) <==> w.resources.items[id].resourceType == category
    {
      assert Filed(index, w.resources.items[id]);
      if id in Members(index, category) {
        var k :| k in index.items && index.items[k].category == category && index.items[k].resourceId == Some(id);
        assert k == EntryId(id);
      }
    }
  }

  /** A scan has, in the order of the registry, exactly the resources of the type, status and owner asked for. */
  lemma ScanMeans(w: Catalog, resourceType: Option<string>, status: Option<string>, owner: Option<string>, r: Resource)
    requires w.resources.Valid()
    ensures r in Scan(w, resourceType, status, owner) <==>
      && r in w.resources.Values() && (resourceType == None || resourceType.value == r.resourceType)
      && (status == None || status.value == r.status) && (owner == None || (r.owner.Some? && owner.value == r.owner.value))
  {
    WhereMembers(w.resources.Values(), Wanted(resourceType, status, owner));
  }

  lemma ValueFiled(w: Catalog, r: Resource)
    requires Sound(w) && r in w.resources.Values()
    ensures r.resourceId in w.resources.items && w.resources.items[r.resourceId] == r
  {
    assert w.resources.Values()[Index(w.resources.Values(), r)] == r;
  }

  /** Discovery has those of them that are of the category's type, as long as there is an index at all. */
  lemma DiscoverMeans(w: Catalog, resourceType: Option<string>, status: Option<string>, owner: Option<string>,
                      category: Option<string>, r: Resource)
    requires Inv(w)
    ensures r in Discover(w, resourceType, status, owner, category) <==>
      && r in Scan(w, resourceType, status, owner)
      && (category == None || (w.index.Some? && r.resourceType == category.value))
  {
    hide Members, Where, Linked, Wanted;
    var found := Scan(w, resourceType, status, owner);
    ScanMeans(w, resourceType, status, owner, r);
    if category.Some? && w.index.Some? {
      MembersExact(w, category.value);
      WhereMembers(found, IdIn(Members(w.index.value, category.value)));
      if r in found { ValueFiled(w, r); }
    }
  }

  /** Discovery through the index gives, in order, just what a scan of the resources by type gives. */
  lemma DiscoverIsScan(w: Catalog, status: Option<string>, owner: Option<string>, category: string)
    requires Inv(w) && w.index.Some?
    ensures Discover(w, None, status, owner, Some(category)) == Scan(w, Some(category), status, owner)
  {
    MembersExact(w, category);
    WhereTwice(w.resources.Values(), Wanted(None, status, owner), IdIn(Members(w.index.value, category)),
               Wanted(Some(category), status, owner));
  }
}
