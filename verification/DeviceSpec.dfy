/** Presence, identity and persistence of devices, as functions on the registry's state. */
module DeviceSpec {
  import opened Names
  import opened JoinNames

  datatype DeviceRecord = DeviceRecord(
    deviceId: string, deviceName: string, deviceType: string, platform: string,
    capabilities: seq<string>, online: bool, identityId: string, connectionId: Option<string>,
    lastSeen: Option<int>, registeredAt: int, protocolVersion: string, joinName: string)

  /** What is kept in the store: the identity with its credentials, without presence. */
  datatype Snapshot = Snapshot(
    deviceId: string, deviceName: string, deviceType: string, platform: string,
    capabilities: seq<string>, identityId: string, lastSeen: Option<int>, registeredAt: int,
    protocolVersion: string, joinName: string, permissions: seq<string>, token: Option<string>)

  /** A DEVICE_REGISTER payload; None stands for a missing field or one of the wrong type. */
  datatype Payload = Payload(
    deviceId: Option<string>, deviceName: Option<string>, deviceType: Option<string>, platform: Option<string>,
    capabilities: Option<seq<string>>, protocolVersion: Option<string>, joinName: Option<string>)

  datatype RegistryError = RegistrationFailed | AlreadyRegistered

  datatype Registry = Registry(
    versions: set<string>, ids: seq<string>, devices: map<string, DeviceRecord>, store: map<string, Snapshot>)

  function Nonblank(s: Option<string>): bool { s.Some? && Strip(s.value) != "" }

  /** `validate_registration_payload` */
  predicate ValidPayload(p: Payload, versions: set<string>) {
    && p.deviceId.Some? && p.deviceId.value != ""
    && p.deviceName.Some? && p.deviceName.value != ""
    && Nonblank(p.deviceType) && Nonblank(p.platform) && p.capabilities.Some?
    && p.protocolVersion.Some? && Strip(p.protocolVersion.value) in versions
    && (p.joinName.Some? ==> Nonblank(p.joinName) && |Strip(p.joinName.value)| <= 64)
  }

  /** A payload is turned down for any one of these. */
  lemma PayloadFaults(p: Payload, versions: set<string>)
    ensures !ValidPayload(p, versions) <==>
      || p.deviceId == None || p.deviceId.value == "" || p.deviceName == None || p.deviceName.value == ""
      || p.deviceType == None || Strip(p.deviceType.value) == "" || p.platform == None || Strip(p.platform.value) == ""
      || p.capabilities == None || p.protocolVersion == None || Strip(p.protocolVersion.value) !in versions
      || (p.joinName.Some? && (Strip(p.joinName.value) == "" || |Strip(p.joinName.value)| > 64))
  {}

  // ---- operations ----

  function IsOnline(r: Registry, id: string): bool { id in r.devices && r.devices[id].online }

  function JoinNameFor(r: Registry, p: Payload): string
    requires ValidPayload(p, r.versions)
  {
    var id := p.deviceId.value;
    if p.joinName.Some? then Take64(Strip(p.joinName.value))
    else if id in r.devices && r.devices[id].joinName != "" then r.devices[id].joinName
    else Take64(Derive(p.deviceName.value, id))
  }

  /** `register_payload`: refused while the device is online; otherwise the binding is replaced and persisted. */
  function Register(r: Registry, p: Payload, identity: Option<string>, connection: Option<string>, now: int)
    : (Registry, Option<RegistryError>)
  {
    if !ValidPayload(p, r.versions) then (r, Some(RegistrationFailed))
    else if IsOnline(r, p.deviceId.value) then (r, Some(AlreadyRegistered))
    else (Put(r, p.deviceId.value, RecordFor(r, p, identity, connection, now)), None)
  }

  function RecordFor(r: Registry, p: Payload, identity: Option<string>, connection: Option<string>, now: int): DeviceRecord
    requires ValidPayload(p, r.versions)
  {
    var id := p.deviceId.value;
    var bound := if identity.Some? && identity.value != "" then identity.value else id;
    if id in r.devices then
      r.devices[id].(deviceName := p.deviceName.value, deviceType := p.deviceType.value, platform := p.platform.value,
        capabilities := p.capabilities.value, protocolVersion := p.protocolVersion.value, identityId := bound,
        connectionId := connection, online := true, lastSeen := Some(now), joinName := JoinNameFor(r, p))
    else
      DeviceRecord(id, p.deviceName.value, p.deviceType.value, p.platform.value, p.capabilities.value, true,
        bound, connection, Some(now), now, p.protocolVersion.value, JoinNameFor(r, p))
  }

  /** Install the record of a device and persist it, keeping the credentials already stored. */
  function Put(r: Registry, id: string, d: DeviceRecord): Registry {
    r.(ids := if id in r.devices then r.ids else r.ids + [id],
       devices := r.devices[id := d],
       store := r.store[id := Snap(d, StoredToken(r, id), StoredPermissions(r, id))])
  }

  function StoredToken(r: Registry, id: string): Option<string> {
    if id in r.store then r.store[id].token else None
  }

  function StoredPermissions(r: Registry, id: string): seq<string> {
    if id in r.store then r.store[id].permissions else []
  }

  /** `to_persistent_dict` */
  function Snap(d: DeviceRecord, token: Option<string>, permissions: seq<string>): Snapshot {
    Snapshot(d.deviceId, d.deviceName, d.deviceType, d.platform, d.capabilities,
             if d.identityId != "" then d.identityId else d.deviceId, d.lastSeen, d.registeredAt,
             d.protocolVersion, d.joinName, permissions, token)
  }

  /** `mark_offline`: only for the connection that is bound, when one is given. */
  function MarkOffline(r: Registry, id: string, connection: Option<string>, now: int): Registry {
    if id !in r.devices || (connection.Some? && r.devices[id].connectionId != connection) then r
    else Put(r, id, r.devices[id].(online := false, connectionId := None, lastSeen := Some(now)))
  }

  /** `persist_identity`: credentials not supplied are the stored ones. */
  function PersistIdentity(r: Registry, id: string, token: Option<string>, permissions: Option<seq<string>>): Registry {
    if id !in r.devices then r
    else r.(store := r.store[id := Snap(r.devices[id],
      if token.Some? then token else StoredToken(r, id),
      if permissions.Some? then permissions.value else StoredPermissions(r, id))])
  }

  function UpdateLastSeen(r: Registry, id: string, now: int): Registry {
    if id !in r.devices then r else r.(devices := r.devices[id := r.devices[id].(lastSeen := Some(now))])
  }

  /** `from_dict` on a persisted identity. */
  function FromSnapshot(s: Snapshot, versions: set<string>): Option<DeviceRecord> {
    var p := Payload(Some(s.deviceId), Some(s.deviceName), Some(s.deviceType), Some(s.platform),
                     Some(s.capabilities), Some(s.protocolVersion), None);
    if !ValidPayload(p, versions) then None
    else Some(DeviceRecord(s.deviceId, s.deviceName, s.deviceType, s.platform, s.capabilities, false,
                           if s.identityId != "" then s.identityId else s.deviceId, None,
                           s.lastSeen, s.registeredAt, s.protocolVersion,
                           Take64(if Strip(s.joinName) != "" then Strip(s.joinName) else Derive(s.deviceName, s.deviceId))))
  }

  function Restore(r: Registry, s: Snapshot): Registry {
    match FromSnapshot(s, r.versions)
    case None => r
    case Some(d) =>
      if IsOnline(r, d.deviceId) then r
      else r.(ids := if d.deviceId in r.devices then r.ids else r.ids + [d.deviceId], devices := r.devices[d.deviceId := d])
  }

  function RestoreAll(r: Registry, items: seq<Snapshot>): Registry
    decreases |items|
  {
    if items == [] then r else RestoreAll(Restore(r, items[0]), items[1..])
  }

  /** A new process on the same store. */
  function Reborn(r: Registry, items: seq<Snapshot>): Registry {
    RestoreAll(r.(ids := [], devices := map[]), items)
  }

  /** The store's identities, each listed once in some order. */
  ghost predicate Lists(items: seq<Snapshot>, store: map<string, Snapshot>) {
    && (forall s | s in items :: s.deviceId in store && store[s.deviceId] == s)
    && (forall id | id in store :: store[id] in items)
  }

  datatype Op =
    | DoRegister(p: Payload, identity: Option<string>, connection: Option<string>, now: int)
    | DoMarkOffline(id: string, connection: Option<string>, now: int)
    | DoPersist(id: string, token: Option<string>, permissions: Option<seq<string>>)
    | DoSeen(id: string, now: int)
    | DoRestart(items: seq<Snapshot>)

  function Apply(r: Registry, op: Op): Registry {
    match op
    case DoRegister(p, identity, connection, now) => Register(r, p, identity, connection, now).0
    case DoMarkOffline(id, connection, now) => MarkOffline(r, id, connection, now)
    case DoPersist(id, token, permissions) => PersistIdentity(r, id, token, permissions)
    case DoSeen(id, now) => UpdateLastSeen(r, id, now)
    case DoRestart(items) => Reborn(r, items)
  }

  function Run(r: Registry, ops: seq<Op>): Registry
    decreases |ops|
  {
    if ops == [] then r else Run(Apply(r, ops[0]), ops[1..])
  }

  /** Restarts read back exactly what the store holds at that point. */
  ghost predicate Sensible(r: Registry, ops: seq<Op>)
    decreases |ops|
  {
    ops == [] || ((ops[0].DoRestart? ==> Lists(ops[0].items, r.store)) && Sensible(Apply(r, ops[0]), ops[1..]))
  }

  // ---- the invariant ----

  ghost predicate GoodRecord(d: DeviceRecord, versions: set<string>) {
    && d.deviceId != "" && d.deviceName != "" && d.identityId != ""
    && Strip(d.deviceType) != "" && Strip(d.platform) != ""
    && Strip(d.protocolVersion) in versions && GoodJoinName(d.joinName)
  }

  /** The store's snapshot is the record's identity, possibly with an older `last_seen`. */
  ghost predicate Kept(d: DeviceRecord, s: Snapshot) {
    s == Snap(d, s.token, s.permissions).(lastSeen := s.lastSeen)
  }

  ghost predicate Inv(r: Registry) {
    && Distinct(r.ids) && (forall id :: id in r.devices <==> id in r.ids) && r.store.Keys == r.devices.Keys
    && (forall id | id in r.devices :: r.devices[id].deviceId == id && GoodRecord(r.devices[id], r.versions))
    && (forall id | id in r.devices :: Kept(r.devices[id], r.store[id]))
  }

  lemma SnapKept(d: DeviceRecord, token: Option<string>, permissions: seq<string>)
    ensures Kept(d, Snap(d, token, permissions))
  {}

  lemma PutKeeps(r: Registry, d: DeviceRecord)
    requires Inv(r) && GoodRecord(d, r.versions)
    ensures Inv(Put(r, d.deviceId, d))
  {
    hide GoodRecord, Kept, Snap;
    var id, w := d.deviceId, Put(r, d.deviceId, d);
    assert w.devices.Keys == r.devices.Keys + {id} && w.store.Keys == r.store.Keys + {id};
    SnapKept(d, StoredToken(r, id), StoredPermissions(r, id));
    forall x | x in w.devices ensures w.devices[x].deviceId == x && GoodRecord(w.devices[x], w.versions) && Kept(w.devices[x], w.store[x]) {
      if x != id { assert w.devices[x] == r.devices[x] && w.store[x] == r.store[x]; }
    }
  }

  lemma RecordGood(r: Registry, p: Payload, identity: Option<string>, connection: Option<string>, now: int)
    requires Inv(r) && ValidPayload(p, r.versions)
    ensures var d := RecordFor(r, p, identity, connection, now); GoodRecord(d, r.versions) && d.deviceId == p.deviceId.value
  {
    if p.joinName.Some? { TrimTrims(p.joinName.value, IsSpace); }
    DerivedIsGood(p.deviceName.value, p.deviceId.value);
    assert GoodJoinName(JoinNameFor(r, p));
  }

  lemma RegisterKeeps(r: Registry, p: Payload, identity: Option<string>, connection: Option<string>, now: int)
    requires Inv(r)
    ensures Inv(Register(r, p, identity, connection, now).0)
  {
    hide RecordFor, GoodRecord, Kept;
    if ValidPayload(p, r.versions) && !IsOnline(r, p.deviceId.value) {
      RecordGood(r, p, identity, connection, now);
      PutKeeps(r, RecordFor(r, p, identity, connection, now));
    }
  }

  /** The record says what the payload says, bound and online; registration time and, unless given, join name are
      as before. */
  predicate Says(d: DeviceRecord, r: Registry, p: Payload, identity: Option<string>, connection: Option<string>, now: int)
    requires ValidPayload(p, r.versions)
  {
    var id := p.deviceId.value;
    && d.deviceId == id && d.deviceName == p.deviceName.value && d.deviceType == p.deviceType.value
    && d.platform == p.platform.value && d.capabilities == p.capabilities.value
    && d.protocolVersion == p.protocolVersion.value && d.online && d.connectionId == connection && d.lastSeen == Some(now)
    && d.identityId == (if identity == None || identity.value == "" then id else identity.value)
    && d.registeredAt == (if id in r.devices then r.devices[id].registeredAt else now)
    && (p.joinName.Some? ==> d.joinName == Strip(p.joinName.value))
    && (p.joinName == None ==> d.joinName == if id in r.devices then r.devices[id].joinName else Derive(d.deviceName, id))
  }

  lemma RecordSays(r: Registry, p: Payload, identity: Option<string>, connection: Option<string>, now: int)
    requires Inv(r) && ValidPayload(p, r.versions)
    ensures Says(RecordFor(r, p, identity, connection, now), r, p, identity, connection, now)
  {
    if p.deviceId.value in r.devices { assert GoodRecord(r.devices[p.deviceId.value], r.versions); }
  }

  /** A registration that goes through, which needs the device to be offline, leaves such a record, persisted with
      the credentials stored before, and no other device touched. */
  lemma RegistrationRecords(r: Registry, p: Payload, identity: Option<string>, connection: Option<string>, now: int)
    requires Inv(r) && Register(r, p, identity, connection, now).1 == None
    ensures var w, id := Register(r, p, identity, connection, now).0, p.deviceId.value;
      && ValidPayload(p, r.versions) && !IsOnline(r, id) && w.devices.Keys == r.devices.Keys + {id}
      && Says(w.devices[id], r, p, identity, connection, now)
      && (forall x | x in r.devices && x != id :: w.devices[x] == r.devices[x] && w.store[x] == r.store[x])
      && Kept(w.devices[id], w.store[id]) && w.store[id].lastSeen == Some(now)
      && w.store[id].token == (if id in r.store then r.store[id].token else None)
      && w.store[id].permissions == (if id in r.store then r.store[id].permissions else [])
  {
    hide GoodRecord, ValidPayload;
    RecordSays(r, p, identity, connection, now);
  }

  /** What a restored identity looks like beside the record it was persisted from. */
  function Offline(d: DeviceRecord, lastSeen: Option<int>): DeviceRecord {
    d.(online := false, connectionId := None, lastSeen := lastSeen)
  }

  lemma SnapshotRoundTrip(d: DeviceRecord, s: Snapshot, versions: set<string>)
    requires GoodRecord(d, versions) && Kept(d, s)
    ensures FromSnapshot(s, versions) == Some(Offline(d, s.lastSeen))
  {
    TrimTrims(d.joinName, IsSpace);
  }

  /** d is what a persisted identity says, offline and unbound; where it has no identity or join name, they are
      the device's id and the derived name. */
  predicate ReadBack(d: DeviceRecord, s: Snapshot) {
    && d.deviceId == s.deviceId && d.deviceName == s.deviceName && d.deviceType == s.deviceType
    && d.platform == s.platform && d.capabilities == s.capabilities && d.protocolVersion == s.protocolVersion
    && d.lastSeen == s.lastSeen && d.registeredAt == s.registeredAt && !d.online && d.connectionId == None
    && (s.identityId != "" ==> d.identityId == s.identityId) && (s.identityId == "" ==> d.identityId == s.deviceId)
    && (|Strip(s.joinName)| > 0 ==> d.joinName <= Strip(s.joinName) && (|Strip(s.joinName)| <= 64 ==> d.joinName == Strip(s.joinName)))
    && (|Strip(s.joinName)| == 0 ==> d.joinName == Derive(s.deviceName, s.deviceId))
  }

  /** A persisted identity is read back unless one of its fields is missing or its protocol version is not accepted. */
  lemma SnapshotRead(s: Snapshot, versions: set<string>)
    ensures FromSnapshot(s, versions) == None <==>
      || s.deviceId == "" || s.deviceName == "" || Strip(s.deviceType) == "" || Strip(s.platform) == ""
      || Strip(s.protocolVersion) !in versions
    ensures FromSnapshot(s, versions).Some? ==> ReadBack(FromSnapshot(s, versions).value, s)
  {}

  /** w holds, offline, some of the devices of r. */
  ghost predicate Mirrors(r: Registry, w: Registry) {
    && w.versions == r.versions && w.store == r.store
    && Distinct(w.ids) && (forall id :: id in w.devices <==> id in w.ids)
    && w.devices.Keys <= r.devices.Keys <= r.store.Keys
    && (forall id | id in w.devices :: w.devices[id] == Offline(r.devices[id], r.store[id].lastSeen))
  }

  lemma RestoreOne(r: Registry, w: Registry, s: Snapshot)
    requires Inv(r) && Mirrors(r, w) && s.deviceId in r.store && r.store[s.deviceId] == s
    ensures Mirrors(r, Restore(w, s)) && Restore(w, s).devices.Keys == w.devices.Keys + {s.deviceId}
  {
    hide GoodRecord, FromSnapshot, Kept;
    var id, v := s.deviceId, Restore(w, s);
    SnapshotRoundTrip(r.devices[id], s, r.versions);
    assert v.devices == w.devices[id := Offline(r.devices[id], s.lastSeen)];
    assert v.devices.Keys == w.devices.Keys + {id};
  }

  lemma {:induction false} RestoredSoFar(r: Registry, w: Registry, items: seq<Snapshot>)
    requires Inv(r) && Mirrors(r, w)
    requires forall s | s in items :: s.deviceId in r.store && r.store[s.deviceId] == s
    ensures Mirrors(r, RestoreAll(w, items)) && w.devices.Keys <= RestoreAll(w, items).devices.Keys
    ensures forall s | s in items :: s.deviceId in RestoreAll(w, items).devices
    decreases |items|
  {
    if items != [] {
      RestoreOne(r, w, items[0]);
      RestoredSoFar(r, Restore(w, items[0]), items[1..]);
      assert forall s | s in items :: s == items[0] || s in items[1..];
    }
  }

  /** Restarting on the same store brings back every device with every identity field, except that
      `last_seen` is the persisted one; all offline, none bound to a connection. */
  lemma RestartEquivalence(r: Registry, items: seq<Snapshot>)
    requires Inv(r) && Lists(items, r.store)
    ensures Mirrors(r, Reborn(r, items)) && Reborn(r, items).devices.Keys == r.devices.Keys
  {
    hide GoodRecord;
    var blank := r.(ids := [], devices := map[]);
    RestoredSoFar(r, blank, items);
    var w := Reborn(r, items);
    forall id | id in r.devices ensures id in w.devices { StoredUnderItsId(r, id); }
  }

  lemma StoredUnderItsId(r: Registry, id: string)
    requires Inv(r) && id in r.devices
    ensures r.store[id].deviceId == id
  {
    assert Kept(r.devices[id], r.store[id]);
  }

  lemma MirrorKeeps(r: Registry, w: Registry)
    requires Inv(r) && Mirrors(r, w) && w.devices.Keys == r.devices.Keys
    ensures Inv(w)
  {
    hide GoodRecord, Kept;
    forall id | id in w.devices
      ensures w.devices[id].deviceId == id && GoodRecord(w.devices[id], w.versions) && Kept(w.devices[id], w.store[id])
    {
      OfflineKept(r.devices[id], r.store[id], r.versions);
    }
  }

  lemma OfflineKept(d: DeviceRecord, s: Snapshot, versions: set<string>)
    requires GoodRecord(d, versions) && Kept(d, s)
    ensures GoodRecord(Offline(d, s.lastSeen), versions) && Kept(Offline(d, s.lastSeen), s)
  {}

  lemma MarkOfflineKeeps(r: Registry, id: string, connection: Option<string>, now: int)
    requires Inv(r)
    ensures Inv(MarkOffline(r, id, connection, now))
  {
    if id in r.devices {
      var d := r.devices[id].(online := false, connectionId := None, lastSeen := Some(now));
      assert GoodRecord(d, r.versions) && d.deviceId == id;
      PutKeeps(r, d);
    }
  }

  lemma SeenKeeps(r: Registry, id: string, now: int)
    requires Inv(r)
    ensures Inv(UpdateLastSeen(r, id, now))
  {
    if id in r.devices {
      var d := r.devices[id].(lastSeen := Some(now));
      assert UpdateLastSeen(r, id, now).devices.Keys == r.devices.Keys;
      assert GoodRecord(d, r.versions) && Kept(r.devices[id], r.store[id]) && Kept(d, r.store[id]);
    }
  }

  lemma PersistKeeps(r: Registry, id: string, token: Option<string>, permissions: Option<seq<string>>)
    requires Inv(r)
    ensures Inv(PersistIdentity(r, id, token, permissions))
  {
    if id in r.devices {
      var w := PersistIdentity(r, id, token, permissions);
      assert w.store.Keys == r.store.Keys;
      forall x | x in w.devices ensures Kept(w.devices[x], w.store[x]) {
        if x != id { assert Kept(r.devices[x], r.store[x]); }
      }
    }
  }

  lemma ApplyKeeps(r: Registry, op: Op)
    requires Inv(r) && (op.DoRestart? ==> Lists(op.items, r.store))
    ensures Inv(Apply(r, op))
  {
    match op {
      case DoRegister(p, identity, connection, now) => RegisterKeeps(r, p, identity, connection, now);
      case DoMarkOffline(id, connection, now) => MarkOfflineKeeps(r, id, connection, now);
      case DoPersist(id, token, permissions) => PersistKeeps(r, id, token, permissions);
      case DoSeen(id, now) => SeenKeeps(r, id, now);
      case DoRestart(items) =>
        RestartEquivalence(r, items);
        MirrorKeeps(r, Reborn(r, items));
    }
  }

  /** In every run, restarts included, the store always holds every device's current identity. */
  lemma {:induction false} EveryRunPersistent(r: Registry, ops: seq<Op>)
    requires Inv(r) && Sensible(r, ops)
    ensures Inv(Run(r, ops))
    decreases |ops|
  {
    if ops != [] {
      ApplyKeeps(r, ops[0]);
      EveryRunPersistent(Apply(r, ops[0]), ops[1..]);
    }
  }

  /** The last token supplied for a registered device along a run, starting from `given`. */
  function LastSupplied(r: Registry, ops: seq<Op>, id: string, given: Option<string>): Option<string>
    decreases |ops|
  {
    if ops == [] then given
    else
      var supplied := ops[0].DoPersist? && ops[0].id == id && ops[0].token.Some? && id in r.devices;
      LastSupplied(Apply(r, ops[0]), ops[1..], id, if supplied then ops[0].token else given)
  }

  lemma TokenStep(r: Registry, op: Op, id: string)
    requires Inv(r) && (op.DoRestart? ==> Lists(op.items, r.store))
    ensures StoredToken(Apply(r, op), id) ==
      if op.DoPersist? && op.id == id && op.token.Some? && id in r.devices then op.token else StoredToken(r, id)
  {
    hide GoodRecord, Kept;
    if op.DoRestart? { RestartEquivalence(r, op.items); }
  }

  /** Whatever else happens, the stored token is the last one supplied. */
  lemma {:induction false} TokenSurvives(r: Registry, ops: seq<Op>, id: string)
    requires Inv(r) && Sensible(r, ops)
    ensures StoredToken(Run(r, ops), id) == LastSupplied(r, ops, id, StoredToken(r, id))
    decreases |ops|
  {
    if ops != [] {
      ApplyKeeps(r, ops[0]);
      TokenStep(r, ops[0], id);
      TokenSurvives(Apply(r, ops[0]), ops[1..], id);
    }
  }

  /** The last permissions supplied for a registered device along a run, starting from `given`. */
  function LastGranted(r: Registry, ops: seq<Op>, id: string, given: seq<string>): seq<string>
    decreases |ops|
  {
    if ops == [] then given
    else
      var supplied := ops[0].DoPersist? && ops[0].id == id && ops[0].permissions.Some? && id in r.devices;
      LastGranted(Apply(r, ops[0]), ops[1..], id, if supplied then ops[0].permissions.value else given)
  }

  lemma PermissionsStep(r: Registry, op: Op, id: string)
    requires Inv(r) && (op.DoRestart? ==> Lists(op.items, r.store))
    ensures StoredPermissions(Apply(r, op), id) ==
      if op.DoPersist? && op.id == id && op.permissions.Some? && id in r.devices then op.permissions.value
      else StoredPermissions(r, id)
  {
    hide GoodRecord, Kept;
    if op.DoRestart? { RestartEquivalence(r, op.items); }
  }

  /** So are the stored permissions: across registrations, teardowns and restarts, the last ones supplied. */
  lemma {:induction false} PermissionsSurvive(r: Registry, ops: seq<Op>, id: string)
    requires Inv(r) && Sensible(r, ops)
    ensures StoredPermissions(Run(r, ops), id) == LastGranted(r, ops, id, StoredPermissions(r, id))
    ensures id in Run(r, ops).store ==> Run(r, ops).store[id].permissions == LastGranted(r, ops, id, StoredPermissions(r, id))
    decreases |ops|
  {
    if ops != [] {
      ApplyKeeps(r, ops[0]);
      PermissionsStep(r, ops[0], id);
      PermissionsSurvive(Apply(r, ops[0]), ops[1..], id);
    }
  }

  // ---- lookup by connection ----

  /** `find_by_connection`: the first record, in registration order, bound to the connection. */
  function FindFrom(devices: map<string, DeviceRecord>, ids: seq<string>, connection: string): Option<string> {
    if ids == [] then None
    else if ids[0] in devices && devices[ids[0]].connectionId == Some(connection) then Some(ids[0])
    else FindFrom(devices, ids[1..], connection)
  }

  function FindByConnection(r: Registry, connection: string): Option<string> {
    FindFrom(r.devices, r.ids, connection)
  }

  lemma {:induction false} FindFromFinds(devices: map<string, DeviceRecord>, ids: seq<string>, connection: string)
    ensures match FindFrom(devices, ids, connection)
      case Some(id) =>
        && id in devices && devices[id].connectionId == Some(connection)
        && exists n :: 0 <= n < |ids| && ids[n] == id && NoneBound(devices, ids[..n], connection)
      case None => NoneBound(devices, ids, connection)
  {
    if ids != [] {
      FindFromFinds(devices, ids[1..], connection);
      assert forall id | id in ids :: id == ids[0] || id in ids[1..];
      if ids[0] in devices && devices[ids[0]].connectionId == Some(connection) {
        assert NoneBound(devices, ids[..0], connection);
      } else if FindFrom(devices, ids[1..], connection).Some? {
        var n :| 0 <= n < |ids[1..]| && ids[1..][n] == FindFrom(devices, ids, connection).value
                 && NoneBound(devices, ids[1..][..n], connection);
        assert ids[..n + 1] == [ids[0]] + ids[1..][..n] && ids[n + 1] == ids[1..][n];
      }
    }
  }

  predicate NoneBound(devices: map<string, DeviceRecord>, ids: seq<string>, connection: string) {
    forall id | id in ids && id in devices :: devices[id].connectionId != Some(connection)
  }
}
