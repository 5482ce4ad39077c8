/** `DeviceRegistry` as a class, each method tied to `DeviceSpec`. */
module Devices {
  import opened Names
  import opened Dicts
  import opened JoinNames
  import opened DeviceSpec

  /** The persisted identities that still validate. */
  function Restorable(versions: set<string>): Snapshot -> bool {
    (s: Snapshot) => FromSnapshot(s, versions).Some?
  }

  class DeviceRegistry {
    const versions: set<string>
    var ids: seq<string>
    var devices: map<string, DeviceRecord>
    var store: map<string, Snapshot>

    ghost function Now(): Registry
      reads this
    {
      Registry(versions, ids, devices, store)
    }

    constructor (versions: set<string>, store: map<string, Snapshot>)
      ensures Now() == Registry(versions, [], map[], store)
    {
      this.versions, this.store := versions, store;
      ids, devices := [], map[];
    }

    method RegisterPayload(p: Payload, identity: Option<string>, connection: Option<string>, now: int)
      returns (raised: Option<RegistryError>)
      modifies this
      ensures (Now(), raised) == DeviceSpec.Register(old(Now()), p, identity, connection, now)
      ensures raised == Some(AlreadyRegistered) <==>
        ValidPayload(p, versions) && p.deviceId.value in old(devices) && old(devices)[p.deviceId.value].online
      ensures raised == Some(RegistrationFailed) <==> !ValidPayload(p, versions)
      ensures raised.Some? ==> unchanged(this)
      ensures raised == None ==>
        && devices.Keys == old(devices).Keys + {p.deviceId.value} && devices[p.deviceId.value].online
        && devices[p.deviceId.value].connectionId == connection && devices[p.deviceId.value].lastSeen == Some(now)
        && (p.deviceId.value !in old(devices) ==> devices[p.deviceId.value].registeredAt == now)
    {
      if !ValidPayload(p, versions) { return Some(RegistrationFailed); }
      var id := p.deviceId.value;
      if id in devices && devices[id].online { return Some(AlreadyRegistered); }
      var record := ActiveRecord(p, identity, connection, now);
      if id !in devices { ids := ids + [id]; }
      devices := devices[id := record];
      PersistRecord(id);
      return None;
    }

    /** The record a registration leaves: the existing one with its fields overwritten, or a new one. */
    method ActiveRecord(p: Payload, identity: Option<string>, connection: Option<string>, now: int) returns (d: DeviceRecord)
      requires ValidPayload(p, versions)
      ensures d == RecordFor(Now(), p, identity, connection, now)
    {
      var id := p.deviceId.value;
      var resolved := Take64(if p.joinName.Some? then Strip(p.joinName.value) else Derive(p.deviceName.value, id));
      var boundIdentity := if identity.Some? && identity.value != "" then identity.value else id;
      if id in devices {
        d := devices[id];
        d := d.(deviceName := p.deviceName.value, deviceType := p.deviceType.value, platform := p.platform.value);
        d := d.(capabilities := p.capabilities.value, protocolVersion := p.protocolVersion.value);
        d := d.(identityId := boundIdentity, connectionId := connection, online := true, lastSeen := Some(now));
        if p.joinName.Some? || d.joinName == "" { d := d.(joinName := resolved); }
      } else {
        d := DeviceRecord(id, p.deviceName.value, p.deviceType.value, p.platform.value,
          p.capabilities.value, true, boundIdentity, connection, Some(now), now, p.protocolVersion.value, resolved);
      }
    }

    method PersistRecord(id: string)
      requires id in devices
      modifies this`store
      ensures store == old(store)[id := Snap(devices[id], StoredToken(old(Now()), id), StoredPermissions(old(Now()), id))]
      ensures id in old(store) ==> store[id].token == old(store)[id].token && store[id].permissions == old(store)[id].permissions
      ensures id !in old(store) ==> store[id].token == None && store[id].permissions == []
    {
      var token: Option<string>, permissions := None, [];
      if id in store { token, permissions := store[id].token, store[id].permissions; }
      store := store[id := Snap(devices[id], token, permissions)];
    }

    method MarkOffline(id: string, connection: Option<string>, now: int)
      modifies this
      ensures Now() == DeviceSpec.MarkOffline(old(Now()), id, connection, now)
      ensures id in old(devices) && (connection == None || old(devices)[id].connectionId == connection) ==>
        && devices == old(devices)[id := old(devices)[id].(online := false, connectionId := None, lastSeen := Some(now))]
        && store == old(store)[id := Snap(devices[id], if id in old(store) then old(store)[id].token else None,
                                          if id in old(store) then old(store)[id].permissions else [])]
      ensures !(id in old(devices) && (connection == None || old(devices)[id].connectionId == connection)) ==> unchanged(this)
    {
      if id !in devices { return; }
      if connection.Some? && devices[id].connectionId != connection { return; }
      devices := devices[id := devices[id].(online := false, connectionId := None, lastSeen := Some(now))];
      PersistRecord(id);
    }

    method PersistIdentity(id: string, token: Option<string>, permissions: Option<seq<string>>)
      modifies this
      ensures Now() == DeviceSpec.PersistIdentity(old(Now()), id, token, permissions)
      ensures devices == old(devices) && (id !in devices ==> unchanged(this))
      ensures id in devices ==>
        && store.Keys == old(store).Keys + {id} && (forall x | x in store && x != id :: store[x] == old(store)[x])
        && store[id].token == (if token.Some? then token else if id in old(store) then old(store)[id].token else None)
        && store[id].permissions == (if permissions.Some? then permissions.value
                                     else if id in old(store) then old(store)[id].permissions else [])
    {
      if id !in devices { return; }
      var keptToken, keptPermissions := token, permissions;
      if id in store {
        if token.None? { keptToken := store[id].token; }
        if permissions.None? { keptPermissions := Some(store[id].permissions); }
      }
      store := store[id := Snap(devices[id], keptToken, if keptPermissions.Some? then keptPermissions.value else [])];
    }

    method UpdateLastSeen(id: string, now: int)
      modifies this
      ensures Now() == DeviceSpec.UpdateLastSeen(old(Now()), id, now)
      ensures ids == old(ids) && store == old(store)
      ensures devices == if id in old(devices) then old(devices)[id := old(devices)[id].(lastSeen := Some(now))] else old(devices)
    {
      if id in devices { devices := devices[id := devices[id].(lastSeen := Some(now))]; }
    }

    method Restore(s: Snapshot) returns (raised: bool)
      modifies this
      ensures Now() == DeviceSpec.Restore(old(Now()), s)
      ensures raised <==> FromSnapshot(s, versions).None?
      ensures store == old(store)
      ensures raised || (s.deviceId in old(devices) && old(devices)[s.deviceId].online) ==> unchanged(this)
      ensures !raised && !(s.deviceId in old(devices) && old(devices)[s.deviceId].online) ==>
        && devices.Keys == old(devices).Keys + {s.deviceId}
        && (forall x | x in old(devices) && x != s.deviceId :: devices[x] == old(devices)[x])
        && ReadBack(devices[s.deviceId], s)
    {
      var d := FromSnapshot(s, versions);
      if d.None? { return true; }
      SnapshotRead(s, versions);
      var id := d.value.deviceId;
      if id in devices && devices[id].online { return false; }
      if id !in devices { ids := ids + [id]; }
      devices := devices[id := d.value];
      return false;
    }

    method RestoreAll(items: seq<Snapshot>) returns (restored: nat)
      modifies this
      ensures Now() == DeviceSpec.RestoreAll(old(Now()), items)
      ensures restored == |Where(items, Restorable(versions))|
    {
      restored := 0;
      assert items[..0] == [];
      for i := 0 to |items|
        invariant DeviceSpec.RestoreAll(Now(), items[i..]) == DeviceSpec.RestoreAll(old(Now()), items)
        invariant restored == |Where(items[..i], Restorable(versions))|
      {
        assert items[i..][1..] == items[i + 1..];
        assert items[..i + 1] == items[..i] + [items[i]];
        WhereAppend(items[..i], [items[i]], Restorable(versions));
        var raised := Restore(items[i]);
        if !raised { restored := restored + 1; }
      }
      assert items[..|items|] == items;
    }

    method FindByConnection(connection: string) returns (id: Option<string>)
      ensures id == DeviceSpec.FindByConnection(Now(), connection)
      ensures id.Some? ==> id.value in devices && devices[id.value].connectionId == Some(connection)
      ensures id == None ==> forall x | x in ids && x in devices :: devices[x].connectionId != Some(connection)
    {
      FindFromFinds(devices, ids, connection);
      for i := 0 to |ids|
        invariant FindFrom(devices, ids[i..], connection) == FindFrom(devices, ids, connection)
      {
        assert ids[i..][1..] == ids[i + 1..];
        if ids[i] in devices && devices[ids[i]].connectionId == Some(connection) { return Some(ids[i]); }
      }
      return None;
    }
  }
}
