/** The transport's device handlers run one at a time: every locked block is one step of the protocol. */
module Transport {
  import opened Names
  import opened JoinNames
  import DeviceSpec
  import opened Devices
  import opened ProtocolSpec

  datatype Delivery = Delivery(receiver: ConnId, message: Message)

  class TCPTransport {
    const devices: DeviceRegistry
    var sockets: map<string, ConnId>
    var live: set<ConnId>
    var routed: nat
    /** The frames written to other devices' sockets. */
    var sent: seq<Forward>
    /** The messages the router wrote to devices' sockets itself. */
    var delivered: seq<Delivery>
    /** The sessions, and where each handler stands. */
    var handlers: map<ConnId, Handler>

    ghost function Now(): Net
      reads this, devices
    {
      Net(devices.Now(), sockets, live, handlers, routed, sent)
    }

    constructor (devices: DeviceRegistry)
      ensures this.devices == devices && Now() == Net(devices.Now(), map[], {}, map[], 0, []) && delivered == []
    {
      this.devices := devices;
      sockets, live, routed, sent, delivered, handlers := map[], {}, 0, [], [], map[];
    }

    method Move(c: ConnId, pc: Pc)
      requires c in handlers
      modifies this`handlers
      ensures Now() == Go(old(Now()), c, pc)
    {
      handlers := handlers[c := handlers[c].(pc := pc)];
    }

    // ---- messages ----

    /** `_enforce_identity`: false where it raises. */
    method EnforceIdentity(c: ConnId, message: Message) returns (ok: bool)
      requires c in handlers
      ensures ok == Enforced(handlers[c], message)
      ensures ok <==>
        && handlers[c].identity == Some(message.source) && message.identityId == Some(message.source)
        && "_session_token" in message.payload && message.payload["_session_token"] != ""
        && handlers[c].token == Some(message.payload["_session_token"])
    {
      var session := handlers[c];
      if session.identity == None { return false; }
      if message.identityId != session.identity { return false; }
      if message.source != session.identity.value { return false; }
      if session.token == None { return false; }
      if TOKEN_KEY !in message.payload || message.payload[TOKEN_KEY] == "" { return false; }
      return message.payload[TOKEN_KEY] == session.token.value;
    }

    /** A message outside the device protocol: refused, handed on for forwarding, or left to the router. */
    method Receive(c: ConnId, message: Message) returns (forward: bool)
      requires Legal(Now(), Event.Receive(c, message))
      modifies this`handlers
      ensures Now() == Apply(old(Now()), Event.Receive(c, message))
      ensures c in handlers && (forward <==> handlers[c].pc == Routing(message))
      ensures forward ==> Enforced(handlers[c], message) && message.destination in devices.devices
      ensures handlers[c].pc == Closing <==> !Enforced(old(handlers[c]), message)
    {
      var ok := EnforceIdentity(c, message);
      if !ok {
        Move(c, Closing);
        return false;
      }
      forward := message.destination in devices.devices;
      if forward { Move(c, Routing(message)); }
    }

    // ---- registration ----

    /** The registry's block of DEVICE_REGISTER, with the checks before it. */
    method RegisterDevice(c: ConnId, p: DeviceSpec.Payload, now: int) returns (bound: bool)
      requires Legal(Now(), Event.RegisterDevice(c, p, now))
      modifies this`handlers, devices
      ensures Now() == Apply(old(Now()), Event.RegisterDevice(c, p, now))
      ensures bound <==>
        && DeviceSpec.ValidPayload(p, devices.versions) && old(handlers[c].identity) == p.deviceId
        && !(p.deviceId.value in old(devices.devices) && old(devices.devices)[p.deviceId.value].online)
      ensures bound ==> Bound(devices.devices, p.deviceId.value, c, now)
      ensures bound && p.deviceId.value !in old(devices.devices) ==> devices.devices[p.deviceId.value].registeredAt == now
      ensures c in handlers && if bound then p.deviceId.Some? && handlers[c].pc == Registered(p.deviceId.value)
                               else handlers[c].pc == Closing
    {
      if !DeviceSpec.ValidPayload(p, devices.versions) || handlers[c].identity != p.deviceId {
        Move(c, Closing);
        return false;
      }
      var raised := devices.RegisterPayload(p, handlers[c].identity, Some(c), now);
      if raised.Some? {
        Move(c, Closing);
        return false;
      }
      Move(c, Registered(p.deviceId.value));
      return true;
    }

    method BindSocket(c: ConnId)
      requires Legal(Now(), Event.BindSocket(c))
      modifies this`handlers, this`sockets
      ensures Now() == Apply(old(Now()), Event.BindSocket(c))
      ensures c in handlers && handlers[c].pc == Serving && sockets == old(sockets)[old(handlers[c].pc.device) := c]
    {
      sockets := sockets[handlers[c].pc.device := c];
      Move(c, Serving);
    }

    method UpdateLastSeen(c: ConnId, device: string, now: int)
      requires c in handlers
      modifies devices
      ensures Now() == Apply(old(Now()), Touch(c, device, now))
      ensures devices.devices.Keys == old(devices.devices).Keys
      ensures device in devices.devices ==> devices.devices[device].lastSeen == Some(now)
    {
      devices.UpdateLastSeen(device, now);
    }

    method PersistIdentity(c: ConnId, device: string, token: Option<string>, permissions: Option<seq<string>>)
      requires c in handlers
      modifies devices
      ensures Now() == Apply(old(Now()), Persist(c, device, token, permissions))
      ensures devices.devices == old(devices.devices)
      ensures device in devices.devices ==> Credited(devices.store, device, token, permissions)
    {
      devices.PersistIdentity(device, token, permissions);
    }

    /** `_handle_device_register`; `token` and `permissions` are what the security layer holds for the identity. */
    method HandleDeviceRegister(c: ConnId, p: DeviceSpec.Payload, now: int, token: Option<string>, permissions: Option<seq<string>>)
        returns (handled: bool)
      requires Legal(Now(), Event.RegisterDevice(c, p, now))
      modifies this`handlers, this`sockets, devices
      ensures DidRun(old(Now()), RegisterSteps(c, p, now, token, permissions, handled), Now())
      ensures c in handlers
      ensures if handled then p.deviceId.Some? && sockets == old(sockets)[p.deviceId.value := c]
              else sockets == old(sockets) && handlers[c].pc == Closing
      ensures handled ==> Credited(devices.store, p.deviceId.value, token, permissions)
    {
      hide Apply, DidRun, Credited, DeviceSpec.ValidPayload, Legal;
      ghost var s, e1 := Now(), Event.RegisterDevice(c, p, now);
      DidNothing(s);
      DidThen(s, [], s, e1, [e1]);
      handled := RegisterDevice(c, p, now);
      if !handled { return; }
      var id := p.deviceId.value;
      ghost var e2, e3, e4 := Event.BindSocket(c), Touch(c, id, now), Persist(c, id, token, permissions);
      DidThen(s, [e1], Now(), e2, [e1, e2]);
      BindSocket(c);
      DidThen(s, [e1, e2], Now(), e3, [e1, e2, e3]);
      UpdateLastSeen(c, id, now);
      DidThen(s, [e1, e2, e3], Now(), e4, [e1, e2, e3, e4]);
      PersistIdentity(c, id, token, permissions);
    }

    // ---- forwarding ----

    method CheckSender(c: ConnId, ghost since: Net) returns (ok: bool)
      requires c in handlers && handlers[c].pc.Routing? && Took(since, c, Now())
      modifies this`handlers
      ensures Now() == Apply(old(Now()), Event.CheckSender(c)) && Took(since, c, Now())
      ensures ok == SenderRegistered(old(Now()), c) && c in handlers
      ensures handlers[c].pc == if ok then SenderOk(old(handlers[c].pc.m)) else Serving
    {
      TookNext(since, c, Now(), Event.CheckSender(c));
      var record := devices.FindByConnection(c);
      ok := record.Some? && record.value in devices.devices && devices.devices[record.value].online;
      Move(c, if ok then SenderOk(handlers[c].pc.m) else Serving);
    }

    method Resolve(c: ConnId, ghost since: Net) returns (ok: bool)
      requires c in handlers && handlers[c].pc.SenderOk? && Took(since, c, Now())
      modifies this`handlers
      ensures Now() == Apply(old(Now()), Event.Resolve(c)) && Took(since, c, Now())
      ensures var m := old(handlers[c].pc.m);
        && ok == (Strip(m.destination) != "" && m.destination in devices.devices) && c in handlers
        && handlers[c].pc == if ok then Resolved(m) else Serving
    {
      TookNext(since, c, Now(), Event.Resolve(c));
      var m := handlers[c].pc.m;
      ok := Strip(m.destination) != "" && m.destination in devices.devices;
      Move(c, if ok then Resolved(m) else Serving);
    }

    method ReadBinding(c: ConnId, ghost since: Net) returns (to: Option<ConnId>)
      requires c in handlers && handlers[c].pc.Resolved? && Took(since, c, Now())
      modifies this`handlers
      ensures Now() == Apply(old(Now()), Event.ReadBinding(c)) && Took(since, c, Now())
      ensures var m := old(handlers[c].pc.m);
        && to == (if m.destination in sockets then Some(sockets[m.destination]) else None)
        && c in handlers && handlers[c].pc == ReadTo(m, to)
    {
      TookNext(since, c, Now(), Event.ReadBinding(c));
      var m := handlers[c].pc.m;
      to := if m.destination in sockets then Some(sockets[m.destination]) else None;
      Move(c, ReadTo(m, to));
    }

    method ReadStatus(c: ConnId, ghost since: Net) returns (ok: bool)
      requires c in handlers && handlers[c].pc.ReadTo? && Took(since, c, Now())
      modifies this`handlers
      ensures Now() == Apply(old(Now()), Event.ReadStatus(c)) && Took(since, c, Now())
      ensures var pc := old(handlers[c].pc);
        && ok == (pc.m.destination in devices.devices && devices.devices[pc.m.destination].online)
        && c in handlers && handlers[c].pc == if ok then SawOnline(pc.m, pc.to) else Serving
    {
      TookNext(since, c, Now(), Event.ReadStatus(c));
      var pc := handlers[c].pc;
      ok := pc.m.destination in devices.devices && devices.devices[pc.m.destination].online;
      Move(c, if ok then SawOnline(pc.m, pc.to) else Serving);
    }

    method ReadConnection(c: ConnId, ghost since: Net) returns (ok: bool)
      requires c in handlers && handlers[c].pc.SawOnline? && Took(since, c, Now())
      modifies this`handlers
      ensures Now() == Apply(old(Now()), Event.ReadConnection(c)) && Took(since, c, Now())
      ensures var pc := old(handlers[c].pc);
        && ok == (pc.to.Some? && pc.m.destination in devices.devices
                  && devices.devices[pc.m.destination].connectionId == pc.to)
        && c in handlers && handlers[c].pc == if ok then Cleared(pc.m, pc.to.value) else Serving
    {
      TookNext(since, c, Now(), Event.ReadConnection(c));
      var pc := handlers[c].pc;
      ok := pc.to.Some? && pc.m.destination in devices.devices && devices.devices[pc.m.destination].connectionId == pc.to;
      Move(c, if ok then Cleared(pc.m, pc.to.value) else Serving);
    }

    /** `writes` says whether the write to the destination's socket succeeds. */
    method Send(c: ConnId, writes: bool, ghost since: Net)
      requires c in handlers && handlers[c].pc.Cleared? && Took(since, c, Now())
      modifies this`handlers, this`sent
      ensures Now() == Apply(old(Now()), Event.Send(c, writes)) && Took(since, c, Now())
      ensures var pc := old(handlers[c].pc);
        && sent == old(sent) + (if writes then [Forward(c, pc.receiver, pc.m, Stripped(pc.m))] else [])
        && c in handlers && handlers[c].pc == if writes then Sent(pc.m) else Serving
    {
      TookNext(since, c, Now(), Event.Send(c, writes));
      var m := handlers[c].pc.m;
      if writes {
        var forwarded := Message(m.source, m.destination, m.messageType, m.payload - {TOKEN_KEY},
                                 m.messageId, m.timestamp, m.requestId, m.identityId);
        sent := sent + [Forward(c, handlers[c].pc.receiver, m, forwarded)];
        Move(c, Sent(m));
      } else {
        Move(c, Serving);
      }
    }

    method CountRouted(c: ConnId, ghost since: Net)
      requires c in handlers && handlers[c].pc.Sent? && Took(since, c, Now())
      modifies this`handlers, this`routed
      ensures Now() == Apply(old(Now()), Event.CountRouted(c)) && Took(since, c, Now())
      ensures routed == old(routed) + 1 && c in handlers && handlers[c].pc == Serving
    {
      TookNext(since, c, Now(), Event.CountRouted(c));
      routed := routed + 1;
      Move(c, Serving);
    }

    /** The checks before a delivery; when they pass, the handler holds the cleared message. */
    method CheckDelivery(c: ConnId, message: Message) returns (ok: bool)
      requires c in handlers && handlers[c].pc == Routing(message)
      modifies this`handlers
      ensures Took(old(Now()), c, Now())
      ensures ok <==> Deliverable(old(Now()), c, message)
      ensures c in handlers && handlers[c].pc == if ok then Cleared(message, sockets[message.destination]) else Serving
    {
      hide Apply, Took, SenderRegistered;
      ghost var s := Now();
      TookNothing(s, c);
      ok := CheckSender(c, s);
      if !ok { return; }
      ok := Resolve(c, s);
      if !ok { return; }
      var to := ReadBinding(c, s);
      ok := ReadStatus(c, s);
      if !ok { return; }
      ok := ReadConnection(c, s);
    }

    /** `_handle_device_routed`, once the message has been found to speak for its session. */
    method HandleDeviceRouted(c: ConnId, message: Message, writes: bool, now: int) returns (forwarded: bool)
      requires c in handlers && handlers[c].pc == Routing(message)
      modifies this`handlers, this`sent, this`routed, devices
      ensures Took(old(Now()), c, Now())
      ensures c in handlers && handlers[c].pc == Serving
      ensures forwarded <==> Deliverable(old(Now()), c, message) && writes
      ensures routed == old(routed) + if forwarded then 1 else 0
      ensures sent == old(sent) + if forwarded
        then [Forward(c, old(sockets[message.destination]), message, Stripped(message))] else []
    {
      hide Apply, Took, Deliverable, Stripped;
      ghost var s := Now();
      var ok := CheckDelivery(c, message);
      if !ok { return false; }
      Send(c, writes, s);
      if !writes { return false; }
      CountRouted(c, s);
      Seen(c, message.source, now, s);
      Seen(c, message.destination, now, s);
      return true;
    }

    method Seen(c: ConnId, device: string, now: int, ghost since: Net)
      requires c in handlers && Took(since, c, Now())
      modifies devices
      ensures Took(since, c, Now())
    {
      TookNext(since, c, Now(), Touch(c, device, now));
      UpdateLastSeen(c, device, now);
    }

    /** `deliver_to_device`: the router's own delivery, with the same checks on the destination. */
    method DeliverToDevice(message: Message, writes: bool) returns (raised: bool)
      modifies this`delivered, this`routed
      ensures raised <==> !(Reachable(old(Now()), message.destination) && writes)
      ensures routed == old(routed) + if raised then 0 else 1
      ensures delivered == old(delivered) + if raised then [] else [Delivery(old(sockets[message.destination]), message)]
    {
      var d := message.destination;
      if Strip(d) == "" { return true; }
      if d !in devices.devices { return true; }
      var record := devices.devices[d];
      var binding := if d in sockets then Some(sockets[d]) else None;
      if !record.online || record.connectionId == None || binding == None || binding != record.connectionId {
        return true;
      }
      if !writes { return true; }
      delivered := delivered + [Delivery(binding.value, message)];
      routed := routed + 1;
      return false;
    }

    // ---- teardown ----

    method FindBinding(c: ConnId, ghost since: Net)
      requires c in handlers && handlers[c].pc.Closing? && Took(since, c, Now())
      modifies this`handlers
      ensures Now() == Apply(old(Now()), Event.FindBinding(c)) && Took(since, c, Now())
      ensures c in handlers && (handlers[c].pc.Found? || handlers[c].pc == Detached)
    {
      TookNext(since, c, Now(), Event.FindBinding(c));
      var record := devices.FindByConnection(c);
      Move(c, if record.Some? then Found(record.value) else Detached);
    }

    method Unbind(c: ConnId, ghost since: Net)
      requires c in handlers && handlers[c].pc.Found? && Took(since, c, Now())
      modifies this`handlers, this`sockets
      ensures Now() == Apply(old(Now()), Event.Unbind(c)) && Took(since, c, Now())
      ensures var d, was := old(handlers[c].pc.device), old(sockets);
        sockets == if d in was && was[d] != c then was else was - {d}
      ensures c in handlers && (handlers[c].pc.Unbound? || handlers[c].pc == Detached)
    {
      TookNext(since, c, Now(), Event.Unbind(c));
      var device := handlers[c].pc.device;
      if device in sockets && sockets[device] != c {
        // Bound to another connection by now: not this handler's to undo.
        Move(c, Detached);
        return;
      }
      sockets := sockets - {device};
      Move(c, Unbound(device));
    }

    method GoOffline(c: ConnId, now: int, ghost since: Net)
      requires c in handlers && handlers[c].pc.Unbound? && Took(since, c, Now())
      modifies this`handlers, devices
      ensures Now() == Apply(old(Now()), Event.GoOffline(c, now)) && Took(since, c, Now())
      ensures var d, was := old(handlers[c].pc.device), old(devices.devices);
        d in was && was[d].connectionId == Some(c) ==>
          devices.devices == was[d := was[d].(online := false, connectionId := None, lastSeen := Some(now))]
      ensures c in handlers && handlers[c].pc == Detached
    {
      TookNext(since, c, Now(), Event.GoOffline(c, now));
      devices.MarkOffline(handlers[c].pc.device, Some(c), now);
      Move(c, Detached);
    }

    /** `_cleanup_device_binding` */
    method CleanupDeviceBinding(c: ConnId, now: int)
      requires c in handlers && handlers[c].pc == Closing
      modifies this`handlers, this`sockets, devices
      ensures Took(old(Now()), c, Now())
      ensures c in handlers && handlers[c].pc == Detached
    {
      hide Apply, Took;
      ghost var s := Now();
      TookNothing(s, c);
      FindBinding(c, s);
      if handlers[c].pc == Detached { return; }
      Unbind(c, s);
      if handlers[c].pc == Detached { return; }
      GoOffline(c, now, s);
    }

    /** `_remove_session`, last in `_handle_connection`. */
    method RemoveSession(c: ConnId)
      requires Legal(Now(), Event.RemoveSession(c))
      modifies this`handlers, this`live
      ensures Now() == Apply(old(Now()), Event.RemoveSession(c))
      ensures live == old(live) - {c} && c in handlers && handlers[c].pc == Gone && handlers[c].token == None
    {
      live := live - {c};
      handlers := handlers[c := handlers[c].(pc := Gone, token := None)];
    }
  }

  /** The device is online over c, last seen now. */
  predicate Bound(registered: map<string, DeviceSpec.DeviceRecord>, device: string, c: ConnId, now: int) {
    device in registered && registered[device].online && registered[device].connectionId == Some(c)
    && registered[device].lastSeen == Some(now)
  }

  /** The store holds the credentials that were supplied. */
  predicate Credited(store: map<string, DeviceSpec.Snapshot>, device: string, token: Option<string>, permissions: Option<seq<string>>) {
    && device in store && (token.Some? ==> store[device].token == token)
    && (permissions.Some? ==> store[device].permissions == permissions.value)
  }

  /** The device is online over the connection that its bound socket belongs to. */
  predicate Reachable(s: Net, d: string) {
    Strip(d) != "" && DeviceSpec.IsOnline(s.registry, d) && d in s.sockets
    && s.registry.devices[d].connectionId == Some(s.sockets[d])
  }

  /** What the checks before a forward ask for, when nothing else runs in between. */
  predicate Deliverable(s: Net, c: ConnId, m: Message) { SenderRegistered(s, c) && Reachable(s, m.destination) }

  /** What a DEVICE_REGISTER does, block by block. */
  function RegisterSteps(c: ConnId, p: DeviceSpec.Payload, now: int, token: Option<string>, permissions: Option<seq<string>>,
                         handled: bool): seq<Event> {
    var first := Event.RegisterDevice(c, p, now);
    if handled && p.deviceId.Some? then
      [first, Event.BindSocket(c), Touch(c, p.deviceId.value, now), Persist(c, p.deviceId.value, token, permissions)]
    else [first]
  }

  /** These steps lead from s to w. */
  ghost predicate DidRun(s: Net, steps: seq<Event>, w: Net) {
    LegalRun(s, steps) && w == Run(s, steps)
  }

  lemma DidNothing(s: Net)
    ensures DidRun(s, [], s)
  {}

  lemma DidThen(s: Net, steps: seq<Event>, v: Net, e: Event, more: seq<Event>)
    requires DidRun(s, steps, v) && Legal(v, e) && more == steps + [e]
    ensures DidRun(s, more, Apply(v, e))
  {
    RunSnoc(s, steps, e);
  }

  /** Steps of the handler c alone lead from s to w. */
  ghost predicate Took(s: Net, c: ConnId, w: Net) {
    exists steps: seq<Event> :: DidRun(s, steps, w) && OnlyBy(steps, c)
  }

  ghost predicate OnlyBy(steps: seq<Event>, c: ConnId) { forall e | e in steps :: e.c == c }

  lemma TookNothing(s: Net, c: ConnId)
    ensures Took(s, c, s)
  {
    DidNothing(s);
    assert OnlyBy([], c);
  }

  lemma TookNext(s: Net, c: ConnId, v: Net, e: Event)
    requires Took(s, c, v) && Legal(v, e) && e.c == c
    ensures Took(s, c, Apply(v, e))
  {
    hide Apply, Legal;
    var steps :| DidRun(s, steps, v) && OnlyBy(steps, c);
    DidThen(s, steps, v, e, steps + [e]);
    assert OnlyBy(steps + [e], c);
  }
}
