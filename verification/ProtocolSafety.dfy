/** What every interleaving of the device protocol guarantees: presence, ownership and routing. */
module ProtocolSafety {
  import opened Names
  import DeviceSpec
  import opened ProtocolSpec

  /** The transport as it comes up: nothing connected, every known device offline. */
  ghost predicate Initial(s: Net) {
    && s.sockets == map[] && s.live == {} && s.handlers == map[] && s.routed == 0 && s.forwards == []
    && (forall d :: d in s.registry.devices <==> d in s.registry.ids)
    && forall d | d in s.registry.devices :: !s.registry.devices[d].online && s.registry.devices[d].connectionId == None
  }

  // ---- what one step can change ----

  /** A step leaves other handlers, established identities and other connections' devices as they are. */
  lemma StepEffects(s: Net, e: Event)
    requires Inv(s) && Legal(s, e)
    ensures var w := Apply(s, e);
      && w.handlers.Keys == s.handlers.Keys + {e.c} && w.registry.devices.Keys >= s.registry.devices.Keys
      && (forall x | x in s.handlers && x != e.c :: w.handlers[x] == s.handlers[x])
      && (forall x | x in s.handlers && s.handlers[x].identity.Some? :: w.handlers[x].identity == s.handlers[x].identity)
      && (forall x, d | Owns(s, x, d) && !(e.GoOffline? && e.c == x) :: Owns(w, x, d))
  {
    hide OwnersLive, SocketsOwned;
    if CalmStep(e) {
      CalmStepMoves(s, e);
    } else {
      match e {
        case RegisterDevice(c, p, now) => RegisterEffects(s, e);
        case GoOffline(c, now) => MarkOfflinePresence(s.registry, s.handlers[c].pc.device, c, now);
        case _ =>
      }
    }
  }

  /** A registration succeeds exactly for a valid payload of the authenticated device while that is offline;
      otherwise registry and sockets stay as they are and the connection closes. */
  lemma RegisterEffects(s: Net, e: Event)
    requires Inv(s) && Legal(s, e) && e.RegisterDevice?
    ensures var w := Apply(s, e);
      var wins := DeviceSpec.ValidPayload(e.p, s.registry.versions) && s.handlers[e.c].identity == e.p.deviceId
                  && !DeviceSpec.IsOnline(s.registry, e.p.deviceId.value);
      && w.sockets == s.sockets && w.live == s.live
      && w.handlers == s.handlers[e.c := s.handlers[e.c].(pc := w.handlers[e.c].pc)]
      && (wins ==> Owns(w, e.c, e.p.deviceId.value) && w.handlers[e.c].pc == Pc.Registered(e.p.deviceId.value))
      && (!wins ==> w.registry == s.registry && w.handlers[e.c].pc == Closing)
      && w.registry.devices.Keys >= s.registry.devices.Keys
      && (forall x, d | Owns(s, x, d) :: Owns(w, x, d))
  {
    var h := s.handlers[e.c];
    if DeviceSpec.ValidPayload(e.p, s.registry.versions) && h.identity == e.p.deviceId {
      if DeviceSpec.Register(s.registry, e.p, h.identity, Some(e.c), e.now).1.None? {
        RegisterPresence(s.registry, e.p, h.identity, e.c, e.now);
      }
    }
  }

  // ---- presence and ownership over runs ----

  lemma {:induction false} EveryRunKeeps(s: Net, es: seq<Event>)
    requires Inv(s) && LegalRun(s, es)
    ensures Inv(Run(s, es))
    decreases |es|
  {
    if es != [] {
      ApplyKeeps(s, es[0]);
      EveryRunKeeps(Apply(s, es[0]), es[1..]);
    }
  }

  lemma InitialInv(s: Net)
    requires Initial(s)
    ensures Inv(s)
  {}

  /** In every interleaving: a bound socket is the registry's online connection for that device, and an
      online device has a live session authenticated as it. */
  lemma PresenceSound(s: Net, es: seq<Event>, d: string)
    requires Initial(s) && LegalRun(s, es)
    ensures var w := Run(s, es);
      && (d in w.sockets ==> DeviceSpec.IsOnline(w.registry, d) && w.registry.devices[d].connectionId == Some(w.sockets[d]))
      && (DeviceSpec.IsOnline(w.registry, d) ==>
            exists c :: c in w.live && c in w.handlers && w.handlers[c].identity == Some(d) && Owns(w, c, d))
  {
    InitialInv(s);
    EveryRunKeeps(s, es);
    var w := Run(s, es);
    if DeviceSpec.IsOnline(w.registry, d) {
      var c := w.registry.devices[d].connectionId.value;
      assert c in w.handlers && c in w.live && Owns(w, c, d);
    }
  }

  /** In every interleaving, teardown never finds its device bound to another connection. */
  lemma ReplacementBranchDead(s: Net, es: seq<Event>, c: ConnId)
    requires Initial(s) && LegalRun(s, es)
    requires c in Run(s, es).handlers && Run(s, es).handlers[c].pc.Found?
    ensures var w := Run(s, es);
      var d := w.handlers[c].pc.device; d in w.sockets ==> w.sockets[d] == c
  {
    InitialInv(s);
    EveryRunKeeps(s, es);
    NeverReplaced(Run(s, es), c);
  }

  /** The connection that got a device keeps it until its own teardown marks it offline, whatever the others do. */
  lemma {:induction false} OwnerKeepsDevice(s: Net, es: seq<Event>, c: ConnId, d: string)
    requires Inv(s) && LegalRun(s, es) && Owns(s, c, d)
    requires forall e | e in es :: !(e.GoOffline? && e.c == c)
    ensures Owns(Run(s, es), c, d)
    decreases |es|
  {
    if es != [] {
      ApplyKeeps(s, es[0]);
      StepEffects(s, es[0]);
      OwnerKeepsDevice(Apply(s, es[0]), es[1..], c, d);
    }
  }

  /** Of any registrations of a device, the first to reach the registry wins: until its own teardown marks the
      device offline, every later one is refused and leaves registry and sockets alone. */
  lemma LaterRegistrationLoses(s: Net, first: Event, es: seq<Event>, later: Event)
    requires Inv(s) && Legal(s, first) && LegalRun(Apply(s, first), es) && Legal(Run(Apply(s, first), es), later)
    requires first.RegisterDevice? && later.RegisterDevice? && first.p.deviceId.Some? && later.p.deviceId == first.p.deviceId
    requires Apply(s, first).handlers[first.c].pc == Pc.Registered(first.p.deviceId.value)
    requires forall e | e in es :: !(e.GoOffline? && e.c == first.c)
    ensures var v := Run(Apply(s, first), es);
      && Owns(v, first.c, first.p.deviceId.value)
      && Apply(v, later).registry == v.registry && Apply(v, later).sockets == v.sockets
      && Apply(v, later).handlers[later.c].pc == Closing
  {
    hide Apply, Legal, DeviceSpec.ValidPayload;
    RegisterEffects(s, first);
    ApplyKeeps(s, first);
    OwnerKeepsDevice(Apply(s, first), es, first.c, first.p.deviceId.value);
    EveryRunKeeps(Apply(s, first), es);
    OwnedIsOnline(Run(Apply(s, first), es), first.c, first.p.deviceId.value);
    RegisterEffects(Run(Apply(s, first), es), later);
  }

  lemma OwnedIsOnline(s: Net, c: ConnId, d: string)
    requires Inv(s) && Owns(s, c, d)
    ensures DeviceSpec.IsOnline(s.registry, d)
  {}

  /** Once a handler is through with teardown, neither the registry nor the socket map names its connection. */
  lemma DetachedOwnsNothing(s: Net, c: ConnId)
    requires Inv(s) && c in s.handlers && (s.handlers[c].pc.Detached? || s.handlers[c].pc.Gone?)
    ensures forall d :: !Owns(s, c, d) && (d in s.sockets ==> s.sockets[d] != c)
  {}

  /** A connection that owns no device and is on its way out. */
  ghost predicate Losing(s: Net, c: ConnId) {
    && c in s.handlers && (s.handlers[c].pc.Closing? || s.handlers[c].pc.Detached? || s.handlers[c].pc.Gone?)
    && forall d :: !Owns(s, c, d)
  }

  /** Along the run, no presence-related step of c touches the registry or the socket map. */
  ghost predicate QuietSteps(s: Net, es: seq<Event>, c: ConnId)
    requires LegalRun(s, es)
    decreases |es|
  {
    es == [] ||
    var w := Apply(s, es[0]);
    && (es[0].c == c && !es[0].Touch? && !es[0].Persist? ==> w.registry == s.registry && w.sockets == s.sockets)
    && QuietSteps(w, es[1..], c)
  }

  /** The full teardown of a losing or stale connection, however interleaved, disturbs no binding. */
  lemma {:induction false} LoserTeardownQuiet(s: Net, es: seq<Event>, c: ConnId)
    requires Inv(s) && LegalRun(s, es) && Losing(s, c)
    ensures QuietSteps(s, es, c) && Losing(Run(s, es), c)
    decreases |es|
  {
    if es != [] {
      LosingStays(s, es[0], c);
      ApplyKeeps(s, es[0]);
      LoserTeardownQuiet(Apply(s, es[0]), es[1..], c);
    }
  }

  /** A device changes hands only to the connection registering it. */
  lemma OwnershipGained(s: Net, e: Event, x: ConnId, d: string)
    requires Inv(s) && Legal(s, e) && Owns(Apply(s, e), x, d) && !Owns(s, x, d)
    ensures e.RegisterDevice? && e.c == x
  {
    if e.RegisterDevice? {
      var h := s.handlers[e.c];
      if DeviceSpec.ValidPayload(e.p, s.registry.versions) && h.identity == e.p.deviceId
         && DeviceSpec.Register(s.registry, e.p, h.identity, Some(e.c), e.now).1.None? {
        RegisterPresence(s.registry, e.p, h.identity, e.c, e.now);
      }
    } else {
      OthersGainNothing(s, e, x, d);
    }
  }

  lemma OthersGainNothing(s: Net, e: Event, x: ConnId, d: string)
    requires Inv(s) && Legal(s, e) && !e.RegisterDevice? && Owns(Apply(s, e), x, d)
    ensures Owns(s, x, d)
  {
    if e.GoOffline? { MarkOfflinePresence(s.registry, s.handlers[e.c].pc.device, e.c, e.now); }
  }

  lemma LosingStep(s: Net, e: Event)
    requires Inv(s) && Legal(s, e) && Losing(s, e.c) && !e.Touch? && !e.Persist?
    ensures var w := Apply(s, e);
      && w.registry == s.registry && w.sockets == s.sockets
      && (w.handlers[e.c].pc.Closing? || w.handlers[e.c].pc.Detached? || w.handlers[e.c].pc.Gone?)
  {
    FindsOwned(s, e.c);
  }

  lemma LosingStays(s: Net, e: Event, c: ConnId)
    requires Inv(s) && Legal(s, e) && Losing(s, c)
    ensures Losing(Apply(s, e), c)
    ensures e.c == c && !e.Touch? && !e.Persist? ==> Apply(s, e).registry == s.registry && Apply(s, e).sockets == s.sockets
  {
    var w := Apply(s, e);
    if e.c == c && !e.Touch? && !e.Persist? { LosingStep(s, e); }
    forall d ensures !Owns(w, c, d) {
      if Owns(w, c, d) { OwnershipGained(s, e, c, d); }
    }
  }

  // ---- a whole session ----

  /** How a device comes online. */
  function ComingUp(c: ConnId, d: string, token: string, p: DeviceSpec.Payload, now: int): seq<Event> {
    [Connect(c), Authenticate(c, d, token), RegisterDevice(c, p, now), BindSocket(c)]
  }

  /** A connection that authenticates as the device its payload names, that being valid and offline, brings it online
      over itself, with its socket bound; nothing else changes. */
  lemma SessionComesUp(s: Net, c: ConnId, d: string, token: string, p: DeviceSpec.Payload, now: int)
    requires Inv(s) && c !in s.handlers && DeviceSpec.ValidPayload(p, s.registry.versions) && p.deviceId == Some(d)
    requires !DeviceSpec.IsOnline(s.registry, d)
    ensures LegalRun(s, ComingUp(c, d, token, p, now))
    ensures var w := Run(s, ComingUp(c, d, token, p, now));
      && Owns(w, c, d) && DeviceSpec.IsOnline(w.registry, d) && w.sockets == s.sockets[d := c]
      && w.live == s.live + {c} && w.handlers == s.handlers[c := Handler(Serving, Some(d), Some(token))]
      && w.routed == s.routed && w.forwards == s.forwards
      && (forall x | x in s.registry.devices && x != d :: x in w.registry.devices && w.registry.devices[x] == s.registry.devices[x])
  {
    hide Inv, DeviceSpec.ValidPayload, DeviceSpec.Register, Run, LegalRun;
    var all := ComingUp(c, d, token, p, now);
    RunFirst(s, all[0], all[1..], all);
    var s1 := Apply(s, all[0]);
    RunFirst(s1, all[1], all[2..], all[1..]);
    Authenticated(s, c, d, token, p);
    var s2 := Apply(s1, all[1]);
    RunFirst(s2, all[2], all[3..], all[2..]);
    Accepted(s2, c, p, now);
    var s3 := Apply(s2, all[2]);
    RunFirst(s3, all[3], [], all[3..]);
    RunNothing(Apply(s3, all[3]));
    Overwrite(s.handlers, c, s2.handlers[c], s3.handlers[c]);
    Overwrite(s.handlers, c, s3.handlers[c], Handler(Serving, Some(d), Some(token)));
  }

  lemma RunNothing(s: Net)
    ensures LegalRun(s, []) && Run(s, []) == s
  {}

  lemma Authenticated(s: Net, c: ConnId, d: string, token: string, p: DeviceSpec.Payload)
    requires c !in s.handlers && DeviceSpec.ValidPayload(p, s.registry.versions) && p.deviceId == Some(d)
    ensures Legal(s, Connect(c)) && Legal(Apply(s, Connect(c)), Authenticate(c, d, token))
    ensures Apply(Apply(s, Connect(c)), Authenticate(c, d, token)) ==
      s.(handlers := s.handlers[c := Handler(Serving, Some(d), Some(token))], live := s.live + {c})
  {
    Overwrite(s.handlers, c, Handler(Greeting, None, None), Handler(Serving, Some(d), Some(token)));
  }

  lemma Accepted(s: Net, c: ConnId, p: DeviceSpec.Payload, now: int)
    requires DeviceSpec.ValidPayload(p, s.registry.versions) && !DeviceSpec.IsOnline(s.registry, p.deviceId.value)
    requires c in s.handlers && s.handlers[c].pc.Serving? && s.handlers[c].identity == p.deviceId
    ensures Legal(s, RegisterDevice(c, p, now))
    ensures var w, d := Apply(s, RegisterDevice(c, p, now)), p.deviceId.value;
      && w == Go(s.(registry := w.registry), c, Pc.Registered(d)) && Owns(w, c, d) && DeviceSpec.IsOnline(w.registry, d)
      && (forall x | x in s.registry.devices && x != d :: x in w.registry.devices && w.registry.devices[x] == s.registry.devices[x])
  {
    RegisterPresence(s.registry, p, s.handlers[c].identity, c, now);
  }

  function GoingDown(c: ConnId, now: int): seq<Event> {
    [Hangup(c), FindBinding(c), Unbind(c), GoOffline(c, now), RemoveSession(c)]
  }

  /** A connection that goes down takes its device offline, unbinds its socket and ends its session; nothing else
      changes. */
  lemma SessionGoesDown(s: Net, c: ConnId, d: string, now: int)
    requires Inv(s) && c in s.handlers && s.handlers[c].pc.Serving? && Owns(s, c, d)
    ensures LegalRun(s, GoingDown(c, now))
    ensures var w, was := Run(s, GoingDown(c, now)), s.registry.devices;
      && w.registry.devices == was[d := was[d].(online := false, connectionId := None, lastSeen := Some(now))]
      && w.sockets == s.sockets - {d} && w.live == s.live - {c}
      && w.handlers == s.handlers[c := s.handlers[c].(pc := Gone, token := None)]
      && w.routed == s.routed && w.forwards == s.forwards
  {
    hide Inv, Run, LegalRun, DeviceSpec.FindByConnection;
    var all := GoingDown(c, now);
    FindsOwned(s, c);
    NotBoundElsewhere(s, c, d);
    RunFirst(s, all[0], all[1..], all);
    Moved(s, c, Closing, Found(d));
    RunFirst(Go(s, c, Closing), all[1], all[2..], all[1..]);
    RunFirst(Go(s, c, Found(d)), all[2], all[3..], all[2..]);
    var unbound := s.(sockets := s.sockets - {d});
    Moved(unbound, c, Found(d), Unbound(d));
    FromUnbound(unbound, c, d, now);
  }

  lemma FromUnbound(s: Net, c: ConnId, d: string, now: int)
    requires c in s.handlers && Owns(s, c, d)
    ensures LegalRun(Go(s, c, Unbound(d)), GoingDown(c, now)[3..])
    ensures Run(Go(s, c, Unbound(d)), GoingDown(c, now)[3..]) == s.(
      registry := DeviceSpec.MarkOffline(s.registry, d, Some(c), now), live := s.live - {c},
      handlers := s.handlers[c := s.handlers[c].(pc := Gone, token := None)])
  {
    hide Run, LegalRun, DeviceSpec.MarkOffline;
    var all, v := GoingDown(c, now), Go(s, c, Unbound(d));
    RunFirst(v, all[3], all[4..], all[3..]);
    var v1 := Apply(v, all[3]);
    RunFirst(v1, all[4], [], all[4..]);
    RunNothing(Apply(v1, all[4]));
    Overwrite(s.handlers, c, v.handlers[c], v1.handlers[c]);
    Overwrite(s.handlers, c, v1.handlers[c], s.handlers[c].(pc := Gone, token := None));
  }

  lemma Moved(s: Net, c: ConnId, pc: Pc, pc': Pc)
    requires c in s.handlers
    ensures Go(Go(s, c, pc), c, pc') == Go(s, c, pc')
  {
    Overwrite(s.handlers, c, s.handlers[c].(pc := pc), s.handlers[c].(pc := pc'));
  }

  lemma NotBoundElsewhere(s: Net, c: ConnId, d: string)
    requires Inv(s) && Owns(s, c, d)
    ensures d in s.sockets ==> s.sockets[d] == c
  {}
}
