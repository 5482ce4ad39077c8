/** The device protocol: any number of connection handlers interleaving, each locked block one step. */
module ProtocolSpec {
  import opened Names
  import opened JoinNames
  import opened DeviceSpec

  const TOKEN_KEY := "_session_token"

  datatype Message = Message(
    source: string, destination: string, messageType: string, payload: map<string, string>,
    messageId: string, timestamp: int, requestId: Option<string>, identityId: Option<string>)

  /** Where a handler thread stands between two locked blocks. */
  datatype Pc =
    | Greeting
    | Serving
    | Registered(device: string)
    | Routing(m: Message)
    | SenderOk(m: Message)
    | Resolved(m: Message)
    | ReadTo(m: Message, to: Option<ConnId>)
    | SawOnline(m: Message, to: Option<ConnId>)
    | Cleared(m: Message, receiver: ConnId)
    | Sent(m: Message)
    | Closing
    | Found(device: string)
    | Unbound(device: string)
    | Detached
    | Gone

  /** A handler with its session's authenticated identity and session token. */
  datatype Handler = Handler(pc: Pc, identity: Option<string>, token: Option<string>)

  datatype Forward = Forward(sender: ConnId, receiver: ConnId, raw: Message, out: Message)

  datatype Net = Net(
    registry: Registry, sockets: map<string, ConnId>, live: set<ConnId>,
    handlers: map<ConnId, Handler>, routed: nat, forwards: seq<Forward>)

  datatype Event =
    | Connect(c: ConnId)
    | Authenticate(c: ConnId, identity: string, session: string)
    | Hangup(c: ConnId)
    | RegisterDevice(c: ConnId, p: Payload, now: int)
    | BindSocket(c: ConnId)
    | Receive(c: ConnId, m: Message)
    | CheckSender(c: ConnId)
    | Resolve(c: ConnId)
    | ReadBinding(c: ConnId)
    | ReadStatus(c: ConnId)
    | ReadConnection(c: ConnId)
    | Send(c: ConnId, ok: bool)
    | CountRouted(c: ConnId)
    | FindBinding(c: ConnId)
    | Unbind(c: ConnId)
    | GoOffline(c: ConnId, now: int)
    | RemoveSession(c: ConnId)
    | Touch(c: ConnId, device: string, now: int)
    | Persist(c: ConnId, device: string, token: Option<string>, permissions: Option<seq<string>>)

  predicate IsRouting(pc: Pc) {
    pc.Routing? || pc.SenderOk? || pc.Resolved? || pc.ReadTo? || pc.SawOnline? || pc.Cleared?
  }

  predicate Legal(s: Net, e: Event) {
    if e.Connect? then e.c !in s.handlers
    else e.c in s.handlers && StepEnabled(s.handlers[e.c].pc, e)
  }

  predicate StepEnabled(pc: Pc, e: Event) {
    match e
    case Connect(_) => false
    case Authenticate(_, identity, _) => pc.Greeting? && identity != ""
    case Hangup(_) => pc.Greeting? || pc.Serving? || IsRouting(pc)
    case RegisterDevice(_, _, _) => pc.Serving?
    case BindSocket(_) => pc.Registered?
    case Receive(_, _) => pc.Serving?
    case CheckSender(_) => pc.Routing?
    case Resolve(_) => pc.SenderOk?
    case ReadBinding(_) => pc.Resolved?
    case ReadStatus(_) => pc.ReadTo?
    case ReadConnection(_) => pc.SawOnline?
    case Send(_, _) => pc.Cleared?
    case CountRouted(_) => pc.Sent?
    case FindBinding(_) => pc.Closing?
    case Unbind(_) => pc.Found?
    case GoOffline(_, _) => pc.Unbound?
    case RemoveSession(_) => pc.Detached?
    case Touch(_, _, _) => true
    case Persist(_, _, _, _) => true
  }

  function Go(s: Net, c: ConnId, pc: Pc): Net
    requires c in s.handlers
  {
    s.(handlers := s.handlers[c := s.handlers[c].(pc := pc)])
  }

  /** `_enforce_identity`: the message speaks for the session's identity and presents its token. */
  predicate Enforced(h: Handler, m: Message) {
    && h.identity.Some? && m.identityId == h.identity && m.source == h.identity.value
    && h.token.Some? && TOKEN_KEY in m.payload && m.payload[TOKEN_KEY] != "" && m.payload[TOKEN_KEY] == h.token.value
  }

  function Stripped(m: Message): Message {
    m.(payload := m.payload - {TOKEN_KEY})
  }

  predicate SenderRegistered(s: Net, c: ConnId) {
    var d := FindByConnection(s.registry, c);
    d.Some? && IsOnline(s.registry, d.value)
  }

  function Apply(s: Net, e: Event): Net
    requires Legal(s, e)
  {
    if e.Connect? then
      s.(handlers := s.handlers[e.c := Handler(Greeting, None, None)], live := s.live + {e.c})
    else
      var c, h := e.c, s.handlers[e.c];
      match e
      case Authenticate(_, identity, session) =>
        s.(handlers := s.handlers[c := Handler(Serving, Some(identity), Some(session))])
      case Hangup(_) => Go(s, c, Closing)
      case RegisterDevice(_, p, now) =>
        if !ValidPayload(p, s.registry.versions) || h.identity != p.deviceId then Go(s, c, Closing)
        else
          var (registry, raised) := Register(s.registry, p, h.identity, Some(c), now);
          if raised.Some? then Go(s, c, Closing)
          else Go(s.(registry := registry), c, Pc.Registered(p.deviceId.value))
      case BindSocket(_) => Go(s.(sockets := s.sockets[h.pc.device := c]), c, Serving)
      case Receive(_, m) =>
        if !Enforced(h, m) then Go(s, c, Closing)
        else if m.destination in s.registry.devices then Go(s, c, Routing(m))
        else s
      case CheckSender(_) => Go(s, c, if SenderRegistered(s, c) then SenderOk(h.pc.m) else Serving)
      case Resolve(_) =>
        var m := h.pc.m;
        Go(s, c, if Strip(m.destination) != "" && m.destination in s.registry.devices then Resolved(m) else Serving)
      case ReadBinding(_) =>
        var d := h.pc.m.destination;
        Go(s, c, ReadTo(h.pc.m, if d in s.sockets then Some(s.sockets[d]) else None))
      case ReadStatus(_) =>
        Go(s, c, if IsOnline(s.registry, h.pc.m.destination) then SawOnline(h.pc.m, h.pc.to) else Serving)
      case ReadConnection(_) =>
        var d := h.pc.m.destination;
        Go(s, c, if h.pc.to.Some? && d in s.registry.devices && s.registry.devices[d].connectionId == h.pc.to
                 then Cleared(h.pc.m, h.pc.to.value) else Serving)
      case Send(_, ok) =>
        if ok then
          Go(s.(forwards := s.forwards + [Forward(c, h.pc.receiver, h.pc.m, Stripped(h.pc.m))]), c, Sent(h.pc.m))
        else Go(s, c, Serving)
      case CountRouted(_) => Go(s.(routed := s.routed + 1), c, Serving)
      case FindBinding(_) =>
        var d := FindByConnection(s.registry, c);
        Go(s, c, if d.Some? then Found(d.value) else Detached)
      case Unbind(_) =>
        var d := h.pc.device;
        if d in s.sockets && s.sockets[d] != c then Go(s, c, Detached)
        else Go(s.(sockets := s.sockets - {d}), c, Unbound(d))
      case GoOffline(_, now) => Go(s.(registry := MarkOffline(s.registry, h.pc.device, Some(c), now)), c, Detached)
      case RemoveSession(_) =>
        s.(live := s.live - {c}, handlers := s.handlers[c := h.(pc := Gone, token := None)])
      case Touch(_, d, now) => s.(registry := UpdateLastSeen(s.registry, d, now))
      case Persist(_, d, token, permissions) => s.(registry := PersistIdentity(s.registry, d, token, permissions))
  }

  predicate LegalRun(s: Net, es: seq<Event>)
    decreases |es|
  {
    es == [] || (Legal(s, es[0]) && LegalRun(Apply(s, es[0]), es[1..]))
  }

  function Run(s: Net, es: seq<Event>): Net
    requires LegalRun(s, es)
    decreases |es|
  {
    if es == [] then s else Run(Apply(s, es[0]), es[1..])
  }

  /** A longer run is a run and one more step. */
  lemma {:induction false} RunSnoc(s: Net, es: seq<Event>, e: Event)
    ensures LegalRun(s, es + [e]) <==> LegalRun(s, es) && Legal(Run(s, es), e)
    ensures LegalRun(s, es + [e]) ==> Run(s, es + [e]) == Apply(Run(s, es), e)
    decreases |es|
  {
    var all := es + [e];
    if es == [] {
      assert all == [e] && all[1..] == [];
    } else {
      assert all[0] == es[0] && all[1..] == es[1..] + [e];
      if Legal(s, es[0]) { RunSnoc(Apply(s, es[0]), es[1..], e); }
    }
  }

  lemma RunFirst(s: Net, e: Event, es: seq<Event>, all: seq<Event>)
    requires all == [e] + es
    ensures LegalRun(s, all) <==> Legal(s, e) && LegalRun(Apply(s, e), es)
    ensures LegalRun(s, all) ==> Run(s, all) == Run(Apply(s, e), es)
  {
    assert all[0] == e && all[1..] == es;
  }

  // ---- presence ----

  /** Handlers at these points may be the connection bound to a device. */
  predicate MayOwn(pc: Pc, d: string) {
    || pc.Serving? || IsRouting(pc) || pc.Sent? || pc.Closing?
    || pc == Pc.Registered(d) || pc == Found(d) || pc == Unbound(d)
  }

  ghost predicate Owns(s: Net, c: ConnId, d: string) {
    d in s.registry.devices && s.registry.devices[d].connectionId == Some(c)
  }

  /** An online device is bound to a live session authenticated as it. */
  ghost predicate OwnersLive(s: Net) {
    forall d | d in s.registry.devices ::
      var r := s.registry.devices[d];
      && (r.online <==> r.connectionId.Some?)
      && (r.connectionId.Some? ==>
            && r.connectionId.value in s.handlers
            && s.handlers[r.connectionId.value].identity == Some(d)
            && MayOwn(s.handlers[r.connectionId.value].pc, d))
  }

  /** A bound socket belongs to the connection the registry has online for that device. */
  ghost predicate SocketsOwned(s: Net) {
    forall d | d in s.sockets :: Owns(s, s.sockets[d], d) && s.sockets[d] in s.handlers &&
      !s.handlers[s.sockets[d]].pc.Registered? && !s.handlers[s.sockets[d]].pc.Unbound?
  }

  /** Mid-registration and mid-teardown, the handler's own device is still bound to it. */
  ghost predicate StagesOwned(s: Net) {
    forall c | c in s.handlers ::
      var h := s.handlers[c];
      && (h.pc.Greeting? ==> h.identity == None)
      && (h.pc.Registered? || h.pc.Found? || h.pc.Unbound? ==> Owns(s, c, h.pc.device))
      && (c in s.live <==> h.pc != Gone)
  }

  ghost predicate Inv(s: Net) {
    && (forall d :: d in s.registry.devices <==> d in s.registry.ids)
    && s.live <= s.handlers.Keys
    && OwnersLive(s) && SocketsOwned(s) && StagesOwned(s)
  }

  lemma RegisterPresence(r: Registry, p: Payload, identity: Option<string>, c: ConnId, now: int)
    requires Register(r, p, identity, Some(c), now).1.None?
    ensures var r', d := Register(r, p, identity, Some(c), now).0, p.deviceId.value;
      && !IsOnline(r, d) && r'.versions == r.versions
      && r'.devices == r.devices[d := r'.devices[d]] && d in r'.devices
      && r'.devices[d].online && r'.devices[d].connectionId == Some(c)
      && r'.ids == if d in r.devices then r.ids else r.ids + [d]
  {}

  lemma MarkOfflinePresence(r: Registry, d: string, c: ConnId, now: int)
    requires d in r.devices && r.devices[d].connectionId == Some(c)
    ensures var r' := MarkOffline(r, d, Some(c), now);
      && r'.devices == r.devices[d := r'.devices[d]] && d in r'.devices && r'.ids == r.ids && r'.versions == r.versions
      && !r'.devices[d].online && r'.devices[d].connectionId == None
  {}

  /** Inside the invariant, looking up a connection gives the device it owns. */
  lemma FindsOwned(s: Net, c: ConnId)
    requires Inv(s)
    ensures var d := FindByConnection(s.registry, c);
      && (d.Some? ==> Owns(s, c, d.value))
      && (forall x | Owns(s, c, x) :: d == Some(x))
  {
    FindFromFinds(s.registry.devices, s.registry.ids, c);
  }

  /** Points between which a handler moves without touching its binding. */
  predicate Calm(pc: Pc) { pc.Serving? || IsRouting(pc) || pc.Sent? || pc.Closing? }

  lemma CalmMoveKeeps(s: Net, c: ConnId, pc: Pc)
    requires Inv(s) && c in s.handlers && Calm(pc)
    requires Calm(s.handlers[c].pc) || s.handlers[c].pc.Greeting?
    ensures Inv(Go(s, c, pc))
  {}

  lemma ConnectKeeps(s: Net, c: ConnId)
    requires Inv(s) && c !in s.handlers
    ensures Inv(s.(handlers := s.handlers[c := Handler(Greeting, None, None)], live := s.live + {c}))
  {}

  lemma AuthenticateKeeps(s: Net, c: ConnId, h: Handler)
    requires Inv(s) && c in s.handlers && s.handlers[c].pc.Greeting? && h.pc.Serving?
    ensures Inv(s.(handlers := s.handlers[c := h]))
  {}

  lemma RegisteredKeeps(s: Net, c: ConnId, d: string, r: Registry)
    requires Inv(s) && c in s.handlers && s.handlers[c].pc.Serving? && s.handlers[c].identity == Some(d)
    requires d in s.registry.devices ==> !s.registry.devices[d].online
    requires d in r.devices && r.devices == s.registry.devices[d := r.devices[d]]
    requires r.devices[d].online && r.devices[d].connectionId == Some(c)
    requires r.ids == if d in s.registry.devices then s.registry.ids else s.registry.ids + [d]
    ensures Inv(Go(s.(registry := r), c, Pc.Registered(d)))
  {
    hide OwnersLive, SocketsOwned, StagesOwned;
    NotBoundYet(s, c, d);
    RegisteredOwners(s, c, d, r);
    RegisteredRest(s, c, d, r);
  }

  lemma NotBoundYet(s: Net, c: ConnId, d: string)
    requires OwnersLive(s) && c in s.handlers && s.handlers[c].identity == Some(d)
    requires d in s.registry.devices ==> !s.registry.devices[d].online
    ensures forall k :: !Owns(s, k, d)
    ensures forall x :: !Owns(s, c, x)
  {}

  lemma RegisteredRest(s: Net, c: ConnId, d: string, r: Registry)
    requires SocketsOwned(s) && StagesOwned(s) && c in s.handlers && s.handlers[c].pc.Serving?
    requires (forall k :: !Owns(s, k, d)) && (forall x :: !Owns(s, c, x))
    requires d in r.devices && r.devices == s.registry.devices[d := r.devices[d]]
    requires r.devices[d].connectionId == Some(c)
    ensures SocketsOwned(Go(s.(registry := r), c, Pc.Registered(d)))
    ensures StagesOwned(Go(s.(registry := r), c, Pc.Registered(d)))
  {}

  lemma RegisteredOwners(s: Net, c: ConnId, d: string, r: Registry)
    requires OwnersLive(s) && c in s.handlers && s.handlers[c].pc.Serving? && s.handlers[c].identity == Some(d)
    requires d in r.devices && r.devices == s.registry.devices[d := r.devices[d]]
    requires r.devices[d].online && r.devices[d].connectionId == Some(c)
    ensures OwnersLive(Go(s.(registry := r), c, Pc.Registered(d)))
  {}

  lemma BindKeeps(s: Net, c: ConnId)
    requires Inv(s) && c in s.handlers && s.handlers[c].pc.Registered?
    ensures Inv(Go(s.(sockets := s.sockets[s.handlers[c].pc.device := c]), c, Serving))
  {}

  lemma FindKeeps(s: Net, c: ConnId)
    requires Inv(s) && c in s.handlers && s.handlers[c].pc.Closing?
    ensures var d := FindByConnection(s.registry, c);
      Inv(Go(s, c, if d.Some? then Found(d.value) else Detached))
  {
    FindsOwned(s, c);
  }

  /** At the point where teardown looks at the socket map, a bound socket of the device is its own:
      no newer connection can have replaced it. */
  lemma NeverReplaced(s: Net, c: ConnId)
    requires Inv(s) && c in s.handlers && s.handlers[c].pc.Found?
    ensures var d := s.handlers[c].pc.device; d in s.sockets ==> s.sockets[d] == c
  {}

  lemma UnbindKeeps(s: Net, c: ConnId)
    requires Inv(s) && c in s.handlers && s.handlers[c].pc.Found?
    ensures var d := s.handlers[c].pc.device; Inv(Go(s.(sockets := s.sockets - {d}), c, Unbound(d)))
  {
    NeverReplaced(s, c);
  }

  lemma OfflineKeeps(s: Net, c: ConnId, r: Registry)
    requires Inv(s) && c in s.handlers && s.handlers[c].pc.Unbound?
    requires var d := s.handlers[c].pc.device;
      && d in r.devices && r.devices == s.registry.devices[d := r.devices[d]] && r.ids == s.registry.ids
      && !r.devices[d].online && r.devices[d].connectionId == None
    ensures Inv(Go(s.(registry := r), c, Detached))
  {
    hide OwnersLive, SocketsOwned;
    OfflineOwners(s, c, s.handlers[c].pc.device, r);
    OfflineRest(s, c, s.handlers[c].pc.device, r);
  }

  lemma OfflineRest(s: Net, c: ConnId, d: string, r: Registry)
    requires SocketsOwned(s) && StagesOwned(s) && c in s.handlers && s.handlers[c].pc == Unbound(d)
    requires d in r.devices && r.devices == s.registry.devices[d := r.devices[d]]
    ensures SocketsOwned(Go(s.(registry := r), c, Detached)) && StagesOwned(Go(s.(registry := r), c, Detached))
  {}

  lemma OfflineOwners(s: Net, c: ConnId, d: string, r: Registry)
    requires OwnersLive(s) && c in s.handlers && Owns(s, c, d)
    requires d in r.devices && r.devices == s.registry.devices[d := r.devices[d]]
    requires !r.devices[d].online && r.devices[d].connectionId == None
    ensures OwnersLive(Go(s.(registry := r), c, Detached))
  {
    hide MayOwn;
  }

  lemma RemoveKeeps(s: Net, c: ConnId)
    requires Inv(s) && c in s.handlers && s.handlers[c].pc.Detached?
    ensures Inv(s.(live := s.live - {c}, handlers := s.handlers[c := s.handlers[c].(pc := Gone, token := None)]))
  {}

  /** Two registries that agree on who is online where. */
  ghost predicate SamePresence(r: Registry, r': Registry) {
    && r'.ids == r.ids && r'.devices.Keys == r.devices.Keys
    && forall d | d in r.devices ::
         r'.devices[d].online == r.devices[d].online && r'.devices[d].connectionId == r.devices[d].connectionId
  }

  lemma PresenceKeeps(s: Net, r: Registry)
    requires Inv(s) && SamePresence(s.registry, r)
    ensures Inv(s.(registry := r))
  {}

  lemma InvIgnoresTraffic(s: Net, routed: nat, forwards: seq<Forward>)
    requires Inv(s)
    ensures Inv(s.(routed := routed, forwards := forwards))
  {}

  lemma RegisterStepKeeps(s: Net, e: Event)
    requires Inv(s) && Legal(s, e) && e.RegisterDevice?
    ensures Inv(Apply(s, e))
  {
    CalmMoveKeeps(s, e.c, Closing);
    var h := s.handlers[e.c];
    if ValidPayload(e.p, s.registry.versions) && h.identity == e.p.deviceId {
      var (registry, raised) := Register(s.registry, e.p, h.identity, Some(e.c), e.now);
      if raised.None? {
        RegisterPresence(s.registry, e.p, h.identity, e.c, e.now);
        RegisteredKeeps(s, e.c, e.p.deviceId.value, registry);
      }
    }
  }

  lemma TeardownStepKeeps(s: Net, e: Event)
    requires Inv(s) && Legal(s, e) && (e.FindBinding? || e.Unbind? || e.GoOffline? || e.RemoveSession?)
    ensures Inv(Apply(s, e))
  {
    match e {
      case FindBinding(c) => FindKeeps(s, c);
      case Unbind(c) => NeverReplaced(s, c); UnbindKeeps(s, c);
      case GoOffline(c, now) =>
        MarkOfflinePresence(s.registry, s.handlers[c].pc.device, c, now);
        OfflineKeeps(s, c, MarkOffline(s.registry, s.handlers[c].pc.device, Some(c), now));
      case RemoveSession(c) => RemoveKeeps(s, c);
    }
  }

  /** Steps that only move a calm handler on, and leave registry, sockets and session table alone. */
  predicate CalmStep(e: Event) {
    e.Hangup? || e.Receive? || e.CheckSender? || e.Resolve? || e.ReadBinding? || e.ReadStatus? ||
    e.ReadConnection? || e.Send? || e.CountRouted?
  }

  lemma CalmStepMoves(s: Net, e: Event)
    requires Inv(s) && Legal(s, e) && CalmStep(e)
    ensures var w := Apply(s, e);
      && e.c in w.handlers && Calm(w.handlers[e.c].pc)
      && w == Go(s, e.c, w.handlers[e.c].pc).(routed := w.routed, forwards := w.forwards)
  {
    assert s.handlers[e.c := s.handlers[e.c].(pc := s.handlers[e.c].pc)] == s.handlers;
  }

  lemma ApplyKeeps(s: Net, e: Event)
    requires Inv(s) && Legal(s, e)
    ensures Inv(Apply(s, e))
  {
    if CalmStep(e) {
      CalmStepMoves(s, e);
      var w := Apply(s, e);
      CalmMoveKeeps(s, e.c, w.handlers[e.c].pc);
      InvIgnoresTraffic(Go(s, e.c, w.handlers[e.c].pc), w.routed, w.forwards);
    } else {
      match e {
        case Connect(c) => ConnectKeeps(s, c);
        case Authenticate(c, identity, session) => AuthenticateKeeps(s, c, Handler(Serving, Some(identity), Some(session)));
        case RegisterDevice(_, _, _) => RegisterStepKeeps(s, e);
        case BindSocket(c) => BindKeeps(s, c);
        case Touch(_, d, now) => PresenceKeeps(s, UpdateLastSeen(s.registry, d, now));
        case Persist(_, d, token, permissions) => PresenceKeeps(s, PersistIdentity(s.registry, d, token, permissions));
        case _ => TeardownStepKeeps(s, e);
      }
    }
  }
}
