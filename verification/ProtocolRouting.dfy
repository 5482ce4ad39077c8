/** What every interleaving of the device protocol guarantees about device-to-device messages. */
module ProtocolRouting {
  import opened Names
  import opened JoinNames
  import DeviceSpec
  import opened ProtocolSpec
  import opened ProtocolSafety

  function Target(pc: Pc): Option<ConnId> {
    match pc
    case ReadTo(_, to) => to
    case SawOnline(_, to) => to
    case Cleared(_, receiver) => Some(receiver)
    case _ => None
  }

  predicate Carries(pc: Pc) { IsRouting(pc) || pc.Sent? }

  function Carried(pc: Pc): Message
    requires Carries(pc)
  {
    pc.m
  }

  /** A handler on its way to forward: the message speaks for its session, the sender is registered, and
      the connection it looked up was authenticated as the destination. */
  ghost predicate RouteOk(s: Net, c: ConnId)
    requires c in s.handlers
  {
    RouteOkAt(s, c, s.handlers[c].pc)
  }

  ghost predicate RouteOkAt(s: Net, c: ConnId, pc: Pc)
    requires c in s.handlers
  {
    Carries(pc) ==>
      var m := Carried(pc);
      && Enforced(s.handlers[c], m) && (!pc.Routing? ==> Owns(s, c, m.source))
      && (Target(pc).Some? ==> IsPeer(s, Target(pc).value, m.destination))
  }

  ghost predicate IsPeer(s: Net, c: ConnId, d: string) {
    c in s.handlers && s.handlers[c].identity == Some(d)
  }

  /** The frame written: the received message without its session token, between the authenticated ends. */
  ghost predicate ForwardOk(s: Net, f: Forward) {
    && IsPeer(s, f.sender, f.raw.source) && IsPeer(s, f.receiver, f.raw.destination)
    && f.raw.identityId == Some(f.raw.source)
    && TOKEN_KEY in f.raw.payload && TOKEN_KEY !in f.out.payload
    && f.out == f.raw.(payload := f.out.payload)
    && (forall k :: k in f.out.payload <==> k in f.raw.payload && k != TOKEN_KEY)
    && (forall k | k in f.out.payload :: f.out.payload[k] == f.raw.payload[k])
  }

  ghost predicate Routes(s: Net) {
    && (forall c | c in s.handlers :: RouteOk(s, c))
    && (forall f | f in s.forwards :: ForwardOk(s, f))
  }

  /** Forwards written but not yet counted. */
  function InFlight(s: Net): set<ConnId> {
    set c | c in s.handlers && s.handlers[c].pc.Sent?
  }

  // ---- single steps ----

  /** Where a step leaves the handler that takes it. */
  function PcAfter(s: Net, e: Event): Pc
    requires Legal(s, e)
  {
    Apply(s, e).handlers[e.c].pc
  }

  /** The check that clears a delivery sees the destination online with that very, live connection. */
  lemma DeliveryCheck(s: Net, e: Event)
    requires Inv(s) && Legal(s, e) && e.ReadConnection? && PcAfter(s, e).Cleared?
    ensures var pc := PcAfter(s, e);
      && pc.m == s.handlers[e.c].pc.m && DeviceSpec.IsOnline(s.registry, pc.m.destination)
      && Owns(s, pc.receiver, pc.m.destination) && IsPeer(s, pc.receiver, pc.m.destination)
  {}

  lemma SenderOwns(s: Net, c: ConnId)
    requires Inv(s) && c in s.handlers && SenderRegistered(s, c)
    ensures s.handlers[c].identity.Some? && Owns(s, c, s.handlers[c].identity.value)
  {
    FindsOwned(s, c);
  }

  lemma GoRoute(s: Net, c: ConnId, pc: Pc, routed: nat, forwards: seq<Forward>)
    requires c in s.handlers && RouteOkAt(s, c, pc)
    ensures RouteOk(Go(s, c, pc).(routed := routed, forwards := forwards), c)
  {}

  /** The point a calm step moves its handler to is justified by what the step read. */
  lemma CalmRoute(s: Net, e: Event)
    requires Inv(s) && Legal(s, e) && CalmStep(e) && RouteOk(s, e.c)
    ensures RouteOkAt(s, e.c, PcAfter(s, e))
  {
    if e.CheckSender? {
      hide Inv, DeviceSpec.FindByConnection;
      if SenderRegistered(s, e.c) { SenderOwns(s, e.c); }
    } else if e.ReadBinding? {
      hide Inv;
      var d := s.handlers[e.c].pc.m.destination;
      if d in s.sockets { BoundPeer(s, d); }
    } else {
      OtherCalmRoute(s, e);
    }
  }

  lemma OtherCalmRoute(s: Net, e: Event)
    requires Legal(s, e) && CalmStep(e) && !e.CheckSender? && !e.ReadBinding? && RouteOk(s, e.c)
    ensures RouteOkAt(s, e.c, PcAfter(s, e))
  {
    hide Enforced, SenderRegistered, DeviceSpec.IsOnline, DeviceSpec.Register, DeviceSpec.ValidPayload;
  }

  lemma BoundPeer(s: Net, d: string)
    requires Inv(s) && d in s.sockets
    ensures IsPeer(s, s.sockets[d], d)
  {}

  lemma OwnCalmStep(s: Net, e: Event)
    requires Inv(s) && Legal(s, e) && CalmStep(e) && RouteOk(s, e.c)
    ensures RouteOk(Apply(s, e), e.c)
  {
    CalmStepMoves(s, e);
    CalmRoute(s, e);
    var w := Apply(s, e);
    GoRoute(s, e.c, w.handlers[e.c].pc, w.routed, w.forwards);
  }

  /** Registration and teardown steps leave the handler carrying nothing. */
  lemma NothingCarried(s: Net, e: Event)
    requires Legal(s, e) && !CalmStep(e) && !e.Touch? && !e.Persist?
    ensures !Carries(PcAfter(s, e))
  {}

  lemma PresenceRoute(s: Net, r: DeviceSpec.Registry, c: ConnId)
    requires c in s.handlers && RouteOk(s, c) && SamePresence(s.registry, r)
    ensures RouteOk(s.(registry := r), c)
  {}

  lemma OwnRouteStep(s: Net, e: Event)
    requires Inv(s) && Legal(s, e) && e.c in s.handlers && RouteOk(s, e.c)
    ensures RouteOk(Apply(s, e), e.c)
  {
    if CalmStep(e) {
      OwnCalmStep(s, e);
    } else if e.Touch? {
      PresenceRoute(s, DeviceSpec.UpdateLastSeen(s.registry, e.device, e.now), e.c);
    } else if e.Persist? {
      PresenceRoute(s, DeviceSpec.PersistIdentity(s.registry, e.device, e.token, e.permissions), e.c);
    } else {
      NothingCarried(s, e);
    }
  }

  lemma OtherRouteStep(s: Net, e: Event, c: ConnId)
    requires Inv(s) && Legal(s, e) && c in s.handlers && c != e.c && RouteOk(s, c)
    ensures c in Apply(s, e).handlers && RouteOk(Apply(s, e), c)
  {
    StepEffects(s, e);
  }

  lemma ForwardStays(s: Net, e: Event, f: Forward)
    requires Inv(s) && Legal(s, e) && ForwardOk(s, f)
    ensures ForwardOk(Apply(s, e), f)
  {
    StepEffects(s, e);
  }

  /** A step adds at most the one frame its own handler was cleared to send. */
  lemma ForwardsGrow(s: Net, e: Event)
    requires Legal(s, e)
    ensures Apply(s, e).forwards == s.forwards + if e.Send? && e.ok then
        [Forward(e.c, s.handlers[e.c].pc.receiver, s.handlers[e.c].pc.m, Stripped(s.handlers[e.c].pc.m))] else []
  {}

  lemma SentForwardOk(s: Net, e: Event)
    requires Inv(s) && Legal(s, e) && e.Send? && RouteOk(s, e.c)
    ensures var pc := s.handlers[e.c].pc;
      ForwardOk(Apply(s, e), Forward(e.c, pc.receiver, pc.m, Stripped(pc.m))) && Owns(s, e.c, pc.m.source)
  {
    StepEffects(s, e);
  }

  lemma RoutesKept(s: Net, e: Event)
    requires Inv(s) && Legal(s, e) && Routes(s)
    ensures Routes(Apply(s, e))
  {
    var w := Apply(s, e);
    StepEffects(s, e);
    forall c | c in w.handlers ensures RouteOk(w, c) {
      if c != e.c { OtherRouteStep(s, e, c); } else if c in s.handlers { OwnRouteStep(s, e); }
    }
    ForwardsGrow(s, e);
    forall f | f in w.forwards ensures ForwardOk(w, f) {
      if f in s.forwards { ForwardStays(s, e, f); } else { SentForwardOk(s, e); }
    }
  }

  lemma OthersStay(s: Net, e: Event)
    requires Legal(s, e)
    ensures var w := Apply(s, e);
      && w.handlers.Keys == s.handlers.Keys + {e.c} && e.c in w.handlers
      && w.handlers == s.handlers[e.c := w.handlers[e.c]]
      && (e.Touch? || e.Persist? ==> w.handlers == s.handlers)
  {
    hide Enforced, SenderRegistered, DeviceSpec.IsOnline, DeviceSpec.Register, DeviceSpec.ValidPayload;
    if e.Connect? {
    } else if e.Touch? || e.Persist? {
      assert s.handlers[e.c := s.handlers[e.c]] == s.handlers;
    } else {
      MovesItself(s, e);
    }
  }

  lemma MovesItself(s: Net, e: Event)
    requires Legal(s, e) && !e.Connect? && !e.Touch? && !e.Persist?
    ensures var w := Apply(s, e); e.c in w.handlers && w.handlers == s.handlers[e.c := w.handlers[e.c]]
  {
    hide Enforced, SenderRegistered, DeviceSpec.IsOnline, DeviceSpec.Register, DeviceSpec.ValidPayload;
    if e.Receive? { assert s.handlers[e.c := s.handlers[e.c]] == s.handlers; }
  }

  lemma SentMoves(s: Net, e: Event)
    requires Legal(s, e)
    ensures var w := Apply(s, e);
      && w.routed == s.routed + (if e.CountRouted? then 1 else 0)
      && ((e.c in s.handlers && s.handlers[e.c].pc.Sent?) ==> e.CountRouted? || e.Touch? || e.Persist?)
      && (e.CountRouted? ==> e.c in s.handlers && s.handlers[e.c].pc.Sent?)
      && (w.handlers[e.c].pc.Sent? <==>
            (e.Send? && e.ok) || ((e.Touch? || e.Persist?) && s.handlers[e.c].pc.Sent?))
  {}

  /** A frame goes in flight as it is written and leaves as it is counted. */
  lemma CountStep(s: Net, e: Event)
    requires Legal(s, e) && s.routed + |InFlight(s)| == |s.forwards|
    ensures var w := Apply(s, e); w.routed + |InFlight(w)| == |w.forwards|
  {
    var w := Apply(s, e);
    OthersStay(s, e);
    ForwardsGrow(s, e);
    SentMoves(s, e);
    var before, after := InFlight(s), InFlight(w);
    if e.Send? && e.ok {
      assert after == before + {e.c} && e.c !in before;
    } else if e.CountRouted? {
      assert after == before - {e.c} && e.c in before;
    } else {
      assert after == before;
    }
  }

  // ---- whole runs ----

  /** The steps of c's own passage through the protocol; bookkeeping on the registry aside. */
  predicate Mine(e: Event, c: ConnId) { e.c == c && !e.Touch? && !e.Persist? }

  function Own(es: seq<Event>, c: ConnId): seq<Event> {
    if es == [] then []
    else Own(es[..|es| - 1], c) + if Mine(es[|es| - 1], c) then [es[|es| - 1]] else []
  }

  lemma OwnSnoc(es: seq<Event>, e: Event, c: ConnId)
    ensures Own(es + [e], c) == Own(es, c) + if Mine(e, c) then [e] else []
  {
    assert (es + [e])[..|es|] == es && (es + [e])[|es|] == e;
  }

  lemma {:induction false} OwnSplit(a: seq<Event>, b: seq<Event>, c: ConnId)
    ensures Own(a + b, c) == Own(a, c) + Own(b, c)
    decreases |b|
  {
    if b == [] {
      assert a + b == a;
    } else {
      var most, e := b[..|b| - 1], b[|b| - 1];
      assert b == most + [e] && a + b == (a + most) + [e];
      OwnSplit(a, most, c);
      OwnSnoc(most, e, c);
      OwnSnoc(a + most, e, c);
    }
  }

  /** What a handler has done since it received the message it is forwarding: every check, once, in order. */
  function Trail(c: ConnId, pc: Pc): seq<Event>
    requires IsRouting(pc)
  {
    var all := [Event.Receive(c, pc.m), Event.CheckSender(c), Event.Resolve(c), Event.ReadBinding(c), Event.ReadStatus(c),
                Event.ReadConnection(c)];
    match pc
    case Routing(_) => all[..1]
    case SenderOk(_) => all[..2]
    case Resolved(_) => all[..3]
    case ReadTo(_, _) => all[..4]
    case SawOnline(_, _) => all[..5]
    case Cleared(_, _) => all
  }

  ghost predicate BoundAt(s: Net, es: seq<Event>, c: ConnId, d: string) {
    LegalRun(s, es) && Owns(Run(s, es), c, d) && DeviceSpec.IsOnline(Run(s, es).registry, d)
  }

  ghost predicate SocketAt(s: Net, es: seq<Event>, c: ConnId, d: string) {
    LegalRun(s, es) && d in Run(s, es).sockets && Run(s, es).sockets[d] == c
  }

  /** The message speaks for the session's identity and presents the session's own token. */
  predicate Presents(h: Handler, m: Message) {
    && h.identity == Some(m.source) && m.identityId == Some(m.source)
    && TOKEN_KEY in m.payload && m.payload[TOKEN_KEY] != "" && h.token == Some(m.payload[TOKEN_KEY])
  }

  ghost predicate SessionAt(s: Net, es: seq<Event>, c: ConnId, m: Message) {
    LegalRun(s, es) && c in Run(s, es).handlers && Presents(Run(s, es).handlers[c], m)
  }

  /** c is under way with the message received at q, which its session accepted; since then it has looked its target up at b, and found
      it to be the connection the destination is online with at k. */
  ghost predicate UnderWayAt(s: Net, es: seq<Event>, c: ConnId, pc: Pc, q: nat, b: nat, k: nat) {
    && IsRouting(pc) && q < |es| && Own(es[q..], c) == Trail(c, pc) && es[q] == Event.Receive(c, pc.m)
    && SessionAt(s, es[..q], c, pc.m)
    && (Target(pc).Some? ==>
          q < b < |es| && es[b] == Event.ReadBinding(c) && SocketAt(s, es[..b], Target(pc).value, pc.m.destination))
    && (pc.Cleared? ==>
          b < k < |es| && es[k] == Event.ReadConnection(c) && BoundAt(s, es[..k], pc.receiver, pc.m.destination))
  }

  ghost predicate UnderWay(s: Net, es: seq<Event>, c: ConnId, pc: Pc) {
    exists q: nat, b: nat, k: nat :: UnderWayAt(s, es, c, pc, q, b, k)
  }

  /** The i-th frame written, f, is the outcome of one passage: received at q from the session it speaks for, its target looked up in the socket
      map at b and confirmed at k as the connection the destination was online with, written at w by the sender it
      names; between q and w its handler did nothing else. */
  ghost predicate PassageAt(s: Net, es: seq<Event>, f: Forward, i: nat, q: nat, b: nat, k: nat, w: nat) {
    && q < b < k < w < |es|
    && es[q] == Event.Receive(f.sender, f.raw) && es[b] == Event.ReadBinding(f.sender)
    && es[k] == Event.ReadConnection(f.sender) && es[w] == Event.Send(f.sender, true)
    && Own(es[q..w + 1], f.sender) == Trail(f.sender, Cleared(f.raw, f.receiver)) + [Event.Send(f.sender, true)]
    && LegalRun(s, es[..w]) && |Run(s, es[..w]).forwards| == i
    && SessionAt(s, es[..q], f.sender, f.raw)
    && SocketAt(s, es[..b], f.receiver, f.raw.destination)
    && BoundAt(s, es[..k], f.receiver, f.raw.destination)
    && BoundAt(s, es[..w], f.sender, f.raw.source)
  }

  ghost predicate Passage(s: Net, es: seq<Event>, f: Forward, i: nat) {
    exists q: nat, b: nat, k: nat, w: nat :: PassageAt(s, es, f, i, q, b, k, w)
  }

  /** Every frame written and every message on its way has its own passage. */
  ghost predicate Aimed(s: Net, es: seq<Event>)
    requires LegalRun(s, es)
  {
    var v := Run(s, es);
    && (forall c | c in v.handlers && IsRouting(v.handlers[c].pc) :: UnderWay(s, es, c, v.handlers[c].pc))
    && (forall i: nat | i < |v.forwards| :: Passage(s, es, v.forwards[i], i))
  }

  /** One reception justifies one frame. */
  lemma OneFramePerReception(s: Net, es: seq<Event>, f: Forward, i: nat, b: nat, k: nat, w: nat,
                             f': Forward, i': nat, b': nat, k': nat, w': nat, q: nat)
    requires PassageAt(s, es, f, i, q, b, k, w) && PassageAt(s, es, f', i', q, b', k', w')
    ensures i == i'
  {
    if w < w' {
      LongerPassage(es, f.sender, q, w, w');
    } else if w' < w {
      LongerPassage(es, f.sender, q, w', w);
    }
  }

  lemma LongerPassage(es: seq<Event>, c: ConnId, q: nat, w: nat, w': nat)
    requires q <= w < w' < |es| && Mine(es[w'], c)
    ensures |Own(es[q..w + 1], c)| < |Own(es[q..w' + 1], c)|
  {
    var a, m := es[q..w + 1], es[w + 1..w'];
    assert es[q..w' + 1] == a + (m + [es[w']]);
    OwnSplit(a, m + [es[w']], c);
    OwnSnoc(m, es[w'], c);
  }

  // ---- a step more ----

  /** A handler comes to a routing point by receiving the message or by the next of its checks. */
  lemma TrailGrows(s: Net, e: Event)
    requires Legal(s, e) && Mine(e, e.c) && IsRouting(PcAfter(s, e))
    ensures var pc := PcAfter(s, e);
      || (e == Event.Receive(e.c, pc.m) && pc.Routing?)
      || (e.c in s.handlers && IsRouting(s.handlers[e.c].pc) && s.handlers[e.c].pc.m == pc.m
          && Trail(e.c, pc) == Trail(e.c, s.handlers[e.c].pc) + [e])
  {
    hide Enforced, DeviceSpec.FindByConnection, DeviceSpec.ValidPayload, DeviceSpec.Register;
  }

  /** Its target is what the socket map held when it looked, and stays that. */
  lemma TargetFrom(s: Net, e: Event)
    requires Legal(s, e) && Mine(e, e.c) && IsRouting(PcAfter(s, e))
    requires Target(PcAfter(s, e)).Some?
    ensures var pc := PcAfter(s, e);
      if e.ReadBinding? then pc.m.destination in s.sockets && s.sockets[pc.m.destination] == Target(pc).value && !pc.Cleared?
      else e.c in s.handlers && Target(s.handlers[e.c].pc) == Target(pc) && (pc.Cleared? ==> e.ReadConnection?)
  {
    hide Enforced, DeviceSpec.FindByConnection, DeviceSpec.ValidPayload, DeviceSpec.Register;
  }

  /** Steps of others, and bookkeeping, leave a passage as it is. */
  lemma UnderWayStays(s: Net, es: seq<Event>, e: Event, c: ConnId, pc: Pc)
    requires UnderWay(s, es, c, pc) && !Mine(e, c)
    ensures UnderWay(s, es + [e], c, pc)
  {
    hide SocketAt, BoundAt, SessionAt, Trail;
    var q: nat, b: nat, k: nat :| UnderWayAt(s, es, c, pc, q, b, k);
    var more := es + [e];
    assert more[q..] == es[q..] + [e];
    OwnSnoc(es[q..], e, c);
    PrefixesStay(es, e);
    assert UnderWayAt(s, more, c, pc, q, b, k);
  }

  lemma PrefixesStay(es: seq<Event>, e: Event)
    ensures forall n | 0 <= n <= |es| :: (es + [e])[..n] == es[..n]
    ensures forall n | 0 <= n < |es| :: (es + [e])[n] == es[n]
  {}

  /** A message is taken up exactly when it presents the session's identity and token; one for a known device is
      forwarded, one that does not speak for the session ends it. */
  lemma ReceiveDecides(s: Net, c: ConnId, m: Message)
    requires Legal(s, Event.Receive(c, m))
    ensures Apply(s, Event.Receive(c, m)) ==
      if !Presents(s.handlers[c], m) then Go(s, c, Closing)
      else if m.destination in s.registry.devices then Go(s, c, Routing(m))
      else s
  {}

  lemma UnderWayBegins(s: Net, es: seq<Event>, c: ConnId, m: Message)
    requires SessionAt(s, es, c, m)
    ensures UnderWay(s, es + [Event.Receive(c, m)], c, Routing(m))
  {
    hide SessionAt, SocketAt, BoundAt, Own, Trail;
    var e := Event.Receive(c, m);
    var more := es + [e];
    assert more[|es|..] == [e] && more[..|es|] == es && more[|es|] == e;
    OwnFirst(e, c, m);
    assert UnderWayAt(s, more, c, Routing(m), |es|, 0, 0);
  }

  lemma OwnFirst(e: Event, c: ConnId, m: Message)
    requires e == Event.Receive(c, m)
    ensures Own([e], c) == [e] && Trail(c, Routing(m)) == [e]
  {
    OwnSnoc([], e, c);
    assert [] + [e] == [e];
  }

  /** The next check takes the passage on; looking the target up and confirming it are on record. */
  lemma UnderWayGrows(s: Net, es: seq<Event>, e: Event, pc: Pc, pc': Pc)
    requires LegalRun(s, es) && UnderWay(s, es, e.c, pc) && Mine(e, e.c) && IsRouting(pc')
    requires pc'.m == pc.m && Trail(e.c, pc') == Trail(e.c, pc) + [e]
    requires Target(pc').Some? && e.ReadBinding? ==>
      SocketAt(s, es, Target(pc').value, pc.m.destination) && !pc'.Cleared?
    requires Target(pc').Some? && !e.ReadBinding? ==> Target(pc') == Target(pc) && (pc'.Cleared? ==> e.ReadConnection?)
    requires pc'.Cleared? ==> BoundAt(s, es, pc'.receiver, pc.m.destination)
    ensures UnderWay(s, es + [e], e.c, pc')
  {
    hide SocketAt, BoundAt, SessionAt, Trail, Own, LegalRun;
    var q: nat, b: nat, k: nat :| UnderWayAt(s, es, e.c, pc, q, b, k);
    var more := es + [e];
    assert more[q..] == es[q..] + [e];
    OwnSnoc(es[q..], e, e.c);
    PrefixesStay(es, e);
    assert es[..|es|] == es;
    var b' := if e.ReadBinding? then |es| else b;
    var k' := if e.ReadConnection? then |es| else k;
    assert UnderWayAt(s, more, e.c, pc', q, b', k');
  }

  lemma PassageStays(s: Net, es: seq<Event>, e: Event, f: Forward, i: nat)
    requires Passage(s, es, f, i)
    ensures Passage(s, es + [e], f, i)
  {
    hide SocketAt, BoundAt, SessionAt, Trail, Own;
    var q: nat, b: nat, k: nat, w: nat :| PassageAt(s, es, f, i, q, b, k, w);
    var more := es + [e];
    PrefixesStay(es, e);
    assert more[q..w + 1] == es[q..w + 1];
    assert PassageAt(s, more, f, i, q, b, k, w);
  }

  /** Writing completes the passage of a cleared message. */
  lemma PassageEnds(s: Net, es: seq<Event>, c: ConnId, pc: Pc, f: Forward)
    requires LegalRun(s, es) && UnderWay(s, es, c, pc) && pc.Cleared? && BoundAt(s, es, c, pc.m.source)
    requires f.sender == c && f.receiver == pc.receiver && f.raw == pc.m
    ensures Passage(s, es + [Event.Send(c, true)], f, |Run(s, es).forwards|)
  {
    hide SocketAt, BoundAt, SessionAt, Trail, Own, Run, LegalRun;
    var q: nat, b: nat, k: nat :| UnderWayAt(s, es, c, pc, q, b, k);
    var e := Event.Send(c, true);
    var more, n := es + [e], |es|;
    PrefixesStay(es, e);
    assert es[..n] == es && more[n] == e;
    assert more[q..n + 1] == es[q..] + [e];
    OwnSnoc(es[q..], e, c);
    assert pc == Cleared(f.raw, f.receiver);
    assert PassageAt(s, more, f, |Run(s, es).forwards|, q, b, k, n);
  }

  lemma UnderWayStep(s: Net, es: seq<Event>, e: Event, c: ConnId)
    requires LegalRun(s, es) && Inv(Run(s, es)) && Legal(Run(s, es), e) && Aimed(s, es)
    requires c in Apply(Run(s, es), e).handlers && IsRouting(Apply(Run(s, es), e).handlers[c].pc)
    ensures UnderWay(s, es + [e], c, Apply(Run(s, es), e).handlers[c].pc)
  {
    hide UnderWay, Trail, Inv, Passage, Run, Apply;
    var v, w := Run(s, es), Apply(Run(s, es), e);
    var pc := w.handlers[c].pc;
    OthersStay(v, e);
    if c != e.c {
      UnderWayStays(s, es, e, c, pc);
    } else if e.Touch? || e.Persist? {
      UnderWayStays(s, es, e, c, pc);
    } else {
      TrailGrows(v, e);
      if e == Event.Receive(c, pc.m) && pc.Routing? {
        ReceiveDecides(v, c, pc.m);
        UnderWayBegins(s, es, c, pc.m);
      } else {
        if Target(pc).Some? { TargetFrom(v, e); }
        if pc.Cleared? && e.ReadConnection? {
          DeliveryCheck(v, e);
        }
        UnderWayGrows(s, es, e, v.handlers[c].pc, pc);
      }
    }
  }

  lemma AimedStep(s: Net, es: seq<Event>, e: Event)
    requires LegalRun(s, es) && Inv(Run(s, es)) && Legal(Run(s, es), e) && Routes(Run(s, es)) && Aimed(s, es)
    requires LegalRun(s, es + [e]) && Run(s, es + [e]) == Apply(Run(s, es), e)
    ensures Aimed(s, es + [e])
  {
    hide Inv, Passage, UnderWay, Apply, BoundAt;
    var v, w := Run(s, es), Apply(Run(s, es), e);
    forall c | c in w.handlers && IsRouting(w.handlers[c].pc) ensures UnderWay(s, es + [e], c, w.handlers[c].pc) {
      UnderWayStep(s, es, e, c);
    }
    ForwardsGrow(v, e);
    forall i: nat | i < |w.forwards| ensures Passage(s, es + [e], w.forwards[i], i) {
      if i < |v.forwards| {
        PassageStays(s, es, e, v.forwards[i], i);
      } else {
        SentForwardOk(v, e);
        BoundWhileOwned(s, es, e.c, v.handlers[e.c].pc.m.source);
        PassageEnds(s, es, e.c, v.handlers[e.c].pc, w.forwards[i]);
      }
    }
  }

  lemma BoundWhileOwned(s: Net, es: seq<Event>, c: ConnId, d: string)
    requires LegalRun(s, es) && Inv(Run(s, es)) && Owns(Run(s, es), c, d)
    ensures BoundAt(s, es, c, d)
  {
    OwnedIsOnline(Run(s, es), c, d);
  }

  /** In every interleaving, each frame written is the outcome of one passage of its sender's handler: a message
      received from the session whose identity and token it presents, sent on unchanged but for the stripped session token, to the connection found in the socket map
      and then confirmed as the one the destination was online with, by the sender it names, registered and
      authenticated as that when it wrote; and each frame is counted exactly once. */
  lemma {:induction false} RoutingSound(s: Net, es: seq<Event>)
    requires Initial(s) && LegalRun(s, es)
    ensures Aimed(s, es) && Routes(Run(s, es))
    ensures Run(s, es).routed + |InFlight(Run(s, es))| == |Run(s, es).forwards|
    decreases |es|
  {
    InitialInv(s);
    if es != [] {
      var most, e := es[..|es| - 1], es[|es| - 1];
      assert es == most + [e];
      RunSnoc(s, most, e);
      RoutingSound(s, most);
      EveryRunKeeps(s, most);
      RoutesKept(Run(s, most), e);
      CountStep(Run(s, most), e);
      AimedStep(s, most, e);
    }
  }

  // ---- where a session's credentials come from ----

  ghost predicate GivenAt(es: seq<Event>, a: nat, c: ConnId, identity: string, token: Option<string>) {
    a < |es| && es[a].Authenticate? && es[a].c == c && es[a].identity == identity
    && (token.Some? ==> token.value == es[a].session)
  }

  ghost predicate Given(es: seq<Event>, c: ConnId, identity: string, token: Option<string>) {
    exists a: nat :: GivenAt(es, a, c, identity, token)
  }

  ghost predicate CredentialsFrom(es: seq<Event>, c: ConnId, h: Handler) {
    if h.identity == None then h.token == None else Given(es, c, h.identity.value, h.token)
  }

  lemma CredentialsStep(s: Net, e: Event)
    requires Legal(s, e)
    ensures var w := Apply(s, e);
      && e.c in w.handlers
      && match e
         case Connect(_) => w.handlers[e.c].identity == None && w.handlers[e.c].token == None
         case Authenticate(_, identity, session) =>
           w.handlers[e.c].identity == Some(identity) && w.handlers[e.c].token == Some(session)
         case _ =>
           && e.c in s.handlers && w.handlers[e.c].identity == s.handlers[e.c].identity
           && (w.handlers[e.c].token == s.handlers[e.c].token || w.handlers[e.c].token == None)
  {
    hide Enforced, SenderRegistered, DeviceSpec.FindByConnection, DeviceSpec.ValidPayload, DeviceSpec.Register;
  }

  lemma GivenStays(es: seq<Event>, e: Event, c: ConnId, identity: string, token: Option<string>)
    requires Given(es, c, identity, token)
    ensures Given(es + [e], c, identity, token) && Given(es + [e], c, identity, None)
  {
    var a: nat :| GivenAt(es, a, c, identity, token);
    assert (es + [e])[a] == es[a];
    assert GivenAt(es + [e], a, c, identity, token) && GivenAt(es + [e], a, c, identity, None);
  }

  /** In every run, a handler's identity and token are those its session was authenticated with. */
  lemma {:induction false} CredentialsGiven(s: Net, es: seq<Event>)
    requires Initial(s) && LegalRun(s, es)
    ensures forall c | c in Run(s, es).handlers :: CredentialsFrom(es, c, Run(s, es).handlers[c])
    decreases |es|
  {
    hide Given, Legal;
    if es != [] {
      var most, e := es[..|es| - 1], es[|es| - 1];
      assert es == most + [e];
      RunSnoc(s, most, e);
      CredentialsGiven(s, most);
      CredentialsNext(s, most, e);
    }
  }

  lemma CredentialsNext(s: Net, es: seq<Event>, e: Event)
    requires LegalRun(s, es) && Legal(Run(s, es), e)
    requires forall c | c in Run(s, es).handlers :: CredentialsFrom(es, c, Run(s, es).handlers[c])
    ensures var w := Apply(Run(s, es), e); forall c | c in w.handlers :: CredentialsFrom(es + [e], c, w.handlers[c])
  {
    hide Apply, Given, Legal, Run, LegalRun;
    var v, w, more := Run(s, es), Apply(Run(s, es), e), es + [e];
    OthersStay(v, e);
    CredentialsStep(v, e);
    forall c | c in w.handlers ensures CredentialsFrom(more, c, w.handlers[c]) {
      if c == e.c && e.Authenticate? {
        GivenNow(es, e);
      } else if c in v.handlers && v.handlers[c].identity.Some? {
        GivenStays(es, e, c, v.handlers[c].identity.value, v.handlers[c].token);
      }
    }
  }

  lemma GivenNow(es: seq<Event>, e: Event)
    requires e.Authenticate?
    ensures Given(es + [e], e.c, e.identity, Some(e.session))
  {
    assert GivenAt(es + [e], |es|, e.c, e.identity, Some(e.session));
  }

  /** f was received at q from the session that was authenticated at a. */
  ghost predicate LoginAt(es: seq<Event>, f: Forward, a: nat, q: nat) {
    && a < q < |es| && TOKEN_KEY in f.raw.payload && es[q] == Event.Receive(f.sender, f.raw)
    && es[a] == Event.Authenticate(f.sender, f.raw.source, f.raw.payload[TOKEN_KEY])
    && f.raw.identityId == Some(f.raw.source)
  }

  /** Each frame written was received from a session authenticated as its source, and presented the very token
      that authentication gave. */
  lemma FrameAuthenticated(s: Net, es: seq<Event>, f: Forward)
    requires Initial(s) && LegalRun(s, es) && f in Run(s, es).forwards
    ensures exists a, q :: LoginAt(es, f, a, q)
  {
    hide SocketAt, BoundAt, Own, Routes, InFlight, Trail, UnderWay, Initial, LegalRun, Run, GivenAt;
    RoutingSound(s, es);
    var i := Index(Run(s, es).forwards, f);
    assert Passage(s, es, f, i);
    var q: nat, b: nat, k: nat, w: nat :| PassageAt(s, es, f, i, q, b, k, w);
    CredentialsGiven(s, es[..q]);
    var h := Run(s, es[..q]).handlers[f.sender];
    assert CredentialsFrom(es[..q], f.sender, h);
    var a: nat :| GivenAt(es[..q], a, f.sender, f.raw.source, h.token);
    assert LoginAt(es, f, a, q) by { EarlierLogin(es, f, a, q, h); }
  }

  lemma EarlierLogin(es: seq<Event>, f: Forward, a: nat, q: nat, h: Handler)
    requires q < |es| && es[q] == Event.Receive(f.sender, f.raw)
    requires Presents(h, f.raw) && GivenAt(es[..q], a, f.sender, f.raw.source, h.token)
    ensures LoginAt(es, f, a, q)
  {
    assert es[..q][a] == es[a];
  }

  // ---- what a handler left alone achieves ----

  /** The steps that forward a message. */
  function Forwarding(c: ConnId, m: Message): seq<Event> {
    [Event.Receive(c, m), Event.CheckSender(c), Event.Resolve(c), Event.ReadBinding(c), Event.ReadStatus(c),
     Event.ReadConnection(c), Event.Send(c, true), Event.CountRouted(c)]
  }

  ghost predicate OnlineOver(s: Net, d: string, c: ConnId) {
    Owns(s, c, d) && s.registry.devices[d].online
  }

  /** The frame written and counted, the handler back to serving. */
  function Forwarded(s: Net, c: ConnId, m: Message, receiver: ConnId): Net
    requires c in s.handlers
  {
    Go(s, c, Serving).(routed := s.routed + 1, forwards := s.forwards + [Forward(c, receiver, m, Stripped(m))])
  }

  lemma FromCleared(s: Net, c: ConnId, m: Message, receiver: ConnId)
    requires c in s.handlers
    ensures var v, rest := Go(s, c, Cleared(m, receiver)), Forwarding(c, m)[6..];
      LegalRun(v, rest) && Run(v, rest) == Forwarded(s, c, m, receiver)
  {
    var v, e1, e2 := Go(s, c, Cleared(m, receiver)), Event.Send(c, true), Event.CountRouted(c);
    RunFirst(v, e1, [e2], Forwarding(c, m)[6..]);
    RunFirst(Apply(v, e1), e2, [], [e2]);
    Moved(s, c, Cleared(m, receiver), Sent(m));
    Moved(s, c, Sent(m), Serving);
  }

  lemma FromTarget(s: Net, c: ConnId, m: Message, to: Option<ConnId>)
    requires Inv(s) && c in s.handlers
    ensures var v, rest := Go(s, c, ReadTo(m, to)), Forwarding(c, m)[4..];
      && (LegalRun(v, rest) <==> to.Some? && OnlineOver(s, m.destination, to.value))
      && (LegalRun(v, rest) ==> Run(v, rest) == Forwarded(s, c, m, to.value))
  {
    hide Inv, Run, LegalRun, Stripped, Forwarded;
    var v, all := Go(s, c, ReadTo(m, to)), Forwarding(c, m);
    RunFirst(v, all[4], all[5..], all[4..]);
    Moved(s, c, ReadTo(m, to), SawOnline(m, to));
    FromOnline(s, c, m, to);
    ServingStuck(s, c, ReadTo(m, to), all[5], all[5..]);
  }

  lemma FromOnline(s: Net, c: ConnId, m: Message, to: Option<ConnId>)
    requires c in s.handlers
    ensures var v, rest := Go(s, c, SawOnline(m, to)), Forwarding(c, m)[5..];
      && (LegalRun(v, rest) <==> to.Some? && Owns(s, to.value, m.destination))
      && (LegalRun(v, rest) ==> Run(v, rest) == Forwarded(s, c, m, to.value))
  {
    hide Run, LegalRun, Stripped, Forwarded;
    var all := Forwarding(c, m);
    RunFirst(Go(s, c, SawOnline(m, to)), all[5], all[6..], all[5..]);
    if to.Some? {
      Moved(s, c, SawOnline(m, to), Cleared(m, to.value));
      FromCleared(s, c, m, to.value);
    }
    ServingStuck(s, c, SawOnline(m, to), all[6], all[6..]);
  }

  /** A check that fails leaves nothing to go on with. */
  lemma ServingStuck(s: Net, c: ConnId, pc: Pc, e: Event, rest: seq<Event>)
    requires c in s.handlers && rest != [] && rest[0] == e && e.c == c && !e.Receive? && !StepEnabled(Serving, e)
    ensures !LegalRun(Go(Go(s, c, pc), c, Serving), rest)
  {}

  lemma FromReception(s: Net, c: ConnId, m: Message)
    requires Inv(s) && c in s.handlers && s.handlers[c].identity == Some(m.source)
    ensures var v, rest, d := Go(s, c, Routing(m)), Forwarding(c, m)[1..], m.destination;
      && (LegalRun(v, rest) <==> OnlineOver(s, m.source, c) && Strip(d) != "" && d in s.sockets && OnlineOver(s, d, s.sockets[d]))
      && (LegalRun(v, rest) ==> Run(v, rest) == Forwarded(s, c, m, s.sockets[d]))
  {
    hide Inv, Run, LegalRun, Stripped, Forwarded, OnlineOver, DeviceSpec.FindByConnection;
    var all := Forwarding(c, m);
    var v := Go(s, c, Routing(m));
    SenderRegisteredIff(s, c, m.source);
    RunFirst(v, all[1], all[2..], all[1..]);
    Moved(s, c, Routing(m), SenderOk(m));
    FromSender(s, c, m);
    ServingStuck(s, c, Routing(m), all[2], all[2..]);
  }

  lemma FromSender(s: Net, c: ConnId, m: Message)
    requires Inv(s) && c in s.handlers
    ensures var v, rest, d := Go(s, c, SenderOk(m)), Forwarding(c, m)[2..], m.destination;
      && (LegalRun(v, rest) <==> Strip(d) != "" && d in s.sockets && OnlineOver(s, d, s.sockets[d]))
      && (LegalRun(v, rest) ==> Run(v, rest) == Forwarded(s, c, m, s.sockets[d]))
  {
    hide Inv, Run, LegalRun, Stripped, Forwarded;
    var all, d := Forwarding(c, m), m.destination;
    RunFirst(Go(s, c, SenderOk(m)), all[2], all[3..], all[2..]);
    Moved(s, c, SenderOk(m), Resolved(m));
    RunFirst(Go(s, c, Resolved(m)), all[3], all[4..], all[3..]);
    var to := if d in s.sockets then Some(s.sockets[d]) else None;
    Moved(s, c, Resolved(m), ReadTo(m, to));
    FromTarget(s, c, m, to);
    ServingStuck(s, c, SenderOk(m), all[3], all[3..]);
  }

  lemma SenderRegisteredIff(s: Net, c: ConnId, d: string)
    requires Inv(s) && c in s.handlers && s.handlers[c].identity == Some(d)
    ensures SenderRegistered(s, c) <==> OnlineOver(s, d, c)
  {
    FindsOwned(s, c);
    if SenderRegistered(s, c) { SenderOwns(s, c); }
  }

  /** With nothing in between, a message received is written to its destination's socket and counted exactly when it
      presents the session's credentials, its sender is online over this connection, and its destination is online over
      the connection its socket belongs to. */
  lemma Undisturbed(s: Net, c: ConnId, m: Message)
    requires Inv(s) && c in s.handlers && s.handlers[c].pc.Serving?
    ensures var d := m.destination;
      LegalRun(s, Forwarding(c, m)) <==>
        && Presents(s.handlers[c], m) && OnlineOver(s, m.source, c)
        && Strip(d) != "" && d in s.sockets && OnlineOver(s, d, s.sockets[d])
    ensures LegalRun(s, Forwarding(c, m)) ==>
      m.destination in s.sockets && Run(s, Forwarding(c, m)) == Forwarded(s, c, m, s.sockets[m.destination])
  {
    hide Inv, Run, LegalRun, Stripped, Forwarded;
    var all := Forwarding(c, m);
    RunFirst(s, all[0], all[1..], all);
    ReceiveDecides(s, c, m);
    if Presents(s.handlers[c], m) { FromReception(s, c, m); }
    ServingStuck(s, c, Serving, all[1], all[1..]);
    ClosingStuck(s, c, all[1..]);
    assert Go(Go(s, c, Serving), c, Serving) == s by { Unmoved(s, c); }
  }

  lemma Unmoved(s: Net, c: ConnId)
    requires c in s.handlers
    ensures Go(Go(s, c, s.handlers[c].pc), c, s.handlers[c].pc) == s
  {
    assert s.handlers[c := s.handlers[c]] == s.handlers;
  }

  lemma ClosingStuck(s: Net, c: ConnId, rest: seq<Event>)
    requires c in s.handlers && rest != [] && rest[0] == Event.CheckSender(c)
    ensures !LegalRun(Go(s, c, Closing), rest)
  {}
}
