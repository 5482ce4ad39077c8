/** The admission budget: slots reserved at accept, consumed at registration, given back on failure. */
module Admission {
  import opened Names

  const MAX_CONNECTIONS: nat := 64

  /** `holding` are the connections between a successful reservation and its registration or release;
      `attempts` counts every connection that has asked to be admitted. */
  datatype Slots = Slots(
    connections: set<ConnId>, reserved: nat, total: nat, rejected: nat,
    holding: set<ConnId>, attempts: nat)

  const NO_SLOTS := Slots({}, 0, 0, 0, {}, 0)

  /** One locked block each, in any interleaving of the accept loop, the handlers, `stop` and `clear`. */
  datatype Event =
    | Reserve(c: ConnId)
    | Release(c: ConnId)
    | RegisterHeld(c: ConnId)
    | RegisterDirect(c: ConnId)
    | Remove(c: ConnId)
    | CloseAll
    | Clear

  /** Connection ids are fresh, and only a connection holding a reservation releases or consumes one. */
  predicate Legal(s: Slots, e: Event) {
    match e
    case Reserve(c) => c !in s.connections && c !in s.holding
    case Release(c) => c in s.holding
    case RegisterHeld(c) => c in s.holding
    case RegisterDirect(c) => c !in s.holding
    case _ => true
  }

  function Apply(s: Slots, e: Event): Slots {
    match e
    case Reserve(c) =>
      var s' := s.(attempts := s.attempts + 1);
      if |s.connections| + s.reserved >= MAX_CONNECTIONS then s'.(rejected := s.rejected + 1)
      else s'.(reserved := s.reserved + 1, holding := s.holding + {c})
    case Release(c) =>
      s.(reserved := Less(s.reserved), rejected := s.rejected + 1, holding := s.holding - {c})
    case RegisterHeld(c) =>
      if c in s.connections then s
      else
        var s' := s.(reserved := Less(s.reserved), holding := s.holding - {c});
        if |s.connections| >= MAX_CONNECTIONS then s'.(rejected := s.rejected + 1)
        else s'.(connections := s.connections + {c}, total := s.total + 1)
    case RegisterDirect(c) =>
      if c in s.connections then s
      else if |s.connections| + s.reserved >= MAX_CONNECTIONS then
        s.(rejected := s.rejected + 1, attempts := s.attempts + 1)
      else s.(connections := s.connections + {c}, total := s.total + 1, attempts := s.attempts + 1)
    case Remove(c) => s.(connections := s.connections - {c})
    case CloseAll => s.(reserved := 0)
    case Clear => Slots({}, 0, 0, 0, s.holding, |s.holding|)
  }

  function Less(n: nat): nat { if n > 0 then n - 1 else 0 }

  predicate LegalRun(s: Slots, es: seq<Event>)
    decreases |es|
  {
    es == [] || (Legal(s, es[0]) && LegalRun(Apply(s, es[0]), es[1..]))
  }

  function Run(s: Slots, es: seq<Event>): Slots
    decreases |es|
  {
    if es == [] then s else Run(Apply(s, es[0]), es[1..])
  }

  /** A longer run is a run and one more step. */
  lemma {:induction false} RunSnoc(s: Slots, es: seq<Event>, e: Event)
    ensures LegalRun(s, es + [e]) <==> LegalRun(s, es) && Legal(Run(s, es), e)
    ensures Run(s, es + [e]) == Apply(Run(s, es), e)
    decreases |es|
  {
    var all := es + [e];
    if es == [] {
      assert all == [e] && all[1..] == [];
    } else {
      assert all[0] == es[0] && all[1..] == es[1..] + [e];
      RunSnoc(Apply(s, es[0]), es[1..], e);
    }
  }

  ghost predicate Inv(s: Slots) {
    && |s.connections| + s.reserved <= MAX_CONNECTIONS
    && s.reserved <= |s.holding|
    && s.connections !! s.holding
    && s.attempts == s.total + s.rejected + |s.holding|
  }

  /** Who is in the table: those admitted, a held registration while the table has room, a direct one while table and
      reservations together have, less those removed. A slot is reserved under the same bound. */
  lemma TableStep(s: Slots, e: Event, x: ConnId)
    requires Inv(s) && Legal(s, e)
    ensures var w := Apply(s, e);
      && (x in w.connections <==>
            || (x in s.connections && e != Remove(x) && !e.Clear?)
            || (e == RegisterHeld(x) && |s.connections| < 64)
            || (e == RegisterDirect(x) && |s.connections| + s.reserved < 64))
      && (x in w.holding && x !in s.holding <==> e == Reserve(x) && |s.connections| + s.reserved < 64)
      && (x in s.holding && x !in w.holding <==> x in s.holding && (e == Release(x) || e == RegisterHeld(x)))
      && (e.CloseAll? || e.Clear? ==> w.reserved == 0)
  {}

  lemma SetSizes(s: set<ConnId>, c: ConnId)
    ensures |s - {c}| == if c in s then |s| - 1 else |s|
    ensures |s + {c}| == if c in s then |s| else |s| + 1
  {
    if c in s {
      assert s == (s - {c}) + {c} && s + {c} == s;
    } else {
      assert s - {c} == s;
    }
  }

  lemma ApplyKeeps(s: Slots, e: Event)
    requires Inv(s) && Legal(s, e)
    ensures Inv(Apply(s, e))
    ensures e.CloseAll? || e.Clear? || s.reserved != |s.holding| || Apply(s, e).reserved == |Apply(s, e).holding|
  {
    if e.Reserve? || e.Release? || e.RegisterHeld? || e.RegisterDirect? || e.Remove? {
      SetSizes(s.holding, e.c);
      SetSizes(s.connections, e.c);
    }
  }

  /** In every interleaving, across any number of stops: active plus reserved slots never exceed 64, and every
      admission attempt is counted once, as admitted, as rejected or as still holding its reservation. */
  lemma {:induction false} EveryRunBounded(s: Slots, es: seq<Event>)
    requires Inv(s) && LegalRun(s, es)
    ensures Inv(Run(s, es))
    decreases |es|
  {
    if es != [] {
      ApplyKeeps(s, es[0]);
      EveryRunBounded(Apply(s, es[0]), es[1..]);
    }
  }

  /** Between stops, the reserved slots are exactly the reservations held. */
  lemma {:induction false} ReservationsExact(s: Slots, es: seq<Event>)
    requires Inv(s) && LegalRun(s, es) && s.reserved == |s.holding|
    requires forall e | e in es :: !e.CloseAll? && !e.Clear?
    ensures Inv(Run(s, es)) && Run(s, es).reserved == |Run(s, es).holding|
    decreases |es|
  {
    if es != [] {
      ApplyKeeps(s, es[0]);
      ReservationsExact(Apply(s, es[0]), es[1..]);
    }
  }

  /** A connection that registers on its reservation is turned away exactly when a stop has voided the
      reservation and the table has filled up since. */
  lemma HeldRegistration(s: Slots, c: ConnId)
    requires Inv(s) && c in s.holding
    ensures c in Apply(s, RegisterHeld(c)).connections <==> !(s.reserved == 0 && |s.connections| == MAX_CONNECTIONS)
    ensures s.reserved == |s.holding| ==> c in Apply(s, RegisterHeld(c)).connections
  {
    SetSizes(s.holding, c);
  }

  /** Since the transport came up, no connection holding a reservation is ever turned away. */
  lemma ReservationHonoured(es: seq<Event>, c: ConnId)
    requires LegalRun(NO_SLOTS, es) && forall e | e in es :: !e.CloseAll? && !e.Clear?
    requires c in Run(NO_SLOTS, es).holding
    ensures var s := Run(NO_SLOTS, es);
      c in Apply(s, RegisterHeld(c)).connections && Apply(s, RegisterHeld(c)).rejected == s.rejected
  {
    ReservationsExact(NO_SLOTS, es);
    HeldRegistration(Run(NO_SLOTS, es), c);
  }

  /** The session table of `TcpTransport`; each method is one block under its lock. */
  class SessionTable {
    var connections: set<ConnId>
    var reserved: nat
    var total: nat
    var rejected: nat
    ghost var holding: set<ConnId>
    ghost var attempts: nat

    ghost function Now(): Slots
      reads this
    {
      Slots(connections, reserved, total, rejected, holding, attempts)
    }

    constructor ()
      ensures Now() == NO_SLOTS
    {
      connections, reserved, total, rejected, holding, attempts := {}, 0, 0, 0, {}, 0;
    }

    method TryReserveSlot(ghost c: ConnId) returns (owned: bool)
      modifies this
      ensures Now() == Apply(old(Now()), Reserve(c))
      ensures owned <==> |old(connections)| + old(reserved) < MAX_CONNECTIONS
      ensures connections == old(connections) && total == old(total)
      ensures reserved == old(reserved) + (if owned then 1 else 0) && rejected == old(rejected) + (if owned then 0 else 1)
    {
      attempts := attempts + 1;
      if |connections| + reserved >= MAX_CONNECTIONS {
        rejected := rejected + 1;
        return false;
      }
      reserved := reserved + 1;
      holding := holding + {c};
      return true;
    }

    /** The accept loop calls it with `countRejection` set, when the TLS handshake fails: that is the release step. */
    method ReleaseReservation(ghost c: ConnId, countRejection: bool)
      modifies this
      ensures countRejection ==> Now() == Apply(old(Now()), Release(c))
      ensures !countRejection ==> Now() == Apply(old(Now()), Release(c)).(rejected := old(rejected))
    {
      if reserved > 0 { reserved := reserved - 1; }
      if countRejection { rejected := rejected + 1; }
      holding := holding - {c};
    }

    method RegisterSession(c: ConnId, hasReservation: bool) returns (admitted: bool)
      modifies this
      ensures Now() == Apply(old(Now()), if hasReservation then RegisterHeld(c) else RegisterDirect(c))
      ensures admitted <==> c in connections
      ensures admitted <==>
        c in old(connections) || |old(connections)| + (if hasReservation then 0 else old(reserved)) < MAX_CONNECTIONS
      ensures connections == if admitted then old(connections) + {c} else old(connections)
      ensures c in old(connections) ==> unchanged(this)
      ensures c !in old(connections) ==>
        total == old(total) + (if admitted then 1 else 0) && rejected == old(rejected) + (if admitted then 0 else 1)
    {
      if c in connections { return true; }
      if hasReservation {
        holding := holding - {c};
        if reserved > 0 { reserved := reserved - 1; }
        if |connections| >= MAX_CONNECTIONS {
          rejected := rejected + 1;
          return false;
        }
      } else {
        attempts := attempts + 1;
        if |connections| + reserved >= MAX_CONNECTIONS {
          rejected := rejected + 1;
          return false;
        }
      }
      connections := connections + {c};
      total := total + 1;
      return true;
    }

    method RemoveSession(c: ConnId)
      modifies this
      ensures Now() == Apply(old(Now()), Remove(c))
      ensures connections == old(connections) - {c} && reserved == old(reserved)
    {
      connections := connections - {c};
    }

    /** `stop` voids all reservations and then removes the sessions one by one. */
    method CloseAllConnections()
      modifies this
      ensures Now() == old(Now()).(connections := {}, reserved := 0)
    {
      var ids := connections;
      reserved := 0;
      while ids != {}
        invariant ids == connections && Now() == old(Now()).(connections := connections, reserved := 0)
        decreases ids
      {
        var c :| c in ids;
        RemoveSession(c);
        ids := ids - {c};
      }
    }
  }
}
