/** Choosing an agent profile for a device, and the accounting of assignments. */
module SchedulerSpec {
  import opened Names
  import opened Dicts
  import opened Sorting

  datatype Profile = Profile(
    profileId: string, name: string, agentType: string, version: string, host: string,
    capabilities: seq<string>, deviceTypes: seq<string>, platforms: seq<string>, maxAssignments: int)

  datatype Device = Device(
    resourceId: string, name: string, capabilities: seq<string>, deviceType: Option<string>, platform: Option<string>)

  datatype Agent = Agent(
    agentId: string, name: string, agentType: string, version: string, host: string, target: string,
    capabilities: seq<string>, profileId: string)

  datatype Assignment = Assignment(deviceId: string, agentId: string, profileId: string, host: string, agentType: string)

  datatype Book = Book(
    profiles: Dict<Profile>, counts: map<string, int>, assignments: map<string, Assignment>, agents: map<string, Agent>)

  datatype Raised = ProfileAlreadyRegistered | ProfileNotFound | NoSuitableAgent | AssignmentNotFound

  // ---- choosing ----

  /** `score_for` */
  function Score(p: Profile, d: Device): int {
    var shared := |Elems(p.capabilities) * Elems(d.capabilities)|;
    shared * 10 + (if Admits(p.deviceTypes, Kind(d)) then 5 else 0) + (if Admits(p.platforms, Platform(d)) then 5 else 0)
      + (if p.host == "windows-host" then 2 else 0)
  }

  predicate Admits(supported: seq<string>, x: string) { supported == [] || x in supported }

  function Kind(d: Device): string { if d.deviceType.Some? then d.deviceType.value else "generic" }
  function Platform(d: Device): string { if d.platform.Some? then d.platform.value else "unknown" }

  predicate SharesMore(p: Profile, q: Profile, d: Device) {
    Elems(p.capabilities) * Elems(d.capabilities) < Elems(q.capabilities) * Elems(d.capabilities)
  }

  predicate NoWorseFit(p: Profile, q: Profile, d: Device) {
    && (Admits(p.deviceTypes, Kind(d)) ==> Admits(q.deviceTypes, Kind(d)))
    && (Admits(p.platforms, Platform(d)) ==> Admits(q.platforms, Platform(d)))
    && (p.host == "windows-host" ==> q.host == "windows-host")
  }

  /** What a profile gains by each mark, all else being equal: five for the device's type or for naming no types, five
      likewise for its platform, two for the host, ten for each further capability they share; 12 where it shares none
      and names nothing. */
  lemma ScoreMarks(p: Profile, d: Device, kinds: seq<string>, platforms: seq<string>, host: string, c: string)
    requires p.deviceTypes == [] && p.platforms == [] && p.host == "windows-host"
    ensures Score(p, d) - Score(p.(deviceTypes := kinds), d) ==
      if kinds != [] && (match d.deviceType case Some(k) => k case None => "generic") !in kinds then 5 else 0
    ensures Score(p, d) - Score(p.(platforms := platforms), d) ==
      if platforms != [] && (match d.platform case Some(x) => x case None => "unknown") !in platforms then 5 else 0
    ensures Score(p, d) - Score(p.(host := host), d) == if host != "windows-host" then 2 else 0
    ensures Score(p.(capabilities := p.capabilities + [c]), d) - Score(p, d) ==
      if c in d.capabilities && c !in p.capabilities then 10 else 0
    ensures p.capabilities == [] ==> Score(p, d) == 12
  {
    MoreShared(p.capabilities, d.capabilities, c);
    if p.capabilities == [] { assert Elems(p.capabilities) * Elems(d.capabilities) == {}; }
  }

  lemma MoreShared(mine: seq<string>, theirs: seq<string>, c: string)
    ensures |Elems(mine + [c]) * Elems(theirs)| == |Elems(mine) * Elems(theirs)| + if c in theirs && c !in mine then 1 else 0
  {
    ElemsAppend(mine, c);
    var shared := Elems(mine) * Elems(theirs);
    if c in theirs && c !in mine {
      assert Elems(mine + [c]) * Elems(theirs) == shared + {c} && c !in shared;
    } else {
      assert Elems(mine + [c]) * Elems(theirs) == shared;
    }
  }

  /** A profile scores nothing exactly when it shares no capability and matches neither type, platform nor host;
      sharing more capabilities counts for all but two of the other marks together. */
  lemma ScoreMeans(p: Profile, q: Profile, d: Device)
    ensures Score(p, d) >= 0
    ensures Score(p, d) == 0 <==>
      && (forall x | x in p.capabilities :: x !in d.capabilities)
      && !Admits(p.deviceTypes, Kind(d)) && !Admits(p.platforms, Platform(d)) && p.host != "windows-host"
    ensures SharesMore(p, q, d) ==> Score(q, d) >= Score(p, d) - 2
    ensures SharesMore(p, q, d) && NoWorseFit(p, q, d) ==> Score(q, d) >= Score(p, d) + 10
  {
    var a, b := Elems(p.capabilities) * Elems(d.capabilities), Elems(q.capabilities) * Elems(d.capabilities);
    if a < b { SubsetSize(a, b); }
    if forall x | x in p.capabilities :: x !in d.capabilities {
      assert a == {};
    } else {
      var x :| x in p.capabilities && x in d.capabilities;
      assert x in a;
    }
  }

  function Count(b: Book, id: string): int { if id in b.counts then b.counts[id] else 0 }

  predicate HasRoom(b: Book, id: string) {
    id in b.profiles.items && Count(b, id) < b.profiles.items[id].maxAssignments
  }

  type Candidate = (int, Profile)

  function Candidates(b: Book, d: Device, ids: seq<string>): seq<Candidate> {
    if ids == [] then []
    else
      (if HasRoom(b, ids[0]) && Score(b.profiles.items[ids[0]], d) > 0
       then [(Score(b.profiles.items[ids[0]], d), b.profiles.items[ids[0]])] else [])
      + Candidates(b, d, ids[1..])
  }

  /** Greater score first, then greater id, as a reversed sort on the pair has it. */
  predicate AtLeast(x: Candidate, y: Candidate) {
    x.0 > y.0 || (x.0 == y.0 && Le(y.1.profileId, x.1.profileId))
  }

  function ByRank(): (Candidate, Candidate) -> bool { (x: Candidate, y: Candidate) => AtLeast(x, y) }

  const FALLBACK := "asis-local"

  function FindSuitable(b: Book, d: Device, wanted: Option<string>): Option<Profile> {
    if wanted.Some? then
      if HasRoom(b, wanted.value) && Score(b.profiles.items[wanted.value], d) > 0
      then Some(b.profiles.items[wanted.value]) else None
    else
      var candidates := StableSort(Candidates(b, d, b.profiles.keys), ByRank());
      if candidates != [] then Some(candidates[0].1)
      else if HasRoom(b, FALLBACK) then Some(b.profiles.items[FALLBACK]) else None
  }

  lemma {:induction false} CandidateIff(b: Book, d: Device, ids: seq<string>, x: Candidate)
    ensures x in Candidates(b, d, ids) <==>
      exists id :: id in ids && HasRoom(b, id) && b.profiles.items[id] == x.1 && Score(x.1, d) == x.0 && x.0 > 0
  {
    if ids != [] {
      CandidateIff(b, d, ids[1..], x);
      assert ids == [ids[0]] + ids[1..];
    }
  }

  lemma RankIsPreorder()
    ensures TotalPreorder(ByRank())
  {
    forall x: Candidate, y: Candidate ensures ByRank()(x, y) || ByRank()(y, x) { LeTotal(x.1.profileId, y.1.profileId); }
    forall x: Candidate, y: Candidate, z: Candidate | ByRank()(x, y) && ByRank()(y, z) ensures ByRank()(x, z) {
      if x.0 == y.0 && y.0 == z.0 { LeTransitive(z.1.profileId, y.1.profileId, x.1.profileId); }
    }
  }

  /** The choice among several is a profile with room, no worse by (score, id) than any other with room. */
  predicate Greatest(b: Book, d: Device, p: Profile) {
    && p.profileId in b.profiles.items && b.profiles.items[p.profileId] == p
    && HasRoom(b, p.profileId) && Score(p, d) > 0
    && forall id | id in b.profiles.items && HasRoom(b, id) && Score(b.profiles.items[id], d) > 0 ::
         var other := Score(b.profiles.items[id], d);
         other < Score(p, d) || (other == Score(p, d) && Le(id, p.profileId))
  }

  ghost predicate Keyed(b: Book) {
    b.profiles.Valid() && forall id | id in b.profiles.items :: b.profiles.items[id].profileId == id
  }

  lemma ChoiceIsGreatest(b: Book, d: Device)
    requires Keyed(b)
    ensures match FindSuitable(b, d, None)
      case Some(p) =>
        if exists id :: id in b.profiles.items && HasRoom(b, id) && Score(b.profiles.items[id], d) > 0
        then Greatest(b, d, p) else HasRoom(b, "asis-local") && p == b.profiles.items["asis-local"]
      case None => forall id | id in b.profiles.items && HasRoom(b, id) :: Score(b.profiles.items[id], d) <= 0 && id != "asis-local"
  {
    var all := Candidates(b, d, b.profiles.keys);
    var sorted := StableSort(all, ByRank());
    RankIsPreorder();
    SortMembers(all, ByRank());
    SortOrdered(all, ByRank(), (x: Candidate, y: Candidate) => true);
    forall id | id in b.profiles.items && HasRoom(b, id) && Score(b.profiles.items[id], d) > 0
      ensures sorted != [] && ByRank()(sorted[0], (Score(b.profiles.items[id], d), b.profiles.items[id]))
    {
      var x := (Score(b.profiles.items[id], d), b.profiles.items[id]);
      CandidateIff(b, d, b.profiles.keys, x);
      assert x in sorted;
      assert ByRank()(x, x) by { LeTotal(id, id); }
    }
    if sorted != [] {
      assert sorted[0] in sorted;
      CandidateIff(b, d, b.profiles.keys, sorted[0]);
    }
  }

  /** A profile that is asked for is chosen exactly when it is registered, has fewer assignments than its maximum and
      scores anything; then it and no other is. */
  lemma WantedChoice(b: Book, d: Device, id: string, p: Profile)
    ensures FindSuitable(b, d, Some(id)) == Some(p) <==>
      && id in b.profiles.items && b.profiles.items[id] == p
      && (if id in b.counts then b.counts[id] else 0) < p.maxAssignments && Score(p, d) > 0
  {}

  lemma GreatestUnique(b: Book, d: Device, p: Profile, q: Profile)
    requires Keyed(b) && Greatest(b, d, p) && Greatest(b, d, q)
    ensures p == q
  {
    assert Le(p.profileId, q.profileId) && Le(q.profileId, p.profileId);
    LeAntisymmetric(p.profileId, q.profileId);
  }

  /** The choice does not depend on the order in which the profiles were registered. */
  lemma ChoiceIgnoresOrder(b: Book, c: Book, d: Device)
    requires Keyed(b) && Keyed(c) && b.profiles.items == c.profiles.items && b.counts == c.counts
    ensures FindSuitable(b, d, None) == FindSuitable(c, d, None)
  {
    ChoiceIsGreatest(b, d);
    ChoiceIsGreatest(c, d);
    var x, y := FindSuitable(b, d, None), FindSuitable(c, d, None);
    assert forall id :: HasRoom(b, id) == HasRoom(c, id);
    if x.Some? && y.Some? && Greatest(b, d, x.value) && Greatest(c, d, y.value) {
      SameGreatest(b, c, d, y.value);
      GreatestUnique(b, d, x.value, y.value);
    }
  }

  lemma SameGreatest(b: Book, c: Book, d: Device, p: Profile)
    requires b.profiles.items == c.profiles.items && b.counts == c.counts && Greatest(c, d, p)
    ensures Greatest(b, d, p)
  {}

  // ---- operations ----

  function RegisterProfile(b: Book, p: Profile): (Book, Option<Raised>) {
    if p.profileId in b.profiles.items then (b, Some(ProfileAlreadyRegistered))
    else (b.(profiles := b.profiles.Put(p.profileId, p), counts := b.counts[p.profileId := 0]), None)
  }

  function UnregisterProfile(b: Book, id: string): (Book, Option<Raised>) {
    if id !in b.profiles.items then (b, Some(ProfileNotFound))
    else (b.(profiles := b.profiles.Without({id}), counts := b.counts - {id}), None)
  }

  function NewAgent(p: Profile, d: Device, agentId: string): Agent {
    Agent(agentId, p.name + " for " + d.name, p.agentType, p.version, p.host, d.resourceId, p.capabilities, p.profileId)
  }

  function AgentIdOf(given: Option<string>, spare: string): string {
    if given.Some? && given.value != "" then given.value else spare
  }

  /** The device has an assignment whose agent is still there. */
  predicate Assigned(b: Book, device: string) {
    device in b.assignments && b.assignments[device].agentId in b.agents
  }

  function Engage(b: Book, p: Profile, d: Device, agentId: string): Book {
    b.(agents := b.agents[agentId := NewAgent(p, d, agentId)],
       assignments := b.assignments[d.resourceId := Assignment(d.resourceId, agentId, p.profileId, p.host, p.agentType)],
       counts := b.counts[p.profileId := Count(b, p.profileId) + 1])
  }

  /** `assign`, with the id a new agent would be given. */
  function Assign(b: Book, d: Device, wanted: Option<string>, given: Option<string>, spare: string): (Book, Option<Raised>) {
    var profile := FindSuitable(b, d, wanted);
    if profile == None then (b, Some(NoSuitableAgent))
    else if Assigned(b, d.resourceId) then (b, None)
    else (Engage(b, profile.value, d, AgentIdOf(given, spare)), None)
  }

  function Max(x: int, y: int): int { if x >= y then x else y }

  function Release(b: Book, device: string): (Book, Option<Raised>) {
    if device !in b.assignments then (b, Some(AssignmentNotFound))
    else
      var a := b.assignments[device];
      (b.(assignments := b.assignments - {device}, agents := b.agents - {a.agentId},
          counts := if a.profileId in b.counts then b.counts[a.profileId := Max(0, b.counts[a.profileId] - 1)] else b.counts),
       None)
  }

  function Cleared(b: Book): Book {
    b.(assignments := map[], agents := map[], counts := map id | id in b.counts :: 0)
  }

  // ---- the accounts ----

  /** The devices assigned to a profile. */
  function Live(assignments: map<string, Assignment>, id: string): set<string> {
    set d | d in assignments && assignments[d].profileId == id
  }

  predicate Within(count: int, max: int) { 0 <= count && (count > 0 ==> count <= max) }

  ghost predicate Counted(b: Book) {
    && b.counts.Keys == b.profiles.items.Keys
    && forall id | id in b.counts :: b.counts[id] == |Live(b.assignments, id)| && Within(b.counts[id], b.profiles.items[id].maxAssignments)
  }

  /** Assignments and agents pair off. */
  ghost predicate Paired(b: Book) {
    && (forall d | d in b.assignments ::
          var a := b.assignments[d]; a.deviceId == d && a.agentId in b.agents && b.agents[a.agentId].target == d)
    && (forall x | x in b.agents ::
          var d := b.agents[x].target; b.agents[x].agentId == x && d in b.assignments && b.assignments[d].agentId == x)
  }

  ghost predicate Inv(b: Book) { Keyed(b) && Counted(b) && Paired(b) }

  /** Registering a profile keeps the accounts exactly when no assignment still names its id. */
  lemma RegisterKeeps(b: Book, p: Profile)
    requires Inv(b) && p.profileId !in b.profiles.items
    ensures Inv(RegisterProfile(b, p).0) <==> Live(b.assignments, p.profileId) == {}
  {
    hide Live, Paired;
    var w := RegisterProfile(b, p).0;
    PairedKeeps(b, w);
    assert w.counts.Keys == b.counts.Keys + {p.profileId};
    assert w.counts[p.profileId] == 0;
  }

  lemma PairedKeeps(b: Book, w: Book)
    requires Paired(b) && w.assignments == b.assignments && w.agents == b.agents
    ensures Paired(w)
  {}

  lemma UnregisterKeeps(b: Book, id: string)
    requires Inv(b)
    ensures Inv(UnregisterProfile(b, id).0)
  {
    b.profiles.WithoutValid({id});
  }

  lemma ChosenHasRoom(b: Book, d: Device, wanted: Option<string>)
    requires Keyed(b) && FindSuitable(b, d, wanted).Some?
    ensures var p := FindSuitable(b, d, wanted).value; HasRoom(b, p.profileId) && b.profiles.items[p.profileId] == p
  {
    if wanted == None { ChoiceIsGreatest(b, d); }
  }

  /** Under the accounts, an assigned device is left alone; it is still refused when no profile has room. */
  lemma AssignAgain(b: Book, d: Device, wanted: Option<string>, given: Option<string>, spare: string)
    requires Inv(b) && d.resourceId in b.assignments
    ensures Assign(b, d, wanted, given, spare) ==
      (b, if FindSuitable(b, d, wanted).Some? then None else Some(NoSuitableAgent))
  {}

  lemma EngagePairs(b: Book, p: Profile, d: Device, agentId: string)
    requires Paired(b) && d.resourceId !in b.assignments && agentId !in b.agents
    ensures Paired(Engage(b, p, d, agentId))
  {}

  lemma EngageLive(b: Book, p: Profile, d: Device, agentId: string, id: string)
    requires d.resourceId !in b.assignments
    ensures Live(Engage(b, p, d, agentId).assignments, id) == Live(b.assignments, id) + if id == p.profileId then {d.resourceId} else {}
    ensures |Live(Engage(b, p, d, agentId).assignments, id)| == |Live(b.assignments, id)| + if id == p.profileId then 1 else 0
  {
    LiveWith(b.assignments, d.resourceId, Assignment(d.resourceId, agentId, p.profileId, p.host, p.agentType), id);
  }

  lemma LiveWith(assignments: map<string, Assignment>, device: string, a: Assignment, id: string)
    requires device !in assignments
    ensures Live(assignments[device := a], id) == Live(assignments, id) + if a.profileId == id then {device} else {}
    ensures |Live(assignments[device := a], id)| == |Live(assignments, id)| + if a.profileId == id then 1 else 0
  {
    if a.profileId == id { LiveMore(assignments, device, a); } else { LiveSame(assignments, device, a, id); }
  }

  lemma LiveMore(assignments: map<string, Assignment>, device: string, a: Assignment)
    requires device !in assignments
    ensures Live(assignments[device := a], a.profileId) == Live(assignments, a.profileId) + {device}
    ensures |Live(assignments[device := a], a.profileId)| == |Live(assignments, a.profileId)| + 1
  {
    var before, after := Live(assignments, a.profileId), Live(assignments[device := a], a.profileId);
    forall d ensures d in after <==> d in before + {device} {}
    assert after == before + {device} && device !in before;
  }

  lemma LiveSame(assignments: map<string, Assignment>, device: string, a: Assignment, id: string)
    requires device !in assignments && a.profileId != id
    ensures Live(assignments[device := a], id) == Live(assignments, id)
  {
    forall d ensures d in Live(assignments[device := a], id) <==> d in Live(assignments, id) {}
  }

  lemma EngageKeeps(b: Book, p: Profile, d: Device, agentId: string)
    requires Inv(b) && d.resourceId !in b.assignments && agentId !in b.agents
    requires HasRoom(b, p.profileId) && b.profiles.items[p.profileId] == p
    ensures Inv(Engage(b, p, d, agentId))
  {
    hide Paired, Live;
    EngagePairs(b, p, d, agentId);
    var w := Engage(b, p, d, agentId);
    assert w.counts.Keys == b.counts.Keys;
    forall id | id in w.counts ensures w.counts[id] == |Live(w.assignments, id)| { EngageLive(b, p, d, agentId, id); }
  }

  lemma AssignKeeps(b: Book, d: Device, wanted: Option<string>, given: Option<string>, spare: string)
    requires Inv(b) && (Assigned(b, d.resourceId) || AgentIdOf(given, spare) !in b.agents)
    ensures Inv(Assign(b, d, wanted, given, spare).0)
  {
    if FindSuitable(b, d, wanted).Some? {
      ChosenHasRoom(b, d, wanted);
      if d.resourceId !in b.assignments {
        EngageKeeps(b, FindSuitable(b, d, wanted).value, d, AgentIdOf(given, spare));
      }
    }
  }

  /** An assignment that goes through names the chosen profile, the one asked for where one was, in the assignment, in
      the new agent and in the count; nothing else changes. */
  lemma AssignNames(b: Book, d: Device, wanted: Option<string>, given: Option<string>, spare: string)
    requires Keyed(b) && !Assigned(b, d.resourceId) && Assign(b, d, wanted, given, spare).1 == None
    ensures var w, p := Assign(b, d, wanted, given, spare).0, FindSuitable(b, d, wanted).value;
      var aid := if given == None || given.value == "" then spare else given.value;
      && FindSuitable(b, d, wanted).Some? && (wanted.Some? ==> p.profileId == wanted.value) && w.profiles == b.profiles
      && w.assignments == b.assignments[d.resourceId := Assignment(d.resourceId, aid, p.profileId, p.host, p.agentType)]
      && w.agents == b.agents[aid := Agent(aid, p.name + " for " + d.name, p.agentType, p.version, p.host, d.resourceId,
                                           p.capabilities, p.profileId)]
      && w.counts == b.counts[p.profileId := (if p.profileId in b.counts then b.counts[p.profileId] else 0) + 1]
  {
    hide FindSuitable;
    ChosenHasRoom(b, d, wanted);
    if wanted.Some? { WantedChoice(b, d, wanted.value, FindSuitable(b, d, wanted).value); }
  }

  lemma ReleaseKeeps(b: Book, device: string)
    requires Inv(b)
    ensures Inv(Release(b, device).0)
    ensures device in b.assignments ==> b.assignments[device].profileId in b.counts ==>
      Release(b, device).0.counts[b.assignments[device].profileId] == b.counts[b.assignments[device].profileId] - 1
  {
    hide Paired, Live;
    if device in b.assignments {
      var w, mine := Release(b, device).0, b.assignments[device].profileId;
      ReleasePairs(b, device);
      assert w.counts.Keys == b.counts.Keys;
      forall id | id in w.counts
        ensures w.counts[id] == |Live(w.assignments, id)| == if id == mine then b.counts[id] - 1 else b.counts[id]
      {
        ReleaseLive(b, device, id);
      }
    }
  }

  lemma ReleaseLive(b: Book, device: string, id: string)
    requires device in b.assignments
    ensures |Live(b.assignments - {device}, id)| == |Live(b.assignments, id)| - if id == b.assignments[device].profileId then 1 else 0
  {
    var now := Live(b.assignments - {device}, id);
    if id == b.assignments[device].profileId {
      assert Live(b.assignments, id) == now + {device} && device !in now;
    } else {
      assert now == Live(b.assignments, id);
    }
  }

  lemma ReleasePairs(b: Book, device: string)
    requires Paired(b) && device in b.assignments
    ensures Paired(Release(b, device).0)
  {}

  lemma ClearKeeps(b: Book)
    requires Inv(b)
    ensures Inv(Cleared(b))
  {
    var w := Cleared(b);
    assert forall id :: Live(w.assignments, id) == {};
    assert w.counts.Keys == b.counts.Keys;
  }

  lemma ReleaseUndoesEngage(b: Book, p: Profile, d: Device, agentId: string)
    requires Counted(b) && p.profileId in b.profiles.items && agentId !in b.agents && d.resourceId !in b.assignments
    ensures Release(Engage(b, p, d, agentId), d.resourceId).0 == b
  {
    hide Live;
    var w := Engage(b, p, d, agentId);
    var back := Release(w, d.resourceId).0;
    Overwrite(b.counts, p.profileId, b.counts[p.profileId] + 1, b.counts[p.profileId]);
    assert back.counts == b.counts[p.profileId := b.counts[p.profileId]] == b.counts;
    assert back.assignments == b.assignments;
    assert back.agents == b.agents;
  }

  /** Releasing what was just assigned restores the accounts. */
  lemma ReleaseUndoesAssign(b: Book, d: Device, wanted: Option<string>, given: Option<string>, spare: string)
    requires Inv(b) && AgentIdOf(given, spare) !in b.agents && d.resourceId !in b.assignments
    requires FindSuitable(b, d, wanted).Some?
    ensures Release(Assign(b, d, wanted, given, spare).0, d.resourceId).0 == b
  {
    ChosenHasRoom(b, d, wanted);
    ReleaseUndoesEngage(b, FindSuitable(b, d, wanted).value, d, AgentIdOf(given, spare));
  }

  // ---- runs ----

  datatype Op =
    | DoRegister(p: Profile)
    | DoUnregister(id: string)
    | DoAssign(d: Device, wanted: Option<string>, given: Option<string>, spare: string)
    | DoRelease(device: string)
    | DoClear

  function Apply(b: Book, op: Op): Book {
    match op
    case DoRegister(p) => RegisterProfile(b, p).0
    case DoUnregister(id) => UnregisterProfile(b, id).0
    case DoAssign(d, wanted, given, spare) => Assign(b, d, wanted, given, spare).0
    case DoRelease(device) => Release(b, device).0
    case DoClear => Cleared(b)
  }

  function Run(b: Book, ops: seq<Op>): Book
    decreases |ops|
  {
    if ops == [] then b else Run(Apply(b, ops[0]), ops[1..])
  }

  /** Agents that are made get unused ids, and no profile comes back while assignments to its namesake live. */
  ghost predicate Sensible(b: Book, ops: seq<Op>)
    decreases |ops|
  {
    ops == [] ||
    (&& (ops[0].DoAssign? ==> Assigned(b, ops[0].d.resourceId) || AgentIdOf(ops[0].given, ops[0].spare) !in b.agents)
     && (ops[0].DoRegister? ==> Live(b.assignments, ops[0].p.profileId) == {} || ops[0].p.profileId in b.profiles.items)
     && Sensible(Apply(b, ops[0]), ops[1..]))
  }

  /** In every such run each count is the number of live assignments, within the maximum, and assignments
      and agents stay paired. */
  lemma {:induction false} EveryRunBalanced(b: Book, ops: seq<Op>)
    requires Inv(b) && Sensible(b, ops)
    ensures Inv(Run(b, ops))
    decreases |ops|
  {
    if ops != [] {
      match ops[0] {
        case DoRegister(p) =>
          if p.profileId !in b.profiles.items {
            RegisterKeeps(b, p);
          }
        case DoUnregister(id) => UnregisterKeeps(b, id);
        case DoAssign(d, wanted, given, spare) => AssignKeeps(b, d, wanted, given, spare);
        case DoRelease(device) => ReleaseKeeps(b, device);
        case DoClear => ClearKeeps(b);
      }
      EveryRunBalanced(Apply(b, ops[0]), ops[1..]);
    }
  }

  /** The profile on offer under an id after some operations: the one registered since it was last free. */
  function Offered(ops: seq<Op>, id: string, was: Option<Profile>): Option<Profile>
    decreases |ops|
  {
    if ops == [] then was
    else
      Offered(ops[1..], id,
        if ops[0].DoRegister? && ops[0].p.profileId == id && was == None then Some(ops[0].p)
        else if ops[0].DoUnregister? && ops[0].id == id then None
        else was)
  }

  function ProfileAt(b: Book, id: string): Option<Profile> {
    if id in b.profiles.items then Some(b.profiles.items[id]) else None
  }

  /** Whatever else is done, the profiles on offer are those that were registered, as they were registered. */
  lemma {:induction false} ProfilesKept(b: Book, ops: seq<Op>, id: string)
    ensures ProfileAt(Run(b, ops), id) == Offered(ops, id, ProfileAt(b, id))
    decreases |ops|
  {
    if ops != [] {
      ProfileStep(b, ops[0], id);
      ProfilesKept(Apply(b, ops[0]), ops[1..], id);
    }
  }

  lemma ProfileStep(b: Book, op: Op, id: string)
    ensures ProfileAt(Apply(b, op), id) ==
      if op.DoRegister? && op.p.profileId == id && ProfileAt(b, id) == None then Some(op.p)
      else if op.DoUnregister? && op.id == id then None
      else ProfileAt(b, id)
  {
    hide FindSuitable, Engage;
    if op.DoAssign? { EngageLeaves(b, op.d, op.wanted, op.given, op.spare); }
  }

  lemma EngageLeaves(b: Book, d: Device, wanted: Option<string>, given: Option<string>, spare: string)
    ensures Assign(b, d, wanted, given, spare).0.profiles == b.profiles
  {}

  /** The scheduler as it starts up. */
  function Fresh(defaults: seq<Profile>): Book
    decreases |defaults|
  {
    if defaults == [] then Book(Dict([], map[]), map[], map[], map[])
    else RegisterProfile(Fresh(defaults[..|defaults| - 1]), defaults[|defaults| - 1]).0
  }

  lemma {:induction false} FreshBalanced(defaults: seq<Profile>)
    ensures Inv(Fresh(defaults)) && Fresh(defaults).assignments == map[]
    decreases |defaults|
  {
    if defaults != [] {
      var b, p := Fresh(defaults[..|defaults| - 1]), defaults[|defaults| - 1];
      FreshBalanced(defaults[..|defaults| - 1]);
      if p.profileId !in b.profiles.items { RegisterKeeps(b, p); }
    }
  }

  // ---- two runs in which the code does not do what it is meant to ----

  const LOCAL := Profile("asis-local", "A.S.I.S. Local", "local", "0.2.1", "windows-host",
    ["inference", "voice", "web", "hardware"], [], [], 100)

  const OFFLOAD := Profile("asis-offload", "A.S.I.S. Offload", "offload", "0.2.1", "windows-host",
    ["offload", "inference", "camera", "gps", "heart_rate"], ["phone", "watch", "tablet", "sensor", "rover"],
    ["ios", "watchos", "android", "unknown"], 50)

  const COMPAT := Profile("tiviss-compat", "T.I.V.I.S.S. Compat", "tiviss", "0.1.0", "windows-host",
    ["inference", "voice"], ["generic"], [], 20)

  /** The profiles a scheduler starts with. */
  const DEFAULTS := [LOCAL, OFFLOAD, COMPAT]

  lemma StartingBook()
    ensures Fresh(DEFAULTS) == Book(
      Dict(["asis-local", "asis-offload", "tiviss-compat"],
           map["asis-local" := LOCAL, "asis-offload" := OFFLOAD, "tiviss-compat" := COMPAT]),
      map["asis-local" := 0, "asis-offload" := 0, "tiviss-compat" := 0], map[], map[])
  {
    assert DEFAULTS[..2] == [LOCAL, OFFLOAD] && [LOCAL, OFFLOAD][..1] == [LOCAL] && [LOCAL][..0] == [];
    assert Fresh([LOCAL]) == RegisterProfile(Fresh([]), LOCAL).0;
    assert Fresh([LOCAL, OFFLOAD]) == RegisterProfile(Fresh([LOCAL]), OFFLOAD).0;
  }

  lemma RunOne(b: Book, op: Op)
    ensures Run(b, [op]) == Apply(b, op)
  {
    assert [op][1..] == [];
  }

  lemma {:induction false} RunAppend(b: Book, first: seq<Op>, rest: seq<Op>)
    ensures Run(b, first + rest) == Run(Run(b, first), rest)
    decreases |first|
  {
    if first == [] {
      assert first + rest == rest;
    } else {
      assert (first + rest)[0] == first[0] && (first + rest)[1..] == first[1..] + rest;
      RunAppend(Apply(b, first[0]), first[1..], rest);
    }
  }

  lemma RunThree(b: Book, x: Op, y: Op, z: Op)
    ensures Run(b, [x, y, z]) == Apply(Apply(Apply(b, x), y), z)
  {
    assert [x, y, z] == [x] + [y] + [z];
    RunAppend(b, [x] + [y], [z]);
    RunAppend(b, [x], [y]);
    RunOne(b, x);
    RunOne(Apply(b, x), y);
    RunOne(Apply(Apply(b, x), y), z);
  }

  /** A profile that comes back while it has assignments counts none of them. */
  lemma ComesBackUncounted(b: Book, p: Profile)
    requires p.profileId in b.profiles.items && Live(b.assignments, p.profileId) != {}
    ensures var w := RegisterProfile(UnregisterProfile(b, p.profileId).0, p).0;
      p.profileId in w.counts && w.counts[p.profileId] == 0 && w.assignments == b.assignments && !Inv(w)
  {
    hide Live;
  }

  /** A scheduler that has just started loses count: an assigned profile is unregistered and registered again,
      and then counts nothing while its assignment lives on. */
  lemma CountLost(d: Device, spare: string)
    ensures var b := Run(Fresh(DEFAULTS), [DoAssign(d, Some("asis-local"), None, spare), DoUnregister("asis-local"), DoRegister(LOCAL)]);
      "asis-local" in b.counts && b.counts["asis-local"] == 0 && Live(b.assignments, "asis-local") == {d.resourceId} && !Inv(b)
  {
    hide Run, Score, Live, Inv, RegisterProfile, UnregisterProfile;
    var b0 := Fresh(DEFAULTS);
    StartingBook();
    ScoreMeans(LOCAL, LOCAL, d);
    NoneLive(b0, "asis-local");
    EngageLive(b0, LOCAL, d, AgentIdOf(None, spare), "asis-local");
    ComesBackUncounted(Engage(b0, LOCAL, d, AgentIdOf(None, spare)), LOCAL);
    RunThree(b0, DoAssign(d, Some("asis-local"), None, spare), DoUnregister("asis-local"), DoRegister(LOCAL));
  }

  lemma NoneLive(b: Book, id: string)
    requires b.assignments == map[]
    ensures Live(b.assignments, id) == {}
  {}

  const CLEAR_OUT := [DoUnregister("asis-local"), DoUnregister("asis-offload"), DoUnregister("tiviss-compat")]

  lemma ClearedOut()
    ensures Run(Fresh(DEFAULTS), CLEAR_OUT) == Fresh([])
  {
    StartingBook();
    var b := Fresh(DEFAULTS);
    RunThree(b, CLEAR_OUT[0], CLEAR_OUT[1], CLEAR_OUT[2]);
    var two := UnregisterProfile(b, "asis-local").0;
    assert two.profiles == Dict(["asis-offload", "tiviss-compat"], map["asis-offload" := OFFLOAD, "tiviss-compat" := COMPAT]);
    var one := UnregisterProfile(two, "asis-offload").0;
    assert one.profiles == Dict(["tiviss-compat"], map["tiviss-compat" := COMPAT]);
  }

  /** A profile that serves one device. */
  const SINGLE := LOCAL.(maxAssignments := 1)

  lemma SingleTaken(d: Device, spare: string)
    ensures var b := Run(Fresh([]), [DoRegister(SINGLE), DoAssign(d, None, None, spare)]);
      Inv(b) && Assigned(b, d.resourceId) && forall id :: !HasRoom(b, id)
  {
    hide Run, Score, FindSuitable, Inv;
    var b := RegisterProfile(Fresh([]), SINGLE).0;
    SingleBook();
    ScoreMeans(SINGLE, SINGLE, d);
    OnlyChoice(b, SINGLE, d);
    AssignKeeps(b, d, None, None, spare);
    var x, y := DoRegister(SINGLE), DoAssign(d, None, None, spare);
    assert [x] + [y] == [x, y];
    RunAppend(Fresh([]), [x], [y]);
    RunOne(Fresh([]), x);
    RunOne(b, y);
  }

  lemma SingleBook()
    ensures var b := RegisterProfile(Fresh([]), SINGLE).0;
      b == Book(Dict([SINGLE.profileId], map[SINGLE.profileId := SINGLE]), map[SINGLE.profileId := 0], map[], map[]) && Inv(b)
  {
    FreshBalanced([]);
    RegisterKeeps(Fresh([]), SINGLE);
    NoneLive(Fresh([]), SINGLE.profileId);
  }

  lemma OnlyChoice(b: Book, p: Profile, d: Device)
    requires b.profiles == Dict([p.profileId], map[p.profileId := p]) && HasRoom(b, p.profileId) && Score(p, d) > 0
    ensures FindSuitable(b, d, None) == Some(p)
  {
    hide Score, FindSuitable;
    ChoiceIsGreatest(b, d);
  }

  /** A device that has an assignment is refused another `assign`, whatever it asks for, because the only profile
      is full, with it. */
  lemma AssignedRefused(d: Device, spare: string, wanted: Option<string>, given: Option<string>, other: string)
    ensures var b := Run(Fresh(DEFAULTS), CLEAR_OUT + [DoRegister(SINGLE), DoAssign(d, None, None, spare)]);
      Inv(b) && Assigned(b, d.resourceId) && Assign(b, d, wanted, given, other) == (b, Some(NoSuitableAgent))
  {
    hide Score, Engage;
    var taken := [DoRegister(SINGLE), DoAssign(d, None, None, spare)];
    ClearedOut();
    RunAppend(Fresh(DEFAULTS), CLEAR_OUT, taken);
    var b := Run(Fresh([]), taken);
    SingleTaken(d, spare);
    ChoiceIsGreatest(b, d);
    AssignAgain(b, d, wanted, given, other);
  }
}
