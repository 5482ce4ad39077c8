/** The scheduler that picks an agent profile for a device and keeps the assignments. */
module Scheduler {
  import opened Names
  import opened Dicts
  import opened Sorting
  import opened SchedulerSpec

  lemma CandidatesNext(b: Book, d: Device, ids: seq<string>, i: nat, found: seq<Candidate>)
    requires i < |ids|
    ensures found + Candidates(b, d, ids[i..]) ==
      found + (if HasRoom(b, ids[i]) && Score(b.profiles.items[ids[i]], d) > 0
               then [(Score(b.profiles.items[ids[i]], d), b.profiles.items[ids[i]])] else [])
            + Candidates(b, d, ids[i + 1..])
  {
    hide Score;
    assert ids[i..][0] == ids[i] && ids[i..][1..] == ids[i + 1..];
  }

  lemma CandidatesEnd(b: Book, d: Device, ids: seq<string>)
    ensures Candidates(b, d, ids[|ids|..]) == []
  {}

  class AgentScheduler {
    var profiles: Dict<Profile>
    var counts: map<string, int>
    var assignments: map<string, Assignment>
    var agents: map<string, Agent>

    ghost function Now(): Book
      reads this
    {
      Book(profiles, counts, assignments, agents)
    }

    constructor ()
      ensures Now() == Fresh(DEFAULTS) && Inv(Now())
    {
      var defaults := DEFAULTS;
      profiles, counts, assignments, agents := Dict([], map[]), map[], map[], map[];
      new;
      for i := 0 to |defaults|
        invariant Now() == Fresh(defaults[..i])
      {
        assert defaults[..i + 1][..i] == defaults[..i];
        var _ := RegisterProfile(defaults[i]);
      }
      assert defaults[..|defaults|] == defaults;
      FreshBalanced(defaults);
    }

    method RegisterProfile(profile: Profile) returns (raised: Option<Raised>)
      modifies this
      ensures (Now(), raised) == SchedulerSpec.RegisterProfile(old(Now()), profile)
      ensures raised == if profile.profileId in old(profiles).items then Some(ProfileAlreadyRegistered) else None
      ensures raised == None ==>
        && profiles.items == old(profiles).items[profile.profileId := profile] && counts == old(counts)[profile.profileId := 0]
      ensures raised.Some? ==> unchanged(this)
    {
      if profile.profileId in profiles.items { return Some(ProfileAlreadyRegistered); }
      profiles := profiles.Put(profile.profileId, profile);
      counts := counts[profile.profileId := 0];
      return None;
    }

    method UnregisterProfile(profileId: string) returns (raised: Option<Raised>)
      modifies this
      ensures (Now(), raised) == SchedulerSpec.UnregisterProfile(old(Now()), profileId)
      ensures raised == if profileId in old(profiles).items then None else Some(ProfileNotFound)
      ensures profiles.items == old(profiles).items - {profileId}
      ensures raised == None ==> counts == old(counts) - {profileId}
    {
      if profileId !in profiles.items { return Some(ProfileNotFound); }
      profiles := profiles.Without({profileId});
      counts := counts - {profileId};
      return None;
    }

    function CountOf(id: string): int
      reads this
    {
      if id in counts then counts[id] else 0
    }

    method FindSuitableAgent(device: Device, profileId: Option<string>) returns (profile: Option<Profile>)
      requires profiles.Valid()
      ensures profile == FindSuitable(Now(), device, profileId)
      ensures profileId.Some? && profile.Some? ==> profileId.value in profiles.items && profile.value == profiles.items[profileId.value]
      ensures profileId.Some? ==> (profile.Some? <==>
        && profileId.value in profiles.items && CountOf(profileId.value) < profiles.items[profileId.value].maxAssignments
        && Score(profiles.items[profileId.value], device) > 0)
    {
      hide Score, StableSort, Candidates;
      if profileId.Some? {
        var id := profileId.value;
        if id !in profiles.items { return None; }
        if CountOf(id) >= profiles.items[id].maxAssignments { return None; }
        if Score(profiles.items[id], device) <= 0 { return None; }
        return Some(profiles.items[id]);
      }
      var candidates: seq<Candidate> := [];
      ghost var b := Now();
      var ids := profiles.keys;
      assert ids[0..] == ids;
      for i := 0 to |ids|
        invariant candidates + Candidates(b, device, ids[i..]) == Candidates(b, device, ids)
      {
        CandidatesNext(b, device, ids, i, candidates);
        var p := profiles.items[ids[i]];
        if CountOf(ids[i]) >= p.maxAssignments { continue; }
        var score := Score(p, device);
        if score > 0 { candidates := candidates + [(score, p)]; }
      }
      CandidatesEnd(b, device, ids);
      assert candidates + [] == candidates == Candidates(Now(), device, profiles.keys);
      SortPermutes(candidates, ByRank());
      var sorted := StableSort(candidates, ByRank());
      if candidates == [] {
        if FALLBACK in profiles.items && CountOf(FALLBACK) < profiles.items[FALLBACK].maxAssignments {
          return Some(profiles.items[FALLBACK]);
        }
        return None;
      }
      return Some(sorted[0].1);
    }

    /** `spare` is the id made up for a new agent when none is given. */
    method Assign(device: Device, profileId: Option<string>, agentId: Option<string>, spare: string)
        returns (granted: Option<(Agent, Assignment)>, raised: Option<Raised>)
      requires profiles.Valid()
      modifies this
      ensures (Now(), raised) == SchedulerSpec.Assign(old(Now()), device, profileId, agentId, spare)
      ensures raised == None ==> Assigned(Now(), device.resourceId)
      ensures raised == None ==>
        granted == Some((agents[assignments[device.resourceId].agentId], assignments[device.resourceId]))
    {
      var found := FindSuitableAgent(device, profileId);
      if found == None { return None, Some(NoSuitableAgent); }
      var profile := found.value;
      if device.resourceId in assignments {
        var existing := assignments[device.resourceId];
        if existing.agentId in agents { return Some((agents[existing.agentId], existing)), None; }
        assignments := assignments - {device.resourceId};
      }
      var aid := AgentIdOf(agentId, spare);
      var agent := NewAgent(profile, device, aid);
      var assignment := Assignment(device.resourceId, aid, profile.profileId, profile.host, profile.agentType);
      agents := agents[aid := agent];
      assignments := assignments[device.resourceId := assignment];
      counts := counts[profile.profileId := CountOf(profile.profileId) + 1];
      assert assignments == old(assignments)[device.resourceId := assignment];
      return Some((agent, assignment)), None;
    }

    method Release(deviceId: string) returns (raised: Option<Raised>)
      modifies this
      ensures (Now(), raised) == SchedulerSpec.Release(old(Now()), deviceId)
      ensures raised == if deviceId in old(assignments) then None else Some(AssignmentNotFound)
      ensures assignments == old(assignments) - {deviceId}
      ensures raised == None ==> agents == old(agents) - {old(assignments)[deviceId].agentId}
    {
      if deviceId !in assignments { return Some(AssignmentNotFound); }
      var assignment := assignments[deviceId];
      assignments := assignments - {deviceId};
      var pid := assignment.profileId;
      if pid in counts { counts := counts[pid := Max(0, counts[pid] - 1)]; }
      agents := agents - {assignment.agentId};
      return None;
    }

    method Clear()
      modifies this
      ensures Now() == Cleared(old(Now()))
      ensures assignments == map[] && agents == map[] && profiles == old(profiles)
      ensures counts.Keys == old(counts).Keys && forall id | id in counts :: counts[id] == 0
    {
      assignments, agents := map[], map[];
      var todo := counts.Keys;
      while todo != {}
        invariant todo <= counts.Keys == old(counts).Keys
        invariant profiles == old(profiles) && assignments == map[] && agents == map[]
        invariant forall id | id in counts && id !in todo :: counts[id] == 0
        decreases |todo|
      {
        var pid :| pid in todo;
        counts := counts[pid := 0];
        todo := todo - {pid};
      }
    }
  }
}
