/** Envelopes of a node and the ledger that accounts for them, internal/kataguard. Each change to a
    record file, a control group or a limit file is durable by itself, and the process can stop
    between any two of them; the trail keeps every durable state that there has been. */
module AdmissionLedger {
  import opened Maps
  import opened Faults
  import Decimal
  import Hex

  /** The part of a resource profile that the envelope enforces. */
  datatype Profile = Profile(cpuQuota: string, hostMemory: nat, pids: nat)

  function LimitsFor(p: Profile): map<string, string> {
    map["cpu.max" := p.cpuQuota, "memory.max" := Decimal.Print(p.hostMemory), "memory.swap.max" := "0",
        "pids.max" := Decimal.Print(p.pids), "memory.oom.group" := "1"]
  }

  const LIMITS := {"cpu.max", "memory.max", "memory.swap.max", "pids.max", "memory.oom.group"}

  const SUBTREE := "cgroup.subtree_control"

  datatype Record = Record(profile: string, worker: string)

  /** A control group with the files written so far and the groups below it. */
  datatype Group = Group(files: map<string, string>, subs: seq<string>)

  datatype State = State(records: map<string, Record>, groups: map<string, Group>)

  /** What the node answers at one moment: the groups that hold processes, whether the processes
      are the expected ones, and whether the engine confirms the worker. */
  datatype Moment = Moment(fault: Fault, busy: set<(string, string)>, attested: bool, owned: bool)

  const ROOT := ""

  predicate IsAllocation(id: string) {
    |id| == 32 && forall c | c in id :: Hex.IsDigit(c)
  }

  predicate IsWorker(id: string) {
    |id| == 64 && forall c | c in id :: Hex.IsDigit(c)
  }

  /** Allocations are named by 16 bytes, workers by 32. */
  lemma IdsAreEncodings(id: string)
    ensures IsAllocation(id) <==> exists bytes: seq<Hex.Byte> :: |bytes| == 16 && Hex.Encode(bytes) == id
    ensures IsWorker(id) <==> exists bytes: seq<Hex.Byte> :: |bytes| == 32 && Hex.Encode(bytes) == id
  {
    Hex.EncodingsAre(id, 16);
    Hex.EncodingsAre(id, 32);
  }

  predicate HasLimits(g: Group, limits: map<string, string>) {
    forall name | name in limits :: name in g.files && g.files[name] == limits[name]
  }

  /** The envelope holds a worker to its profile: the limits are the profile's numbers in decimal. */
  ghost predicate Enforces(g: Group, p: Profile) {
    && "cpu.max" in g.files && g.files["cpu.max"] == p.cpuQuota
    && "memory.max" in g.files && Decimal.AllDigits(g.files["memory.max"])
    && Decimal.ValueOf(g.files["memory.max"]) == p.hostMemory
    && "pids.max" in g.files && Decimal.AllDigits(g.files["pids.max"])
    && Decimal.ValueOf(g.files["pids.max"]) == p.pids
    && "memory.swap.max" in g.files && g.files["memory.swap.max"] == "0"
    && "memory.oom.group" in g.files && g.files["memory.oom.group"] == "1"
  }

  /** Nothing is limited but what the profile limits. */
  ghost predicate OnlyLimits(g: Group) {
    g.files.Keys == LIMITS + {SUBTREE}
  }

  lemma LimitNames()
    ensures |"cpu.max"| == 7 && |"pids.max"| == 8 && |"memory.max"| == 10
    ensures |"memory.swap.max"| == 15 && |"memory.oom.group"| == 16
  {
  }

  /** An envelope with its limits enforces the profile they were made for, and there is no other limit. */
  lemma LimitsEnforceProfile(g: Group, p: Profile)
    requires HasLimits(g, LimitsFor(p))
    ensures Enforces(g, p)
    ensures LimitsFor(p).Keys == LIMITS
  {
    LimitNames();
    var limits := LimitsFor(p);
    assert limits["cpu.max"] == p.cpuQuota && limits["memory.swap.max"] == "0" && limits["memory.oom.group"] == "1";
    assert limits["memory.max"] == Decimal.Print(p.hostMemory) && limits["pids.max"] == Decimal.Print(p.pids);
    Decimal.PrintedValue(p.hostMemory);
    Decimal.PrintedValue(p.pids);
  }

  /** Two profiles that differ never share an envelope. */
  lemma EnvelopeTellsProfile(g: Group, p: Profile, q: Profile)
    requires HasLimits(g, LimitsFor(p))
    ensures HasLimits(g, LimitsFor(q)) <==> p == q
  {
    LimitsEnforceProfile(g, p);
    if HasLimits(g, LimitsFor(q)) {
      LimitsEnforceProfile(g, q);
    }
  }

  /** The files after all limits but those still to do have been written. */
  ghost predicate PartWritten(files: map<string, string>, was: map<string, string>, limits: map<string, string>,
        todo: set<string>) {
    files == was + map name | name in limits && name !in todo :: limits[name]
  }

  lemma NothingWritten(files: map<string, string>, limits: map<string, string>)
    ensures PartWritten(files, files, limits, limits.Keys)
  {
  }

  lemma OneMoreWritten(files: map<string, string>, was: map<string, string>, limits: map<string, string>,
        todo: set<string>, name: string)
    requires PartWritten(files, was, limits, todo) && name in todo && name in limits
    ensures PartWritten(files[name := limits[name]], was, limits, todo - {name})
  {
  }

  lemma AllWritten(g: Group, was: map<string, string>, limits: map<string, string>)
    requires PartWritten(g.files, was, limits, {})
    ensures HasLimits(g, limits) && g.files.Keys == was.Keys + limits.Keys
  {
  }

  lemma SubtreeIsNoLimit(g: Group, value: string, p: Profile)
    requires HasLimits(g, LimitsFor(p))
    ensures HasLimits(g.(files := g.files[SUBTREE := value]), LimitsFor(p))
  {
    var limits := LimitsFor(p);
    forall name | name in limits ensures name != SUBTREE {
      assert |SUBTREE| == 22 && |"memory.oom.group"| == 16 && |"memory.swap.max"| == 15;
    }
  }

  predicate KnownBelow(sub: string, worker: string) {
    sub == worker || sub == "kata_" + worker || sub == "supervisor"
  }

  /** Below an envelope there may be the groups of its own worker and of the supervisor, by name. */
  ghost predicate OwnGroups(subs: seq<string>, worker: string) {
    forall sub | sub in subs :: sub in [worker, "kata_" + worker, "supervisor"]
  }

  lemma OwnGroupsAreKnown(subs: seq<string>, worker: string)
    ensures OwnGroups(subs, worker) <==> forall sub | sub in subs :: KnownBelow(sub, worker)
  {
  }

  /** The group of the supervisor is one of those. */
  lemma WithSupervisor(g: Group, limits: map<string, string>, worker: string)
    requires HasLimits(g, limits) && forall sub | sub in g.subs :: KnownBelow(sub, worker)
    ensures var h := g.(subs := g.subs + ["supervisor"]);
            HasLimits(h, limits) && forall sub | sub in h.subs :: KnownBelow(sub, worker)
  {
  }

  /** Every envelope is accounted for, and there are no more than the node admits. */
  ghost predicate Accounted(s: State, maxWorkers: nat) {
    s.groups.Keys <= s.records.Keys && |s.groups| <= maxWorkers
  }

  /** A record that lives on keeps its profile, and its worker once it has one. */
  ghost predicate RecordKept(s: State, t: State, id: string) {
    id in s.records && id in t.records ==>
      && s.records[id].profile == t.records[id].profile
      && (s.records[id].worker != "" ==> s.records[id].worker == t.records[id].worker)
  }

  ghost predicate Kept(s: State, t: State) {
    forall id :: RecordKept(s, t, id)
  }

  /** Nothing about any other allocation changes. */
  ghost predicate OnlyAt(id: string, s: State, t: State) {
    s.records - {id} == t.records - {id} && s.groups - {id} == t.groups - {id}
  }

  lemma SameIsOnlyAt(id: string, s: State)
    ensures OnlyAt(id, s, s)
  {
  }

  lemma OnlyAtChains(id: string, s: State, t: State, u: State)
    requires OnlyAt(id, s, t) && OnlyAt(id, t, u)
    ensures OnlyAt(id, s, u)
  {
  }

  ghost predicate SoundTrail(trail: seq<State>, maxWorkers: nat) {
    && (forall k | 0 <= k < |trail| :: Accounted(trail[k], maxWorkers))
    && (forall k | 0 < k < |trail| :: Kept(trail[k - 1], trail[k]))
  }

  lemma TrailGrows(trail: seq<State>, s: State, maxWorkers: nat)
    requires trail != [] && SoundTrail(trail, maxWorkers)
    requires Accounted(s, maxWorkers) && Kept(trail[|trail| - 1], s)
    ensures SoundTrail(trail + [s], maxWorkers)
  {
    hide Accounted, Kept;
  }

  /** Over any stretch of the trail during which a record lives, its profile never changes and a
      worker once bound stays bound. */
  lemma {:induction false} RecordFixedWhileItLives(trail: seq<State>, maxWorkers: nat, id: string, i: nat, j: nat)
    requires SoundTrail(trail, maxWorkers) && i <= j < |trail|
    requires forall k | i <= k <= j :: id in trail[k].records
    ensures trail[i].records[id].profile == trail[j].records[id].profile
    ensures trail[i].records[id].worker != "" ==> trail[i].records[id].worker == trail[j].records[id].worker
    decreases j
  {
    hide Accounted;
    if i < j {
      RecordFixedWhileItLives(trail, maxWorkers, id, i, j - 1);
      assert RecordKept(trail[j - 1], trail[j], id);
    }
  }

  /** Changing an envelope that exists, or making one while there is room, keeps the account. */
  lemma GroupSet(s: State, id: string, g: Group, maxWorkers: nat)
    requires Accounted(s, maxWorkers) && id in s.records && (id in s.groups || |s.groups| < maxWorkers)
    ensures Accounted(s.(groups := s.groups[id := g]), maxWorkers) && Kept(s, s.(groups := s.groups[id := g]))
  {
    var after := s.groups[id := g];
    assert after.Keys == s.groups.Keys + {id};
    SizeIsKeys(s.groups);
    SizeIsKeys(after);
  }

  lemma GroupDropped(s: State, id: string, maxWorkers: nat)
    requires Accounted(s, maxWorkers)
    ensures Accounted(s.(groups := s.groups - {id}), maxWorkers) && Kept(s, s.(groups := s.groups - {id}))
  {
    var after := s.groups - {id};
    assert after.Keys == s.groups.Keys - {id};
    SizeIsKeys(s.groups);
    SizeIsKeys(after);
  }

  lemma RecordSet(s: State, id: string, r: Record, maxWorkers: nat)
    requires Accounted(s, maxWorkers) && RecordKept(s, s.(records := s.records[id := r]), id)
    ensures Accounted(s.(records := s.records[id := r]), maxWorkers) && Kept(s, s.(records := s.records[id := r]))
  {
  }

  lemma RecordDropped(s: State, id: string, maxWorkers: nat)
    requires Accounted(s, maxWorkers) && id !in s.groups
    ensures Accounted(s.(records := s.records - {id}), maxWorkers) && Kept(s, s.(records := s.records - {id}))
  {
  }

  /** A reservation stopped between making its envelope and the first limit. */
  function Bare(s: State, id: string, profile: string): State {
    State(if id in s.records then s.records else s.records[id := Record(profile, "")], s.groups[id := Group(map[], [])])
  }

  class Guard {
    const maxWorkers: nat
    /** Every resource profile the node knows. */
    const profiles: map<string, Profile>
    const world: nat -> Moment
    var clock: nat
    var records: map<string, Record>
    var groups: map<string, Group>
    ghost var trail: seq<State>

    constructor (maxWorkers: nat, profiles: map<string, Profile>, world: nat -> Moment, records: map<string, Record>,
          groups: map<string, Group>)
      requires Accounted(State(records, groups), maxWorkers)
      ensures Valid() && this.maxWorkers == maxWorkers && this.profiles == profiles && this.world == world
      ensures Now() == State(records, groups) && trail == [Now()]
    {
      this.maxWorkers := maxWorkers;
      this.profiles := profiles;
      this.world := world;
      this.clock := 0;
      this.records := records;
      this.groups := groups;
      this.trail := [State(records, groups)];
    }

    /** A guard that starts again after the other one stopped at some moment of its trail. */
    constructor Restarted(was: Guard, ghost k: nat, state: State, world: nat -> Moment)
      requires was.Valid() && k < |was.trail| && was.trail[k] == state
      ensures Valid() && maxWorkers == was.maxWorkers && profiles == was.profiles && this.world == world
      ensures Now() == state && trail == was.trail[..k + 1]
    {
      this.maxWorkers := was.maxWorkers;
      this.profiles := was.profiles;
      this.world := world;
      this.clock := 0;
      this.records := state.records;
      this.groups := state.groups;
      this.trail := was.trail[..k + 1];
    }

    /** Control groups do not survive the host; records do. */
    method Reboot()
      requires Valid()
      modifies this`groups, this`trail
      ensures Valid() && old(trail) <= trail && groups == map[]
    {
      Sound();
      assert Accounted(State(records, map[]), maxWorkers) && Kept(Now(), State(records, map[]));
      groups := map[];
      Log();
    }

    ghost function Now(): State
      reads this
    {
      State(records, groups)
    }

    ghost predicate Valid()
      reads this
    {
      trail != [] && trail[|trail| - 1] == Now() && SoundTrail(trail, maxWorkers)
    }

    /** No error and no process gets in the way. */
    ghost predicate Calm() {
      forall n :: world(n).fault.Fine? && world(n).busy == {}
    }

    lemma Sound()
      requires Valid()
      ensures Accounted(Now(), maxWorkers)
    {
    }

    lemma InRecords(id: string)
      requires Valid() && id in groups
      ensures id in records
    {
      Sound();
    }

    /** The node vouches for the worker whenever it is asked. */
    ghost predicate Attested() {
      forall n :: world(n).attested && world(n).owned
    }

    ghost method Log()
      requires trail != [] && SoundTrail(trail, maxWorkers)
      requires Accounted(Now(), maxWorkers) && Kept(trail[|trail| - 1], Now())
      modifies this`trail
      ensures Valid() && old(trail) <= trail
    {
      TrailGrows(trail, Now(), maxWorkers);
      trail := trail + [Now()];
    }

    method Observe() returns (m: Moment)
      modifies this`clock
      ensures m == world(old(clock)) && clock == old(clock) + 1
    {
      m := world(clock);
      clock := clock + 1;
    }

    method WriteRecord(id: string, r: Record) returns (ok: bool)
      requires Valid() && RecordKept(Now(), State(records[id := r], groups), id)
      modifies this`clock, this`records, this`trail
      ensures Valid() && old(trail) <= trail
      ensures records == old(records) || records == old(records)[id := r]
      ensures ok ==> records == old(records)[id := r]
      ensures Calm() ==> ok
    {
      hide Accounted, Kept, SoundTrail;
      var m := Observe();
      if !m.fault.Lost? {
        Sound();
        RecordSet(Now(), id, r, maxWorkers);
        records := records[id := r];
        Log();
      }
      ok := m.fault.Fine?;
    }

    method RemoveRecord(id: string) returns (ok: bool)
      requires Valid() && id !in groups
      modifies this`clock, this`records, this`trail
      ensures Valid() && old(trail) <= trail && clock > old(clock)
      ensures records == old(records) || records == old(records) - {id}
      ensures ok ==> records == old(records) - {id}
      ensures Calm() ==> ok
    {
      hide Accounted, Kept, SoundTrail;
      var m := Observe();
      if !m.fault.Lost? {
        Sound();
        RecordDropped(Now(), id, maxWorkers);
        records := records - {id};
        Log();
      }
      ok := m.fault.Fine?;
    }

    method MakeGroup(id: string) returns (ok: bool)
      requires Valid() && id !in groups && id in records && |groups| < maxWorkers
      modifies this`clock, this`groups, this`trail
      ensures Valid() && old(trail) <= trail && OnlyAt(id, old(Now()), Now())
      ensures groups == old(groups) || groups == old(groups)[id := Group(map[], [])]
      ensures ok ==> groups == old(groups)[id := Group(map[], [])]
      ensures Calm() ==> ok
    {
      hide Accounted, Kept, SoundTrail;
      var m := Observe();
      if !m.fault.Lost? {
        Sound();
        GroupSet(Now(), id, Group(map[], []), maxWorkers);
        groups := groups[id := Group(map[], [])];
        Log();
      }
      ok := m.fault.Fine?;
    }

    method WriteLimit(id: string, name: string, value: string) returns (ok: bool)
      requires Valid() && id in groups
      modifies this`clock, this`groups, this`trail
      ensures Valid() && old(trail) <= trail && OnlyAt(id, old(Now()), Now())
      ensures groups == old(groups) ||
              groups == old(groups)[id := old(groups)[id].(files := old(groups)[id].files[name := value])]
      ensures ok ==> groups == old(groups)[id := old(groups)[id].(files := old(groups)[id].files[name := value])]
      ensures Calm() ==> ok
    {
      hide Accounted, Kept, SoundTrail;
      var m := Observe();
      if !m.fault.Lost? {
        var g := groups[id].(files := groups[id].files[name := value]);
        Sound();
        InRecords(id);
        GroupSet(Now(), id, g, maxWorkers);
        groups := groups[id := g];
        Log();
      }
      ok := m.fault.Fine?;
    }

    /** The kernel keeps a group that has processes, or groups below it. */
    method RemoveGroup(id: string) returns (ok: bool)
      requires Valid()
      modifies this`clock, this`groups, this`trail
      ensures Valid() && old(trail) <= trail && clock > old(clock)
      ensures groups == old(groups) || (id in old(groups) && groups == old(groups) - {id})
      ensures id in old(groups) && old(groups)[id].subs != [] ==> !ok && groups == old(groups)
      ensures id in old(groups) && (id, ROOT) in world(old(clock)).busy ==> !ok && groups == old(groups)
      ensures ok ==> id in old(groups) && groups == old(groups) - {id}
      ensures Calm() && id in old(groups) && old(groups)[id].subs == [] ==> ok
    {
      hide Accounted, Kept, SoundTrail;
      var m := Observe();
      if id !in groups || (id, ROOT) in m.busy || groups[id].subs != [] || m.fault.Lost? {
        return false;
      }
      Sound();
      GroupDropped(Now(), id, maxWorkers);
      groups := groups - {id};
      Log();
      ok := m.fault.Fine?;
    }

    /** Removes the last of the groups below. */
    method RemoveSub(id: string) returns (ok: bool)
      requires Valid() && id in groups && groups[id].subs != []
      modifies this`clock, this`groups, this`trail
      ensures Valid() && old(trail) <= trail && clock > old(clock)
      ensures var subs := old(groups)[id].subs;
              var without := old(groups)[id := old(groups)[id].(subs := subs[..|subs| - 1])];
              && (groups == old(groups) || groups == without)
              && (ok ==> groups == without)
              && ((id, subs[|subs| - 1]) in world(old(clock)).busy ==> !ok && groups == old(groups))
      ensures Calm() ==> ok
    {
      hide Accounted, Kept, SoundTrail;
      var m := Observe();
      var subs := groups[id].subs;
      if (id, subs[|subs| - 1]) in m.busy || m.fault.Lost? {
        return false;
      }
      var g := groups[id].(subs := subs[..|subs| - 1]);
      Sound();
      InRecords(id);
      GroupSet(Now(), id, g, maxWorkers);
      groups := groups[id := g];
      Log();
      ok := m.fault.Fine?;
    }

    /** A record can be used while its profile is known. */
    predicate Readable(id: string)
      reads this
    {
      IsAllocation(id) && id in records && records[id].profile in profiles
    }

    /** The group exists with exactly the limits its record stands for. */
    predicate LimitsOk(id: string)
      reads this
    {
      Readable(id) && id in groups && HasLimits(groups[id], LimitsFor(profiles[records[id].profile]))
    }

    /** trackAllocation: the first write creates the record, later ones may bind a worker. */
    method Track(id: string, worker: string, requested: string) returns (ok: bool)
      requires Valid()
      modifies this`clock, this`records, this`trail
      ensures Valid() && old(trail) <= trail && OnlyAt(id, old(Now()), Now())
      ensures records == old(records) || (id in records && records == old(records)[id := records[id]])
      ensures id !in old(records) && id in records && requested != "" ==> records[id].profile == requested
      ensures id !in old(records) && id in records && requested == "" ==> records[id].profile == "standard"
      ensures id !in old(records) && id in records && worker == "" ==> records[id].worker == ""
      ensures ok ==> id in records && records[id].profile in profiles
      ensures ok && requested != "" ==> records[id].profile == requested
      ensures ok && worker != "" ==> records[id].worker == worker
      ensures ok && worker != "" && id in old(records) ==>
              records == old(records)[id := old(records)[id].(worker := worker)]
      ensures worker == "" && id in old(records) ==> records == old(records)
      ensures id in old(records) && worker != "" && old(records)[id].worker !in ["", worker] ==>
              !ok && records == old(records)
      ensures id in old(records) && requested != "" && old(records)[id].profile != requested ==>
              !ok && records == old(records)
      ensures Calm() && Attested() && requested == "" && old(Readable(id)) && !old(BoundToOther(id, worker)) ==> ok
      ensures (Calm() && worker == "" && requested in profiles && requested != "" &&
               (id in old(records) ==> old(records)[id].profile == requested)) ==> ok
    {
      hide Accounted, Kept, SoundTrail;
      var r;
      if id !in records {
        var profile := if requested != "" then requested else "standard";
        if profile !in profiles {
          return false;
        }
        r := Record(profile, "");
      } else if records[id].profile !in profiles {
        return false;
      } else {
        r := records[id];
      }
      if requested != "" && requested != r.profile {
        return false;
      }
      if r.worker != "" && worker != "" && r.worker != worker {
        return false;
      }
      if worker != "" {
        var m := Observe();
        if !m.owned {
          return false;
        }
        r := r.(worker := worker);
      }
      ok := WriteRecord(id, r);
    }

    /** Writes the limits in any order; the first error ends it. */
    method WriteLimits(id: string, limits: map<string, string>) returns (ok: bool)
      requires Valid() && id in groups && groups[id].subs == []
      modifies this`clock, this`groups, this`trail
      ensures Valid() && old(trail) <= trail && OnlyAt(id, old(Now()), Now())
      ensures id in groups && groups[id].subs == [] && groups.Keys == old(groups.Keys)
      ensures ok ==> HasLimits(groups[id], limits) && groups[id].files.Keys == old(groups)[id].files.Keys + limits.Keys
      ensures Calm() ==> ok
    {
      hide Accounted, Kept, SoundTrail, PartWritten, HasLimits, OnlyAt;
      NothingWritten(groups[id].files, limits);
      SameIsOnlyAt(id, Now());
      var todo := limits.Keys;
      while todo != {}
        invariant Valid() && old(trail) <= trail && OnlyAt(id, old(Now()), Now())
        invariant id in groups && groups[id].subs == [] && groups.Keys == old(groups.Keys) && todo <= limits.Keys
        invariant PartWritten(groups[id].files, old(groups)[id].files, limits, todo)
        decreases |todo|
      {
        var name :| name in todo;
        OneMoreWritten(groups[id].files, old(groups)[id].files, limits, todo, name);
        todo := todo - {name};
        ghost var before := Now();
        var wrote := WriteLimit(id, name, limits[name]);
        OnlyAtChains(id, old(Now()), before, Now());
        if !wrote {
          return false;
        }
      }
      AllWritten(groups[id], old(groups)[id].files, limits);
      ok := true;
    }

    /** Gives a new envelope its limits, or takes it away again. */
    method Furnish(id: string, profile: string) returns (ok: bool)
      requires Valid() && id in groups && groups[id].subs == []
      requires IsAllocation(id) && id in records && records[id].profile == profile && profile in profiles
      modifies this`clock, this`groups, this`trail
      ensures Valid() && old(trail) <= trail && OnlyAt(id, old(Now()), Now())
      ensures ok ==> LimitsOk(id)
      ensures ok && old(groups)[id].files == map[] ==> OnlyLimits(groups[id])
      ensures Calm() ==> ok
    {
      hide Accounted, Kept, SoundTrail, HasLimits, LimitsFor, IsAllocation;
      ok := WriteLimits(id, LimitsFor(profiles[profile]));
      if !ok || !LimitsOk(id) {
        var removed := RemoveGroup(id);
        return false;
      }
      SubtreeIsNoLimit(groups[id], "+cpu +memory +pids", profiles[profile]);
      LimitsEnforceProfile(groups[id], profiles[profile]);
      ok := WriteLimit(id, SUBTREE, "+cpu +memory +pids");
      if !ok {
        var removed := RemoveGroup(id);
      }
    }

    /** What a reservation needs from the node when nothing else goes wrong. */
    ghost predicate Admits(id: string, profile: string)
      reads this
    {
      && IsAllocation(id) && profile in profiles && profile != ""
      && (id in records ==> records[id].profile == profile)
      && (if id in groups then LimitsOk(id) else |groups| < maxWorkers)
    }

    /** This state was durable at some moment. */
    ghost predicate Passed(from: nat, s: State)
      reads this
    {
      exists k :: from <= k < |trail| && trail[k] == s
    }

    /** The record comes first, so that an interrupted creation can be found. */
    method Begin(id: string, profile: string) returns (ok: bool)
      requires Valid() && IsAllocation(id) && profile in profiles && profile != "" && id !in groups
      requires |groups| < maxWorkers
      modifies this`clock, this`records, this`groups, this`trail
      ensures Valid() && old(trail) <= trail && OnlyAt(id, old(Now()), Now())
      ensures ok ==> id in groups && groups[id] == Group(map[], []) && id in records && records[id].profile == profile
      ensures id in old(records) ==> records == old(records)
      ensures id in groups ==> Now() == Bare(old(Now()), id, profile) && |trail| > |old(trail)|
      ensures id in old(records) && old(records)[id].profile != profile ==> !ok && Now() == old(Now())
      ensures Calm() && (id in old(records) ==> old(records)[id].profile == profile) ==> ok
    {
      hide Accounted, Kept, SoundTrail, HasLimits, LimitsFor, IsAllocation, OnlyAt;
      ghost var s := Now();
      SameIsOnlyAt(id, s);
      ok := Track(id, "", profile);
      if !ok {
        return;
      }
      ghost var tracked := Now();
      ok := MakeGroup(id);
      OnlyAtChains(id, s, tracked, Now());
      assert id in groups ==> |trail| > |old(trail)| by {
        if |trail| == |old(trail)| {
          assert trail == old(trail);
        }
      }
    }

    method Create(id: string, profile: string) returns (ok: bool)
      requires Valid() && IsAllocation(id) && profile in profiles && profile != "" && id !in groups
      modifies this`clock, this`records, this`groups, this`trail
      ensures Valid() && old(trail) <= trail && OnlyAt(id, old(Now()), Now())
      ensures ok ==> LimitsOk(id) && records[id].profile == profile
      ensures ok ==> OnlyLimits(groups[id])
      ensures id in old(records) ==> records == old(records)
      ensures id in groups ==> Passed(|old(trail)|, Bare(old(Now()), id, profile))
      ensures |old(groups)| >= maxWorkers ==> !ok && Now() == old(Now())
      ensures id in old(records) && old(records)[id].profile != profile ==> !ok && Now() == old(Now())
      ensures Calm() && |old(groups)| < maxWorkers && (id in old(records) ==> old(records)[id].profile == profile) ==>
              ok
    {
      hide Accounted, Kept, SoundTrail, HasLimits, LimitsFor, IsAllocation, OnlyAt, OnlyLimits;
      ghost var s := Now();
      SameIsOnlyAt(id, s);
      if |groups| >= maxWorkers {
        return false;
      }
      ok := Begin(id, profile);
      if !ok {
        return;
      }
      ghost var made, bare := |trail| - 1, Now();
      ok := Furnish(id, profile);
      OnlyAtChains(id, s, bare, Now());
      assert trail[made] == bare;
    }

    /** A failed reservation may leave its record and a half made envelope behind, never an envelope
        without a record, and never one too many. */
    method Reserve(id: string, profile: string) returns (ok: bool)
      requires Valid()
      modifies this`clock, this`records, this`groups, this`trail
      ensures Valid() && old(trail) <= trail && OnlyAt(id, old(Now()), Now())
      ensures ok ==> LimitsOk(id) && records[id].profile == profile && Enforces(groups[id], profiles[profile])
      ensures ok && id !in old(groups) ==> OnlyLimits(groups[id])
      ensures id in old(records) ==> records == old(records)
      ensures id in old(groups) ==> groups == old(groups)
      ensures id !in old(groups) && id in groups ==> Passed(|old(trail)|, Bare(old(Now()), id, profile))
      ensures id !in old(groups) && |old(groups)| >= maxWorkers ==> !ok && Now() == old(Now())
      ensures id in old(records) && old(records)[id].profile != profile ==> !ok && Now() == old(Now())
      ensures id in old(groups) && !old(LimitsOk(id)) ==> !ok && Now() == old(Now())
      ensures Calm() && old(Admits(id, profile)) ==> ok
    {
      hide Accounted, Kept, SoundTrail, HasLimits, LimitsFor, IsAllocation, Enforces, OnlyLimits;
      if profile !in profiles || profile == "" || !IsAllocation(id) {
        return false;
      }
      if id in groups {
        var m := Observe();
        if !LimitsOk(id) || exists b :: b in m.busy && b.0 == id {
          return false;
        }
        ok := Track(id, "", profile);
      } else {
        ok := Create(id, profile);
      }
      if ok {
        LimitsEnforceProfile(groups[id], profiles[profile]);
      }
    }

    /** Every group of the envelope is one this worker may have. */
    predicate Walkable(id: string, worker: string)
      reads this
    {
      LimitsOk(id) && forall sub | sub in groups[id].subs :: KnownBelow(sub, worker)
    }

    predicate BoundToOther(id: string, worker: string)
      reads this
    {
      id in records && records[id].worker != "" && worker != "" && records[id].worker != worker
    }

    /** Keeps the worker's supervisor out of the groups it deletes itself. */
    method Retire(id: string, worker: string) returns (ok: bool)
      requires Valid()
      modifies this`clock, this`groups, this`trail
      ensures Valid() && old(trail) <= trail && OnlyAt(id, old(Now()), Now())
      ensures groups.Keys == old(groups.Keys) && (id in groups ==> groups[id].files == old(groups)[id].files)
      ensures (Calm() && Attested() && IsWorker(worker) && old(Walkable(id, worker)) &&
               old(records[id].worker) in ["", worker]) ==> ok
      ensures ok ==> id in records && id in groups && Walkable(id, worker)
      ensures !old(Walkable(id, worker)) ==> !ok && Now() == old(Now())
    {
      hide Accounted, Kept, SoundTrail, HasLimits, LimitsFor, IsAllocation, IsWorker, KnownBelow;
      if !Readable(id) || (records[id].worker != "" && records[id].worker != worker) {
        return false;
      }
      var m := Observe();
      if !IsWorker(worker) || !Walkable(id, worker) || !m.attested {
        return false;
      }
      if !exists b :: b in m.busy && b.0 == id {
        return true;
      }
      var after := Observe();
      if "supervisor" !in groups[id].subs && !after.fault.Lost? {
        var g := groups[id].(subs := groups[id].subs + ["supervisor"]);
        WithSupervisor(groups[id], LimitsFor(profiles[records[id].profile]), worker);
        Sound();
        GroupSet(Now(), id, g, maxWorkers);
        groups := groups[id := g];
        Log();
      }
      ok := after.fault.Fine?;
    }

    /** After a failed start: the processes of an attested envelope are killed. What the ledger and the
        control groups hold stays as it is. */
    method AbortCreate(id: string, worker: string) returns (ok: bool)
      requires Valid()
      modifies this`clock
      ensures ok ==> Readable(id) && records[id].worker in ["", worker]
      ensures id in groups && !Walkable(id, worker) ==> !ok
      ensures Readable(id) && records[id].worker in ["", worker] && id !in groups ==> ok
      ensures (Calm() && Attested() && IsWorker(worker) && Walkable(id, worker) &&
               records[id].worker in ["", worker]) ==> ok
    {
      hide Accounted, Kept, SoundTrail, HasLimits, LimitsFor, IsAllocation, IsWorker, KnownBelow;
      if !Readable(id) || (records[id].worker != "" && records[id].worker != worker) {
        return false;
      }
      if id !in groups {
        return true;
      }
      var m := Observe();
      ok := IsWorker(worker) && Walkable(id, worker) && m.attested && m.fault.Fine?;
    }

    /** Binds the worker once its processes are attested. */
    method Verify(id: string, worker: string) returns (ok: bool)
      requires Valid()
      modifies this`clock, this`records, this`groups, this`trail
      ensures Valid() && old(trail) <= trail && OnlyAt(id, old(Now()), Now())
      ensures groups.Keys == old(groups.Keys) && (id in groups ==> groups[id].files == old(groups)[id].files)
      ensures ok ==> id in groups && id in old(records)
      ensures ok ==> records == old(records)[id := old(records)[id].(worker := worker)]
      ensures (Calm() && Attested() && IsWorker(worker) && old(Walkable(id, worker)) &&
               !old(BoundToOther(id, worker))) ==> ok
      ensures old(BoundToOther(id, worker)) || !old(Walkable(id, worker)) ==> !ok && Now() == old(Now())
      ensures (Calm() && Attested() && IsWorker(worker) && old(LimitsOk(id)) &&
               old(records[id].worker) in ["", worker] && OwnGroups(old(groups[id].subs), worker)) ==> ok
      ensures ok ==> OwnGroups(old(groups[id].subs), worker) && old(records[id].worker) in ["", worker]
    {
      hide Accounted, Kept, SoundTrail, HasLimits, LimitsFor, IsAllocation, IsWorker, KnownBelow;
      if id in groups {
        OwnGroupsAreKnown(groups[id].subs, worker);
      }
      var m := Observe();
      if !IsWorker(worker) || !Walkable(id, worker) || !m.attested {
        return false;
      }
      assert worker != "" by {
        NoWorkerIsNoWorker();
      }
      ok := Track(id, worker, "");
      if !ok {
        return;
      }
      ok := Retire(id, worker);
    }

    lemma NoWorkerIsNoWorker()
      ensures !IsWorker("")
    {
    }

    /** No process anywhere in the envelope. */
    ghost predicate IdleBetween(id: string, from: nat, to: nat) {
      exists n :: from <= n < to && forall b | b in world(n).busy :: b.0 != id
    }

    /** Removes an idle envelope, deepest group first, and then its record. */
    method Dismantle(id: string) returns (ok: bool)
      requires Valid() && id in groups
      modifies this`clock, this`records, this`groups, this`trail
      ensures Valid() && old(trail) <= trail && OnlyAt(id, old(Now()), Now()) && clock >= old(clock)
      ensures ok ==> id !in records && id !in groups
      ensures id in groups ==> records == old(records)
      ensures id in records ==> records == old(records)
      ensures Calm() ==> ok
    {
      hide Accounted, Kept, SoundTrail;
      while groups[id].subs != []
        invariant Valid() && old(trail) <= trail && OnlyAt(id, old(Now()), Now()) && clock >= old(clock)
        invariant id in groups && records == old(records)
        decreases |groups[id].subs|
      {
        ok := RemoveSub(id);
        if !ok {
          return;
        }
      }
      ok := RemoveGroup(id);
      if ok {
        ok := RemoveRecord(id);
      }
    }

    ghost predicate Releasable(id: string, worker: string)
      reads this
    {
      && IsAllocation(id) && !BoundToOther(id, worker)
      && (id in records ==> Readable(id)) && (id in groups ==> Walkable(id, worker))
    }

    /** Releases an allocation, waiting a limited number of rounds for its processes to go. It never
        takes an envelope in which it still saw a process, and only forgets one that is gone. */
    method Release(id: string, worker: string, rounds: nat) returns (ok: bool)
      requires Valid()
      modifies this`clock, this`records, this`groups, this`trail
      ensures Valid() && old(trail) <= trail && OnlyAt(id, old(Now()), Now())
      ensures ok ==> id !in records && id !in groups
      ensures id in groups || id in records ==> records == old(records)
      ensures id in old(groups) && id !in groups ==> IdleBetween(id, old(clock), clock)
      ensures old(BoundToOther(id, worker)) ==> !ok && Now() == old(Now())
      ensures id in old(groups) && !old(Walkable(id, worker)) ==> !ok && Now() == old(Now())
      ensures !old(Releasable(id, worker)) ==> !ok && Now() == old(Now())
      ensures Calm() ==> (ok <==> old(Releasable(id, worker)))
    {
      hide Accounted, Kept, SoundTrail, HasLimits, LimitsFor, IsAllocation, KnownBelow;
      if !IsAllocation(id) || (id in records && !Readable(id)) || BoundToOther(id, worker) {
        return false;
      }
      if id !in groups {
        ok := RemoveRecord(id);
        return;
      }
      var left := rounds;
      while true
        invariant Valid() && old(trail) <= trail && Now() == old(Now()) && clock >= old(clock) &&
                  Now() == trail[|trail| - 1]
        decreases left
      {
        if !Walkable(id, worker) {
          return false;
        }
        var m := Observe();
        if !exists b :: b in m.busy && b.0 == id {
          assert IdleBetween(id, old(clock), clock) by {
            assert world(clock - 1) == m;
          }
          ok := Dismantle(id);
          return;
        }
        if left == 0 {
          return false;
        }
        left := left - 1;
      }
    }

    /** An envelope without its limits is beyond every operation. */
    ghost predicate Stuck(id: string)
      reads this
    {
      id in groups && !LimitsOk(id)
    }

    method Handle(request: Request)
      requires Valid()
      modifies this`clock, this`records, this`groups, this`trail
      ensures Valid() && old(trail) <= trail
      ensures forall id | old(Stuck(id)) :: StillThere(id, old(Now()), Now())
    {
      hide Accounted, Kept, SoundTrail, HasLimits, LimitsFor, IsAllocation, IsWorker, KnownBelow;
      ghost var before := Now();
      var ok;
      match request {
        case Reserving(id, profile) => ok := Reserve(id, profile);
        case Verifying(id, worker) => ok := Verify(id, worker);
        case Releasing(id, worker, rounds) => ok := Release(id, worker, rounds);
        case Retiring(id, worker) => ok := Retire(id, worker);
        case Aborting(id, worker) => ok := AbortCreate(id, worker);
      }
      forall id | old(Stuck(id)) ensures StillThere(id, old(Now()), Now()) {
        if id != request.id {
          StaysElsewhere(request.id, id, before, Now());
        }
      }
    }

    /** A run of the node: whatever is asked, every state on the way is accounted for. An envelope
        that a crash left without its limits keeps its place until the host restarts. */
    method Serve(requests: seq<Request>)
      requires Valid()
      modifies this`clock, this`records, this`groups, this`trail
      ensures Valid() && old(trail) <= trail
      ensures forall id | old(Stuck(id)) :: Stuck(id) && StillThere(id, old(Now()), Now())
    {
      hide Accounted, Kept, SoundTrail, HasLimits, LimitsFor, IsAllocation, IsWorker, KnownBelow;
      for k := 0 to |requests|
        invariant Valid() && old(trail) <= trail
        invariant forall id | old(Stuck(id)) :: Stuck(id) && StillThere(id, old(Now()), Now())
      {
        Handle(requests[k]);
      }
    }
  }

  lemma StaysElsewhere(x: string, id: string, s: State, t: State)
    requires OnlyAt(x, s, t) && id != x && id in s.groups
    ensures StillThere(id, s, t)
  {
    assert id in s.groups - {x} && (id in s.records <==> id in s.records - {x}) &&
           (id in t.records <==> id in t.records - {x});
    assert id in t.groups && t.groups[id] == (t.groups - {x})[id] == s.groups[id];
    assert id in s.records ==> t.records[id] == (t.records - {x})[id] == s.records[id];
  }

  datatype Request =
    | Reserving(id: string, profile: string)
    | Verifying(id: string, worker: string)
    | Releasing(id: string, worker: string, rounds: nat)
    | Retiring(id: string, worker: string)
    | Aborting(id: string, worker: string)

  ghost predicate StillThere(id: string, s: State, t: State) {
    && id in s.groups && id in t.groups && s.groups[id] == t.groups[id]
    && (id in s.records <==> id in t.records) && (id in s.records ==> s.records[id] == t.records[id])
  }

  /** What a release needs, told from a durable state. */
  ghost predicate MayRelease(profiles: map<string, Profile>, s: State, id: string, worker: string) {
    && IsAllocation(id)
    && (id in s.records ==>
          && s.records[id].profile in profiles
          && (s.records[id].worker == "" || worker == "" || s.records[id].worker == worker))
    && (id in s.groups ==>
          && id in s.records && HasLimits(s.groups[id], LimitsFor(profiles[s.records[id].profile]))
          && forall sub | sub in s.groups[id].subs :: KnownBelow(sub, worker))
  }

  /** From every state in which a guard can stop: a release after the restart that meets no fault
      succeeds if and only if the allocation is valid and readable, not bound to another worker, and its
      envelope, if it is there, has all its limits and only known groups. */
  method StopThenRelease(was: Guard, ghost k: nat, state: State, world: nat -> Moment, id: string, worker: string,
        rounds: nat)
    returns (g: Guard, ok: bool)
    requires was.Valid() && k < |was.trail| && was.trail[k] == state
    requires forall n :: world(n).fault.Fine? && world(n).busy == {}
    ensures g.Valid() && (ok <==> MayRelease(was.profiles, state, id, worker))
    ensures if ok then id !in g.records && id !in g.groups else g.Now() == state
  {
    hide Accounted, Kept, SoundTrail, HasLimits, LimitsFor, IsAllocation, KnownBelow;
    g := new Guard.Restarted(was, k, state, world);
    assert g.Releasable(id, worker) <==> MayRelease(was.profiles, state, id, worker);
    ok := g.Release(id, worker, rounds);
  }

  lemma BareIsUnlimited(g: Group, p: Profile)
    requires g.files == map[]
    ensures !HasLimits(g, LimitsFor(p))
  {
    assert "memory.oom.group" in LimitsFor(p);
  }

  const IDLE: nat -> Moment := n => Moment(Fine, {}, true, true)

  /** A node for one worker whose only reservation stopped half way: its place is taken, no request gives
      it back, and nothing else can be reserved. */
  method HalfMadeEnvelope(id: string) returns (g: Guard)
    requires IsAllocation(id)
    ensures g.Valid() && g.Calm() && g.maxWorkers == 1 && g.Stuck(id) && |g.groups| == 1
  {
    hide Accounted, Kept, IsAllocation, HasLimits, LimitsFor;
    var profile := Profile("max", 0, 0);
    assert Accounted(State(map[], map[]), 1) by {
      EmptyIsAccounted();
    }
    var first := new Guard(1, map["standard" := profile], IDLE, map[], map[]);
    assert first.Admits(id, "standard");
    ghost var start := first.Now();
    var ok := first.Reserve(id, "standard");
    var state := State(map[id := Record("standard", "")], map[id := Group(map[], [])]);
    assert Bare(start, id, "standard") == state;
    ghost var k :| 0 <= k < |first.trail| && first.trail[k] == state;
    g := new Guard.Restarted(first, k, state, IDLE);
    BareIsUnlimited(g.groups[id], profile);
  }

  lemma EmptyIsAccounted()
    ensures Accounted(State(map[], map[]), 1)
  {
  }
}
