/** Every run of the launch protocol. One claim, finish or abort at a time holds the mutex, and it goes
    through its stages while workers are created and removed in the engine, reservations are made and
    released, and time passes beside it, in any order. Replies may be lost, records may fail to be
    written, and the node may stop between any two stages. */
module LaunchRuns {
  import opened Options
  import opened LaunchLease

  /** A lease as it was drawn. */
  datatype Mint = Mint(key: string, attempt: nat, at: int)

  /** `minted` records every lease ever put into a reply or a record, `used` every worker id. */
  datatype World = World(
    launches: Launches, stage: Option<Stage>, engine: map<string, Worker>, reserved: set<string>, now: int,
    minted: map<string, Mint>, used: set<string>)

  datatype Event =
    | BeginClaim(key: string, fingerprint: string, alive: bool)
    | BeginFinish(key: string, lease: string, workerId: string)
    | BeginAbort(key: string, lease: string, workerId: string)
    | Look(fails: bool)
    | Survey(inventory: Inventory)
    | Draw(random: Option<string>)
    | Write(write: LaunchLease.Write)
    | Crash
    | Tick(elapsed: nat)
    | Create(name: string, worker: Worker)
    | Remove(name: string)
    | Reserve(key: string)
    | Release(key: string)

  datatype Step = Step(world: World, reply: Option<Reply>)

  const START := World(map[], None, map[], {}, 0, map[], {})

  predicate Begins(e: Event) {
    e.BeginClaim? || e.BeginFinish? || e.BeginAbort?
  }

  /** What happens beside the operation that holds the mutex. */
  predicate Outside(e: Event) {
    e.Tick? || e.Create? || e.Remove? || e.Reserve? || e.Release?
  }

  /** An operation begins when no other one holds the mutex, and its stages follow in order. The
      engine refuses a second worker of the same name and never repeats an id, random leases do not
      repeat, and an inventory that answers reports the reservations that exist. */
  predicate Possible(w: World, e: Event) {
    match e
    case Look(_) => w.stage.Some? && (w.stage.value.Looking? || w.stage.value.Matching?)
    case Survey(inventory) => w.stage.Some? && w.stage.value.Surveying? &&
      (inventory.Reserved? ==> inventory.keys == w.reserved)
    case Draw(random) => w.stage.Some? && w.stage.value.Drawing? &&
      (random.Some? ==> random.value != "" && random.value !in w.minted)
    case Write(_) => w.stage.Some? && w.stage.value.Writing?
    case Create(name, worker) => name !in w.engine && worker.id != "" && worker.id !in w.used
    case _ => Begins(e) ==> w.stage.None?
  }

  function LookupIn(w: World, key: string, fails: bool): Lookup {
    if fails || !IsDigest(key) then LookupFailed
    else if RequestName(key) in w.engine then Present(w.engine[RequestName(key)])
    else Absent
  }

  function LeaseIn(reply: Reply): string {
    if reply.record.Some? then reply.record.value.lease else ""
  }

  function Enter(w: World, stage: Stage): Step {
    if stage.Replied? then Step(w.(stage := None), Some(stage.reply)) else Step(w.(stage := Some(stage)), None)
  }

  function Put(w: World, r: LaunchRecord, write: LaunchLease.Write): Step {
    var out := Store(w.launches, r, write);
    var minted := if r.lease == "" then w.minted else w.minted[r.lease := Mint(r.key, r.attempt, r.updatedAt)];
    Step(w.(launches := out.launches, stage := None, minted := minted), Some(out.reply))
  }

  function Take(w: World, e: Event): Step
    requires Possible(w, e)
  {
    match e
    case BeginClaim(key, fingerprint, alive) => Enter(w, ClaimBegins(w.launches, alive, w.now, key, fingerprint))
    case BeginFinish(key, lease, workerId) => Enter(w, FinishBegins(w.launches, key, lease, workerId))
    case BeginAbort(key, lease, workerId) => Enter(w, AbortBegins(w.launches, w.now, key, lease, workerId))
    case Look(fails) =>
      var found := LookupIn(w, w.stage.value.record.key, fails);
      if w.stage.value.Looking? then Enter(w, ClaimLooks(w.stage.value.record, w.stage.value.isNew, found, w.now))
      else Enter(w, FinishLooks(w.stage.value.record, w.stage.value.workerId, found, w.now))
    case Survey(inventory) => Enter(w, ClaimSurveys(w.stage.value.record, inventory))
    case Draw(random) => Enter(w, ClaimDraws(w.stage.value.record, random, w.now))
    case Write(write) => Put(w, w.stage.value.record, write)
    case Crash => Step(w.(stage := None), None)
    case Tick(elapsed) => Step(w.(now := w.now + elapsed), None)
    case Create(name, worker) => Step(w.(engine := w.engine[name := worker], used := w.used + {worker.id}), None)
    case Remove(name) => Step(w.(engine := w.engine - {name}), None)
    case Reserve(key) => Step(w.(reserved := w.reserved + {key}), None)
    case Release(key) => Step(w.(reserved := w.reserved - {key}), None)
  }

  ghost predicate IsRun(w: World, events: seq<Event>)
    decreases |events|
  {
    events == [] || (Possible(w, events[0]) && IsRun(Take(w, events[0]).world, events[1..]))
  }

  function After(w: World, events: seq<Event>): World
    requires IsRun(w, events)
    decreases |events|
  {
    if events == [] then w else After(Take(w, events[0]).world, events[1..])
  }

  /** A record is pending exactly when it carries a lease, and the lease was handed out for it. */
  ghost predicate RecordOk(w: World, key: string)
    requires key in w.launches
  {
    var r := w.launches[key];
    && r.key == key && IsDigest(key) && IsDigest(r.fingerprint)
    && (r.state.Pending? <==> r.lease != "")
    && (r.state.Pending? ==> r.lease in w.minted && w.minted[r.lease] == Mint(key, r.attempt, r.updatedAt))
    && (Closed(r) <==> r.workerId != "")
  }

  /** The record an operation works on is still the durable one, or the request is still new. */
  ghost predicate Current(w: World, r: LaunchRecord) {
    && IsDigest(r.key) && IsDigest(r.fingerprint)
    && (if r.key in w.launches then r == w.launches[r.key] else r == Blank(r.key, r.fingerprint))
  }

  /** A request whose next lease may be drawn: no lease of it is running. */
  ghost predicate Open(w: World, r: LaunchRecord) {
    !Closed(r) && !Running(r, w.now)
  }

  /** A record about to be written. A lease in it is new, and the last one was given back or ran its
      full period. */
  ghost predicate WritingOk(w: World, r: LaunchRecord) {
    && IsDigest(r.key) && IsDigest(r.fingerprint)
    && (r.state.Pending? <==> r.lease != "") && (Closed(r) <==> r.workerId != "")
    && (r.key in w.launches ==> !Closed(w.launches[r.key]) && Advances(w.launches[r.key], r))
    && (r.lease != "" ==>
          && r.lease !in w.minted && r.updatedAt <= w.now
          && (r.key in w.launches ==> Open(w, w.launches[r.key]) && r.attempt == w.launches[r.key].attempt + 1))
  }

  ghost predicate StageOk(w: World) {
    w.stage.Some? ==>
      match w.stage.value
      case Looking(r, isNew) => Current(w, r) && Open(w, r) && (isNew <==> r.key !in w.launches)
      case Surveying(r) => Current(w, r) && Open(w, r) && r.key in w.launches
      case Drawing(r) => Current(w, r) && Open(w, r)
      case Matching(r, _) => Current(w, r) && r.key in w.launches && r.state.Pending?
      case Writing(r) => WritingOk(w, r)
      case Replied(_) => false
  }

  ghost predicate EngineOk(w: World) {
    forall name | name in w.engine :: w.engine[name].id != "" && w.engine[name].id in w.used
  }

  ghost predicate Inv(w: World) {
    && (forall key | key in w.launches :: RecordOk(w, key))
    && StageOk(w) && EngineOk(w)
    && "" !in w.minted
  }

  /** How a record may change, in one step or in many. */
  predicate Advances(r: LaunchRecord, s: LaunchRecord) {
    && s.key == r.key && s.fingerprint == r.fingerprint
    && s.attempt >= r.attempt
    && (Closed(r) ==> s == r)
    && (s.lease != r.lease && s.lease != "" ==> s.attempt > r.attempt)
  }

  /** A record never takes over a lease that was handed out for anything else. */
  ghost predicate LeaseIsOldOrNew(w: World, v: World, key: string)
    requires key in v.launches
  {
    var lease := v.launches[key].lease;
    lease == "" || (key in w.launches && w.launches[key].lease == lease) || lease !in w.minted
  }

  ghost predicate LaunchesAdvance(w: World, v: World) {
    && (forall key | key in w.launches :: key in v.launches && Advances(w.launches[key], v.launches[key]))
    && (forall key | key in v.launches :: LeaseIsOldOrNew(w, v, key))
    && (forall lease | lease in w.minted :: lease in v.minted && v.minted[lease] == w.minted[lease])
  }

  /** A stage does not touch the records, and leaves the operation at a sound next stage. */
  lemma BeginOk(w: World, e: Event)
    requires Inv(w) && Possible(w, e) && Begins(e)
    ensures StageOk(Take(w, e).world)
    ensures Take(w, e).world == w.(stage := Take(w, e).world.stage)
    ensures Take(w, e).reply.Some? ==> LeaseIn(Take(w, e).reply.value) == ""
  {
    hide LaunchLease.IsDigest;
    if e.key in w.launches {
      assert RecordOk(w, e.key);
    }
  }

  lemma LookOk(w: World, e: Event)
    requires Inv(w) && Possible(w, e) && e.Look?
    ensures StageOk(Take(w, e).world)
    ensures Take(w, e).world == w.(stage := Take(w, e).world.stage)
    ensures Take(w, e).reply.Some? ==> LeaseIn(Take(w, e).reply.value) == ""
  {
    hide LaunchLease.IsDigest, LaunchLease.RequestName;
    var r := w.stage.value.record;
    if r.key in w.launches {
      assert RecordOk(w, r.key);
    }
  }

  lemma SurveyOk(w: World, e: Event)
    requires Inv(w) && Possible(w, e) && (e.Survey? || e.Draw?)
    ensures StageOk(Take(w, e).world)
    ensures Take(w, e).world == w.(stage := Take(w, e).world.stage)
    ensures Take(w, e).reply.Some? ==> LeaseIn(Take(w, e).reply.value) == ""
  {
    hide LaunchLease.IsDigest;
    var r := w.stage.value.record;
    if r.key in w.launches {
      assert RecordOk(w, r.key);
    }
  }

  lemma PutKeepsRecords(w: World, r: LaunchRecord, write: LaunchLease.Write)
    requires WritingOk(w, r) && forall key | key in w.launches :: RecordOk(w, key)
    ensures var v := Put(w, r, write).world;
            forall key | key in v.launches :: RecordOk(v, key)
  {
    hide LaunchLease.IsDigest, Advances, Open;
    var v := Put(w, r, write).world;
    forall key | key in v.launches ensures RecordOk(v, key) {
      if key in w.launches {
        assert RecordOk(w, key);
      }
    }
  }

  lemma PutAdvances(w: World, r: LaunchRecord, write: LaunchLease.Write)
    requires WritingOk(w, r)
    ensures LaunchesAdvance(w, Put(w, r, write).world)
  {
    hide LaunchLease.IsDigest, Open;
  }

  lemma WriteOk(w: World, e: Event)
    requires Inv(w) && Possible(w, e) && e.Write?
    ensures Inv(Take(w, e).world) && LaunchesAdvance(w, Take(w, e).world)
  {
    var r := w.stage.value.record;
    assert WritingOk(w, r);
    PutKeepsRecords(w, r, e.write);
    PutAdvances(w, r, e.write);
    hide LaunchLease.IsDigest, RecordOk, WritingOk, LaunchesAdvance, LaunchLease.Store;
  }

  lemma OutsideOk(w: World, e: Event)
    requires Inv(w) && Possible(w, e) && (Outside(e) || e.Crash?)
    ensures var v := Take(w, e).world;
            && StageOk(v) && EngineOk(v) && v.launches == w.launches && v.minted == w.minted
            && (v.stage == w.stage || (e.Crash? && v.stage == None)) && Take(w, e).reply == None
  {
    hide LaunchLease.IsDigest, Advances, RecordOk;
  }

  lemma StepAdvances(w: World, e: Event)
    requires Inv(w) && Possible(w, e)
    ensures Inv(Take(w, e).world) && LaunchesAdvance(w, Take(w, e).world)
  {
    if e.Write? {
      WriteOk(w, e);
    } else {
      if Begins(e) {
        BeginOk(w, e);
      } else if e.Look? {
        LookOk(w, e);
      } else if e.Survey? || e.Draw? {
        SurveyOk(w, e);
      } else {
        OutsideOk(w, e);
      }
      hide Take, StageOk, LaunchLease.IsDigest;
      var v := Take(w, e).world;
      forall key | key in v.launches ensures RecordOk(v, key) {
        assert RecordOk(w, key);
      }
    }
  }

  lemma {:induction false} RunKeepsInv(w: World, events: seq<Event>)
    requires Inv(w) && IsRun(w, events)
    ensures Inv(After(w, events))
    decreases |events|
  {
    if events != [] {
      StepAdvances(w, events[0]);
      RunKeepsInv(Take(w, events[0]).world, events[1..]);
    }
  }

  /** Closed launches stay as they are, fingerprints never change, attempts never go back, and a
      record only gets another lease together with a higher attempt. */
  lemma {:induction false} RunAdvances(w: World, events: seq<Event>)
    requires Inv(w) && IsRun(w, events)
    ensures LaunchesAdvance(w, After(w, events))
    decreases |events|
  {
    if events != [] {
      StepAdvances(w, events[0]);
      RunAdvances(Take(w, events[0]).world, events[1..]);
    }
  }

  /** A lease that was handed out and is in no record. */
  ghost predicate Retired(w: World, lease: string) {
    lease in w.minted && forall key | key in w.launches :: w.launches[key].lease != lease
  }

  lemma StepKeepsRetired(w: World, e: Event, lease: string)
    requires Inv(w) && Possible(w, e) && Retired(w, lease)
    ensures Retired(Take(w, e).world, lease)
  {
    hide Take, RecordOk;
    StepAdvances(w, e);
  }

  /** Once superseded or closed, a lease is never current again. */
  lemma {:induction false} RunKeepsRetired(w: World, events: seq<Event>, lease: string)
    requires Inv(w) && IsRun(w, events) && Retired(w, lease)
    ensures Retired(After(w, events), lease)
    decreases |events|
  {
    if events != [] {
      StepAdvances(w, events[0]);
      StepKeepsRetired(w, events[0], lease);
      RunKeepsRetired(Take(w, events[0]).world, events[1..], lease);
    }
  }

  /** Whoever still holds a retired lease is refused, now and after any further run. */
  lemma RetiredLeaseIsRefused(w: World, events: seq<Event>, lease: string, e: Event)
    requires Inv(w) && IsRun(w, events) && Retired(w, lease)
    requires (e.BeginFinish? || e.BeginAbort?) && e.lease == lease && Possible(After(w, events), e)
    ensures var v := After(w, events);
            && Take(v, e).world == v
            && Take(v, e).reply.Some? && Take(v, e).reply.value.error.Some?
  {
    RunKeepsRetired(w, events, lease);
  }

  /** When a lease stops being current it is retired at once: a key keeps its own leases. */
  lemma LeavingIsRetiring(w: World, e: Event, key: string)
    requires Inv(w) && Possible(w, e) && key in w.launches && w.launches[key].lease != ""
    ensures var v := Take(w, e).world;
            v.launches[key].lease == w.launches[key].lease || Retired(v, w.launches[key].lease)
  {
    hide Take, LaunchLease.IsDigest;
    var v := Take(w, e).world;
    var lease := w.launches[key].lease;
    StepAdvances(w, e);
    assert RecordOk(w, key);
    if v.launches[key].lease != lease {
      forall k | k in v.launches ensures v.launches[k].lease != lease {
        assert RecordOk(v, k);
      }
    }
  }

  /** Only the last stage of a claim hands out a lease, always one that was never handed out before,
      and only after the last one of the request was given back or ran its full period. */
  lemma LeaseIsNew(w: World, e: Event)
    requires Inv(w) && Possible(w, e)
    requires Take(w, e).reply.Some? && LeaseIn(Take(w, e).reply.value) != ""
    ensures var lease := LeaseIn(Take(w, e).reply.value);
            && e.Write? && w.stage.value.record.lease == lease
            && lease !in w.minted && lease in Take(w, e).world.minted
    ensures var r := w.stage.value.record;
            r.key in w.launches ==>
              var was := w.launches[r.key];
              && was.fingerprint == r.fingerprint && r.attempt == was.attempt + 1
              && (was.state.Failed? || (was.state.Pending? && w.now - w.minted[was.lease].at >= LEASE_PERIOD))
  {
    if Begins(e) {
      BeginOk(w, e);
    } else if e.Look? {
      LookOk(w, e);
    } else if e.Survey? || e.Draw? {
      SurveyOk(w, e);
    } else if e.Write? {
      hide LaunchLease.IsDigest;
      if w.stage.value.record.key in w.launches {
        assert RecordOk(w, w.stage.value.record.key);
      }
    }
  }

  function ReplyAt(w: World, events: seq<Event>, i: nat): Option<Reply>
    requires IsRun(w, events) && i < |events|
  {
    RunPrefix(w, events, i);
    Take(After(w, events[..i]), events[i]).reply
  }

  /** Two replies of one run never carry the same lease. */
  lemma {:induction false} LeaseGoesToOneClaimer(w: World, events: seq<Event>, i: nat, j: nat)
    requires Inv(w) && IsRun(w, events) && i < j < |events|
    requires ReplyAt(w, events, i).Some? && ReplyAt(w, events, j).Some?
    requires LeaseIn(ReplyAt(w, events, i).value) != ""
    ensures LeaseIn(ReplyAt(w, events, i).value) != LeaseIn(ReplyAt(w, events, j).value)
  {
    hide Take, LaunchLease.IsDigest, RecordOk;
    var before, here := events[..i], events[i];
    RunPrefix(w, events, i);
    RunPrefix(w, events, j);
    var mid := After(w, before);
    RunKeepsInv(w, before);
    LeaseIsNew(mid, here);
    StepAdvances(mid, here);
    var between := events[i + 1..j];
    assert events[..j] == before + ([here] + between);
    AfterJoined(w, before, [here] + between);
    assert ([here] + between)[1..] == between;
    RunJoined(w, before, [here] + between);
    RunAdvances(Take(mid, here).world, between);
    RunKeepsInv(w, events[..j]);
    if LeaseIn(ReplyAt(w, events, j).value) != "" {
      LeaseIsNew(After(w, events[..j]), events[j]);
    }
  }

  lemma {:induction false} AfterJoined(w: World, first: seq<Event>, second: seq<Event>)
    requires IsRun(w, first + second)
    ensures IsRun(w, first) && IsRun(After(w, first), second)
    ensures After(w, first + second) == After(After(w, first), second)
    decreases |first|
  {
    if first == [] {
      assert first + second == second;
    } else {
      assert (first + second)[1..] == first[1..] + second;
      AfterJoined(Take(w, first[0]).world, first[1..], second);
    }
  }

  lemma {:induction false} RunJoined(w: World, first: seq<Event>, second: seq<Event>)
    requires IsRun(w, first) && IsRun(After(w, first), second)
    ensures IsRun(w, first + second)
    decreases |first|
  {
    if first == [] {
      assert first + second == second;
    } else {
      assert (first + second)[1..] == first[1..] + second;
      RunJoined(Take(w, first[0]).world, first[1..], second);
    }
  }

  lemma RunPrefix(w: World, events: seq<Event>, i: nat)
    requires IsRun(w, events) && i < |events|
    ensures IsRun(w, events[..i]) && Possible(After(w, events[..i]), events[i])
    ensures IsRun(w, events[..i] + [events[i]])
  {
    assert events == events[..i] + events[i..];
    AfterJoined(w, events[..i], events[i..]);
    assert [events[i]][1..] == [];
    RunJoined(w, events[..i], [events[i]]);
  }

  /** While a lease runs, a claim changes nothing and hands out nothing. */
  lemma RunningLaunchIsExclusive(w: World, e: Event)
    requires Inv(w) && Possible(w, e) && e.BeginClaim?
    requires e.key in w.launches && Running(w.launches[e.key], w.now)
    ensures Take(w, e).world == w && Take(w, e).reply.Some? && LeaseIn(Take(w, e).reply.value) == ""
  {
  }
}
