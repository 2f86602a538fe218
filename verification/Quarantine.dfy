/** Quarantine of a worker, internal/engine: a flag of its durable record that every later
    load-change-save keeps, on a node whose locked sections may stop or fail at any write. The trail
    keeps every state that there has been. */
module Quarantine {
  import opened Faults

  datatype Record = Record(managed: bool, quarantined: bool, failedCreate: bool, exitCode: int, activity: nat)

  /** `started`: admitted to run. `begun`: its process was created. */
  datatype Exec = Exec(worker: string, detached: bool, started: bool, begun: bool)

  /** A task is running or has exited; when it is not in the map, the runtime knows no task. */
  datatype State = State(records: map<string, Record>, tasks: map<string, bool>, execs: map<string, Exec>)

  const MAX_EXECS := 4096

  ghost predicate Flagged(s: State, c: string) {
    c in s.records && s.records[c].quarantined
  }

  ghost predicate Running(s: State, c: string) {
    c in s.tasks && s.tasks[c]
  }

  /** One step of a quarantined worker that lives on: the flag stays, no task comes or revives, no
      execution is admitted, and a process is only created for an execution admitted before, in a
      task that still ran. */
  ghost predicate HeldBack(s: State, t: State, c: string) {
    Flagged(s, c) && c in t.records ==>
      && Flagged(t, c)
      && (c in t.tasks ==> c in s.tasks) && (Running(t, c) ==> Running(s, c))
      && (forall e | e in t.execs && t.execs[e].worker == c && t.execs[e].started ::
            e in s.execs && s.execs[e].worker == c && s.execs[e].started
            && (t.execs[e].begun ==> s.execs[e].begun || Running(s, c)))
  }

  ghost predicate Kept(s: State, t: State) {
    forall c :: HeldBack(s, t, c)
  }

  ghost predicate KeptTrail(trail: seq<State>) {
    forall k | 0 < k < |trail| :: Kept(trail[k - 1], trail[k])
  }

  lemma TrailGrows(trail: seq<State>, s: State)
    requires trail != [] && KeptTrail(trail) && Kept(trail[|trail| - 1], s)
    ensures KeptTrail(trail + [s])
  {
    hide Kept;
  }

  /** While a quarantined worker exists it stays quarantined, over any stretch of any run: its task,
      once gone, stays gone, and every execution it has was admitted before. */
  lemma {:induction false} QuarantineIsForGood(trail: seq<State>, c: string, i: nat, j: nat)
    requires KeptTrail(trail) && i <= j < |trail| && Flagged(trail[i], c)
    requires forall k | i <= k <= j :: c in trail[k].records
    ensures Flagged(trail[j], c)
    ensures c !in trail[i].tasks ==> c !in trail[j].tasks
    ensures !Running(trail[i], c) ==> !Running(trail[j], c)
    ensures forall e | e in trail[j].execs && trail[j].execs[e].worker == c && trail[j].execs[e].started ::
              && e in trail[i].execs && trail[i].execs[e].worker == c && trail[i].execs[e].started
              && (!Running(trail[i], c) && trail[j].execs[e].begun ==> trail[i].execs[e].begun)
    decreases j
  {
    if i < j {
      QuarantineIsForGood(trail, c, i, j - 1);
      assert Kept(trail[j - 1], trail[j]);
      assert HeldBack(trail[j - 1], trail[j], c);
    }
  }

  /** Nothing about any other worker changes. */
  ghost predicate OnlyAt<T>(c: string, before: map<string, T>, after: map<string, T>) {
    before - {c} == after - {c}
  }

  /** A record rewritten with the flag it had, or with the flag set. */
  lemma RecordSaved(s: State, c: string, r: Record)
    requires Flagged(s, c) ==> r.quarantined
    ensures Kept(s, s.(records := s.records[c := r]))
  {
  }

  /** A task that exits or goes. */
  lemma TaskEnds(s: State, c: string)
    ensures Kept(s, s.(tasks := s.tasks - {c}))
    ensures c in s.tasks ==> Kept(s, s.(tasks := s.tasks[c := false]))
  {
  }

  /** A task for a worker that is not quarantined. */
  lemma TaskStarts(s: State, c: string, running: bool)
    requires !Flagged(s, c)
    ensures Kept(s, s.(tasks := s.tasks[c := running]))
  {
  }

  lemma WorkerGoes(s: State, c: string)
    ensures Kept(s, s.(records := s.records - {c}))
    ensures Kept(s, s.(records := s.records - {c}, tasks := s.tasks - {c}))
  {
  }

  lemma ExecChanges(s: State, e: string, x: Exec)
    requires x.started ==> !Flagged(s, x.worker) || (e in s.execs && s.execs[e].worker == x.worker && s.execs[e].started
                                                     && (x.begun ==> s.execs[e].begun || Running(s, x.worker)))
    ensures Kept(s, s.(execs := s.execs[e := x]))
  {
  }

  lemma ExecsDrop(s: State, gone: set<string>)
    ensures Kept(s, s.(execs := s.execs - gone))
  {
  }

  class Backend {
    const world: nat -> Fault
    /** The exit code that the runtime reports at a moment. */
    const exits: nat -> int
    var clock: nat
    var records: map<string, Record>
    var tasks: map<string, bool>
    var execs: map<string, Exec>
    var serving: bool
    ghost var trail: seq<State>

    constructor (world: nat -> Fault, exits: nat -> int)
      ensures Valid() && this.world == world && this.exits == exits && records == map[] && tasks == map[] &&
              execs == map[] && !serving
    {
      this.world := world;
      this.exits := exits;
      this.clock := 0;
      this.records := map[];
      this.tasks := map[];
      this.execs := map[];
      this.serving := false;
      this.trail := [State(map[], map[], map[])];
    }

    /** A node that starts again after the other one stopped at some moment of its trail. Records, tasks
        and detached executions are durable; the rest was in memory. */
    constructor Restarted(was: Backend, ghost k: nat, state: State, world: nat -> Fault, exits: nat -> int)
      requires was.Valid() && k < |was.trail| && was.trail[k] == state
      ensures Valid() && this.world == world && this.exits == exits && !serving
      ensures was.trail[..k + 1] <= trail && records == state.records && tasks == state.tasks
      ensures forall e :: e in execs <==> e in state.execs && state.execs[e].detached
    {
      var gone := set e | e in state.execs && !state.execs[e].detached;
      this.world := world;
      this.exits := exits;
      this.clock := 0;
      this.records := state.records;
      this.tasks := state.tasks;
      this.execs := state.execs - gone;
      this.serving := false;
      this.trail := was.trail[..k + 1] + [state.(execs := state.execs - gone)];
      ExecsDrop(state, gone);
      TrailGrows(was.trail[..k + 1], state.(execs := state.execs - gone));
    }

    ghost function Now(): State
      reads this
    {
      State(records, tasks, execs)
    }

    ghost predicate Valid()
      reads this
    {
      trail != [] && trail[|trail| - 1] == Now() && KeptTrail(trail)
    }

    ghost method Log()
      requires trail != [] && KeptTrail(trail) && Kept(trail[|trail| - 1], Now())
      modifies this`trail
      ensures Valid() && old(trail) <= trail
    {
      TrailGrows(trail, Now());
      trail := trail + [Now()];
    }

    /** Something failed at or after this moment. */
    ghost predicate FaultSince(from: nat)
      reads this`clock
    {
      exists n :: from <= n < clock && !world(n).Fine?
    }

    method Step() returns (f: Fault)
      modifies this`clock
      ensures f == world(old(clock)) && clock == old(clock) + 1
      ensures !f.Fine? ==> FaultSince(old(clock))
    {
      f := world(clock);
      clock := clock + 1;
    }

    method Save(c: string, r: Record) returns (ok: bool)
      requires Valid() && (Flagged(Now(), c) ==> r.quarantined)
      modifies this`clock, this`records, this`trail
      ensures Valid() && old(trail) <= trail
      ensures clock > old(clock) && (!ok ==> FaultSince(old(clock)))
      ensures records == old(records) || records == old(records)[c := r]
      ensures ok || !world(old(clock)).Lost? ==> records == old(records)[c := r]
      ensures world(old(clock)).Lost? ==> !ok && records == old(records)
    {
      hide Kept, KeptTrail;
      var f := Step();
      if !f.Lost? {
        RecordSaved(Now(), c, r);
        records := records[c := r];
        Log();
      }
      ok := f.Fine?;
    }

    method EndTask(c: string, gone: bool) returns (ok: bool)
      requires Valid() && c in tasks
      modifies this`clock, this`tasks, this`trail
      ensures Valid() && old(trail) <= trail
      ensures clock > old(clock) && (!ok ==> FaultSince(old(clock)))
      ensures tasks == old(tasks) || tasks == (if gone then old(tasks) - {c} else old(tasks)[c := false])
      ensures ok ==> tasks == (if gone then old(tasks) - {c} else old(tasks)[c := false])
    {
      hide Kept, KeptTrail;
      var f := Step();
      if !f.Lost? {
        TaskEnds(Now(), c);
        tasks := if gone then tasks - {c} else tasks[c := false];
        Log();
      }
      ok := f.Fine?;
    }

    /** The exit of a task that may still run. */
    method EndRunning(c: string) returns (ok: bool)
      requires Valid() && c in tasks
      modifies this`clock, this`tasks, this`trail
      ensures Valid() && old(trail) <= trail
      ensures clock > old(clock) && (!ok ==> FaultSince(old(clock)))
      ensures tasks == old(tasks) || tasks == old(tasks)[c := false]
    {
      hide Kept, KeptTrail;
      var f := Step();
      if !f.Fine? {
        return false;
      }
      ok := true;
      if tasks[c] {
        ok := EndTask(c, false);
      }
    }

    /** Stops the task of a record that was loaded under the same lock, and perhaps changed since. */
    method Stop(c: string, r: Record) returns (ok: bool)
      requires Valid() && c in records && (Flagged(Now(), c) ==> r.quarantined)
      modifies this`clock, this`records, this`tasks, this`trail
      ensures Valid() && old(trail) <= trail
      ensures OnlyAt(c, old(records), records) && OnlyAt(c, old(tasks), tasks)
      ensures clock >= old(clock) && (!ok ==> FaultSince(old(clock)))
      ensures ok ==> c !in tasks
      ensures tasks.Keys <= old(tasks.Keys)
      ensures records == old(records) ||
              (c in records && records == old(records)[c := records[c]] &&
                records[c] == r.(exitCode := records[c].exitCode))
      ensures records == old(records) ||
              exists k :: old(clock) <= k < clock && records == old(records)[c := r.(exitCode := exits(k))]
      ensures r.failedCreate ==> records == old(records)
    {
      hide Kept, KeptTrail;
      if c !in tasks {
        return true;
      }
      if r.failedCreate {
        ok := EndTask(c, true);
        return;
      }
      ok := EndRunning(c);
      if !ok {
        return;
      }
      ok := Save(c, r.(exitCode := exits(clock)));
      if !ok {
        return;
      }
      ok := EndTask(c, true);
    }

    /** A streamed execution begins later, outside the lock, when its task still runs. */
    method BeginExec(e: string) returns (ok: bool)
      requires Valid() && e in execs && execs[e].started
      modifies this`clock, this`execs, this`trail
      ensures Valid() && old(trail) <= trail
      ensures clock > old(clock)
      ensures ok ==> execs == old(execs)[e := old(execs)[e].(begun := true)]
      ensures !ok ==> !Running(old(Now()), old(execs)[e].worker) || FaultSince(old(clock))
      ensures !Running(old(Now()), old(execs)[e].worker) ==> !ok && Now() == old(Now())
    {
      hide Kept, KeptTrail;
      var x := execs[e];
      var f := Step();
      if x.worker !in tasks || !tasks[x.worker] || f.Lost? {
        return false;
      }
      ExecChanges(Now(), e, x.(begun := true));
      execs := execs[e := x.(begun := true)];
      Log();
      ok := f.Fine?;
    }

    /** Executions that were admitted begin, as far as they still can, while a locked section is at work. */
    method BeginSome(some: seq<string>)
      requires Valid()
      modifies this`clock, this`execs, this`trail
      ensures Valid() && old(trail) <= trail && clock >= old(clock)
    {
      hide Kept, KeptTrail;
      for k := 0 to |some|
        invariant Valid() && old(trail) <= trail && clock >= old(clock)
      {
        if some[k] in execs && execs[some[k]].started {
          var ok := BeginExec(some[k]);
        }
      }
    }

    /** The denial is written before the task is stopped; both are tried whatever happens to the
        other, and only both together are success. Executions of `between` may begin between the two. */
    method Quarantine(c: string, between: seq<string>) returns (ok: bool, ghost written: bool)
      requires Valid()
      modifies this`clock, this`records, this`tasks, this`execs, this`trail
      ensures Valid() && old(trail) <= trail
      ensures OnlyAt(c, old(records), records) && OnlyAt(c, old(tasks), tasks)
      ensures !ok ==> c !in old(records) || !old(records)[c].managed || FaultSince(old(clock))
      ensures ok ==> Flagged(Now(), c) && c !in tasks && written
      ensures written ==> Flagged(Now(), c)
      ensures c in old(records) && old(records)[c].managed && !world(old(clock)).Lost? ==> written
      ensures c !in old(records) || !old(records)[c].managed ==> !ok && Now() == old(Now())
    {
      hide Kept, KeptTrail;
      written := false;
      if c !in records || !records[c].managed {
        return false, written;
      }
      var r := records[c].(quarantined := true);
      var persisted := Save(c, r);
      written := records[c].quarantined;
      BeginSome(between);
      var stopped := Stop(c, r);
      ok := persisted && stopped;
    }

    method Create(c: string, managed: bool) returns (ok: bool)
      requires Valid() && c !in records && c !in tasks
      modifies this`clock, this`records, this`trail
      ensures Valid() && old(trail) <= trail
      ensures !ok ==> FaultSince(old(clock))
      ensures ok ==> c in records && !records[c].quarantined
      ensures records in {old(records), old(records)[c := Record(managed, false, false, 0, 0)]}
    {
      ok := Save(c, Record(managed, false, false, 0, 0));
    }

    /** A start that fails leaves the record marked and tries to take its task away again. */
    method FailedStart(c: string)
      requires Valid() && c in records && !records[c].quarantined
      modifies this`clock, this`records, this`tasks, this`trail
      ensures Valid() && old(trail) <= trail && c in records && !records[c].quarantined
      ensures OnlyAt(c, old(records), records) && OnlyAt(c, old(tasks), tasks)
      ensures clock >= old(clock)
      ensures records == old(records)[c := records[c]]
      ensures if world(old(clock)).Lost? then records == old(records)
              else records[c] == old(records)[c].(failedCreate := true, exitCode := 125)
    {
      hide Kept, KeptTrail;
      var r := records[c].(failedCreate := true, exitCode := 125);
      var ok := Save(c, r);
      if ok {
        ok := Stop(c, r);
      }
    }

    /** A new task for a worker that was let through. */
    method RunTask(c: string) returns (ok: bool)
      requires Valid() && c in records && !records[c].quarantined && c !in tasks
      modifies this`clock, this`records, this`tasks, this`trail
      ensures Valid() && old(trail) <= trail && clock > old(clock)
      ensures OnlyAt(c, old(records), records) && OnlyAt(c, old(tasks), tasks)
      ensures if ok then Running(Now(), c) else FaultSince(old(clock))
      ensures ok ==> records == old(records)[c := old(records)[c].(failedCreate := false, exitCode := 0)]
    {
      hide Kept, KeptTrail;
      var f := Step();
      if f.Lost? {
        FailedStart(c);
        return false;
      }
      TaskStarts(Now(), c, true);
      tasks := tasks[c := true];
      Log();
      if f.Late? {
        FailedStart(c);
        return false;
      }
      ok := Save(c, records[c].(failedCreate := false, exitCode := 0));
      if !ok {
        FailedStart(c);
      }
    }

    method Start(c: string) returns (ok: bool)
      requires Valid()
      modifies this`clock, this`records, this`tasks, this`trail
      ensures Valid() && old(trail) <= trail
      ensures OnlyAt(c, old(records), records) && OnlyAt(c, old(tasks), tasks)
      ensures !ok ==> c !in old(records) || Flagged(old(Now()), c) || FaultSince(old(clock))
      ensures Flagged(old(Now()), c) || c !in old(records) ==> !ok && Now() == old(Now())
      ensures ok ==> Running(Now(), c)
      ensures ok ==>
                if Running(old(Now()), c) then Now() == old(Now())
                else records == old(records)[c := old(records)[c].(failedCreate := false, exitCode := 0)]
    {
      hide Kept, KeptTrail;
      if c !in records || records[c].quarantined {
        return false;
      }
      if c in tasks {
        if tasks[c] {
          return true;
        }
        ok := EndTask(c, true);
        if !ok {
          return;
        }
      }
      ok := RunTask(c);
    }

    /** `sound` says that the request can be read and asks for a command without another privilege or
        user. */
    method CreateExec(c: string, e: string, sound: bool, at: nat) returns (ok: bool)
      requires Valid() && e !in execs
      modifies this`clock, this`records, this`execs, this`trail
      ensures Valid() && old(trail) <= trail
      ensures !ok ==>
              c !in old(records) || Flagged(old(Now()), c) || !sound || |old(execs)| >= 4096 ||
                FaultSince(old(clock))
      ensures Flagged(old(Now()), c) || c !in old(records) || !sound || |old(execs)| >= 4096 ==>
              !ok && Now() == old(Now())
      ensures ok ==> e in execs && execs[e].worker == c && !execs[e].started
      ensures ok ==> execs == old(execs)[e := Exec(c, false, false, false)] &&
                       records == old(records)[c := old(records)[c].(activity := at)]
    {
      hide Kept, KeptTrail;
      if c !in records || records[c].quarantined || !sound || |execs| >= MAX_EXECS {
        return false;
      }
      ok := Save(c, records[c].(activity := at));
      if ok {
        var x := Exec(c, false, false, false);
        ExecChanges(Now(), e, x);
        execs := execs[e := x];
        Log();
      }
    }

    /** Admission of an execution. A detached one also begins here, under the lock. */
    method StartExec(e: string, readable: bool, detached: bool) returns (ok: bool)
      requires Valid() && e in execs
      modifies this`clock, this`execs, this`trail
      ensures Valid() && old(trail) <= trail
      ensures !ok ==>
              old(execs)[e].started || old(execs)[e].worker !in old(records) ||
                Flagged(old(Now()), old(execs)[e].worker) || !Running(old(Now()), old(execs)[e].worker) ||
                  !readable || FaultSince(old(clock))
      ensures Flagged(old(Now()), old(execs)[e].worker) || !readable ==> !ok && Now() == old(Now())
      ensures var x := old(execs)[e];
              x.started || x.worker !in records || x.worker !in tasks ==> !ok && Now() == old(Now())
      ensures var x := old(execs)[e];
              execs == old(execs) ||
              (e in execs &&
                execs == old(execs)[e := x.(started := true, detached := detached, begun := execs[e].begun)])
      ensures ok ==> old(execs) != execs && (execs[e].begun <==> old(execs)[e].begun || detached)
      ensures ok ==> e in execs && execs[e].started && (detached ==> execs[e].begun) && old(execs)[e].worker in tasks
    {
      hide Kept, KeptTrail;
      var x := execs[e];
      if x.started || x.worker !in records || records[x.worker].quarantined || x.worker !in tasks || !readable {
        return false;
      }
      var f := Step();
      var running := tasks[x.worker] && !f.Lost?;
      var admitted := x.(started := true, detached := detached, begun := x.begun || (detached && running));
      ExecChanges(Now(), e, admitted);
      execs := execs[e := admitted];
      Log();
      ok := !detached || (running && f.Fine?);
    }

    /** The main task's exit, or the end of an execution: load, change one field, save. */
    method NoteExit(c: string, code: int) returns (ok: bool)
      requires Valid() && c in records
      modifies this`clock, this`records, this`tasks, this`trail
      ensures Valid() && old(trail) <= trail
      ensures ok ==> c in records && records[c] == old(records)[c].(exitCode := code)
      ensures records in {old(records), old(records)[c := old(records)[c].(exitCode := code)]}
      ensures tasks in {old(tasks), old(tasks) - {c}} && (Running(old(Now()), c) ==> tasks == old(tasks))
      ensures ok && c in old(tasks) && !old(tasks)[c] ==> c !in tasks
      ensures !ok ==> FaultSince(old(clock))
      ensures c in records && records[c].quarantined == old(records)[c].quarantined
    {
      hide Kept, KeptTrail;
      ok := Save(c, records[c].(exitCode := code));
      if ok && c in tasks && !tasks[c] {
        ok := EndTask(c, true);
      }
    }

    method NoteActivity(c: string, at: nat) returns (ok: bool)
      requires Valid() && c in records
      modifies this`clock, this`records, this`trail
      ensures Valid() && old(trail) <= trail
      ensures ok ==> c in records && records[c] == old(records)[c].(activity := at)
      ensures !ok ==> FaultSince(old(clock))
      ensures c in records && records[c].quarantined == old(records)[c].quarantined
    {
      hide Kept, KeptTrail;
      ok := Save(c, records[c].(activity := at));
    }

    /** The process exits by itself. */
    method TaskExits(c: string)
      requires Valid() && c in tasks
      modifies this`tasks, this`trail
      ensures Valid() && old(trail) <= trail && tasks == old(tasks)[c := false]
    {
      hide Kept, KeptTrail;
      TaskEnds(Now(), c);
      tasks := tasks[c := false];
      Log();
    }

    method DropExecs(c: string)
      requires Valid()
      modifies this`execs, this`trail
      ensures Valid() && old(trail) <= trail
      ensures forall e :: e in execs <==> e in old(execs) && old(execs)[e].worker != c
      ensures forall e | e in execs :: execs[e] == old(execs)[e]
    {
      hide Kept, KeptTrail;
      var gone := set e | e in execs && execs[e].worker == c;
      ExecsDrop(Now(), gone);
      execs := execs - gone;
      Log();
    }

    method Remove(c: string) returns (ok: bool)
      requires Valid() && c in records
      modifies this`clock, this`records, this`tasks, this`execs, this`trail
      ensures Valid() && old(trail) <= trail
      ensures OnlyAt(c, old(records), records) && OnlyAt(c, old(tasks), tasks)
      ensures !ok ==> FaultSince(old(clock))
      ensures ok ==> c !in records && c !in tasks && forall e | e in execs :: execs[e].worker != c
    {
      hide Kept, KeptTrail;
      ok := Stop(c, records[c]);
      if !ok {
        return;
      }
      var f := Step();
      if f.Lost? {
        return false;
      }
      WorkerGoes(Now(), c);
      records := records - {c};
      Log();
      DropExecs(c);
      ok := f.Fine?;
    }

    /** Reattaching one worker: a quarantined one is stopped again instead. */
    method Reattach(c: string) returns (ok: bool)
      requires Valid() && c in records
      modifies this`clock, this`records, this`tasks, this`trail
      ensures Valid() && old(trail) <= trail && SameFlags(old(records), records)
      ensures clock >= old(clock) && (!ok ==> FaultSince(old(clock)))
      ensures ok && records[c].quarantined ==> c !in tasks
      ensures tasks.Keys <= old(tasks.Keys)
    {
      hide Kept, KeptTrail;
      if records[c].quarantined {
        ok := Stop(c, records[c]);
      } else {
        var f := Step();
        ok := f.Fine?;
      }
    }

    method ForgetStreamed()
      requires Valid()
      modifies this`execs, this`trail
      ensures Valid() && old(trail) <= trail
      ensures forall e :: e in execs <==> e in old(execs) && old(execs)[e].detached
    {
      hide Kept, KeptTrail;
      var streamed := set e | e in execs && !execs[e].detached;
      ExecsDrop(Now(), streamed);
      execs := execs - streamed;
      Log();
    }

    /** A restart forgets streamed executions, stops every quarantined worker again, and serves only
        when that worked for all of them. */
    method Restart() returns (ok: bool)
      requires Valid()
      modifies this`clock, this`records, this`tasks, this`execs, this`serving, this`trail
      ensures Valid() && old(trail) <= trail && serving == ok && SameFlags(old(records), records)
      ensures !ok ==> FaultSince(old(clock))
      ensures serving ==> forall c | Flagged(Now(), c) :: c !in tasks
    {
      hide Kept, KeptTrail;
      serving := false;
      ForgetStreamed();
      var left := records.Keys;
      ghost var before := records;
      hide Valid;
      while left != {}
        invariant Valid() && old(trail) <= trail && !serving && left <= before.Keys && SameFlags(before, records)
        invariant clock >= old(clock)
        invariant forall c | c in before && before[c].quarantined && c !in left :: c !in tasks
        decreases |left|
      {
        var c :| c in left;
        left := left - {c};
        ok := Reattach(c);
        if !ok {
          return;
        }
      }
      ok, serving := true, true;
    }
  }

  ghost predicate SameFlags(a: map<string, Record>, b: map<string, Record>) {
    a.Keys == b.Keys && forall c | c in a :: a[c].quarantined == b[c].quarantined
  }
}
