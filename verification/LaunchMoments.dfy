/** At which moment the conditions of a launch hold. The engine is asked, the reservations are read and
    the record is written one after the other, and workers and reservations come and go in between: a
    condition holds when it is looked at, and at the moment of writing only if nothing undid it. */
module LaunchMoments {
  import opened Options
  import opened LaunchLease
  import opened LaunchRuns

  /** The world before event `i` of a run from the start. */
  function At(events: seq<Event>, i: nat): World
    requires IsRun(START, events) && i <= |events|
  {
    assert events == events[..i] + events[i..];
    AfterJoined(START, events[..i], events[i..]);
    After(START, events[..i])
  }

  lemma Next(events: seq<Event>, i: nat)
    requires IsRun(START, events) && i < |events|
    ensures Possible(At(events, i), events[i]) && At(events, i + 1) == Take(At(events, i), events[i]).world
  {
    RunPrefix(START, events, i);
    assert [events[i]][1..] == [];
    assert events[..i + 1] == events[..i] + [events[i]];
    AfterJoined(START, events[..i], [events[i]]);
  }

  lemma {:induction false} GoodAt(events: seq<Event>, i: nat)
    requires IsRun(START, events) && i <= |events|
    ensures Inv(At(events, i))
  {
    if i > 0 {
      Next(events, i - 1);
      GoodAt(events, i - 1);
      StepAdvances(At(events, i - 1), events[i - 1]);
    }
  }

  predicate SameOperation(e: Event) {
    Outside(e) || e.Survey? || e.Draw?
  }

  predicate IsAsking(stage: Option<Stage>) {
    stage.Some? && (stage.value.Looking? || stage.value.Matching?)
  }

  ghost predicate AbsentAt(events: seq<Event>, i: nat, key: string)
    requires IsRun(START, events) && i <= |events|
  {
    IsDigest(key) && RequestName(key) !in At(events, i).engine
  }

  /** The operation that holds the mutex asked the engine at `i`, and is still the same one. */
  ghost predicate AskedAt(events: seq<Event>, i: nat, n: nat, key: string)
    requires IsRun(START, events) && n <= |events|
  {
    && i < n && events[i] == Look(false)
    && IsAsking(At(events, i).stage) && At(events, i).stage.value.record.key == key
    && forall k | i < k < n :: SameOperation(events[k])
  }

  ghost predicate SurveyedAt(events: seq<Event>, i: nat, n: nat, key: string)
    requires IsRun(START, events) && n <= |events|
  {
    i < n && events[i].Survey? && key !in At(events, i).reserved
  }

  /** The stages of a claim after the engine said that there is no worker. */
  predicate Unclaimed(stage: Option<Stage>) {
    stage.Some? &&
      (stage.value.Surveying? || stage.value.Drawing? || (stage.value.Writing? && stage.value.record.lease != ""))
  }

  lemma UnclaimedStep(w: World, e: Event)
    requires Inv(w) && Possible(w, e) && Unclaimed(Take(w, e).world.stage)
    ensures var v := Take(w, e).world;
            var key := v.stage.value.record.key;
            && v.launches == w.launches
            && if e.Look? then
                 && !e.fails && IsAsking(w.stage) && w.stage.value.record.key == key
                 && IsDigest(key) && RequestName(key) !in w.engine
                 && (!v.stage.value.Surveying? ==> key !in w.launches)
               else
                 && SameOperation(e) && Unclaimed(w.stage) && w.stage.value.record.key == key
                 && (if e.Survey? then key !in w.reserved else v.stage.value.Surveying? <==> w.stage.value.Surveying?)
  {
    hide LaunchLease.RequestName, LaunchRuns.RecordOk, LaunchRuns.Advances, LaunchRuns.WritingOk, LaunchRuns.Open,
      LaunchRuns.EngineOk;
  }

  /** A claim that is about to read the reservations, to draw a lease or to write one has seen no worker
      under the request's name, and no reservation unless the request is new. */
  lemma {:induction false} ClaimSaw(events: seq<Event>, n: nat) returns (looked: nat, surveyed: nat)
    requires IsRun(START, events) && n <= |events| && Unclaimed(At(events, n).stage)
    ensures var key := At(events, n).stage.value.record.key;
            && AskedAt(events, looked, n, key) && AbsentAt(events, looked, key)
            && (!At(events, n).stage.value.Surveying? && key in At(events, n).launches ==>
                  looked < surveyed && SurveyedAt(events, surveyed, n, key))
    decreases n
  {
    hide Take, Inv, LaunchLease.IsDigest, LaunchLease.RequestName, At;
    assert n > 0 by {
      StartHasNoStage(events);
    }
    Next(events, n - 1);
    GoodAt(events, n - 1);
    UnclaimedStep(At(events, n - 1), events[n - 1]);
    if events[n - 1].Look? {
      looked, surveyed := n - 1, n - 1;
    } else {
      looked, surveyed := ClaimSaw(events, n - 1);
      if events[n - 1].Survey? {
        surveyed := n - 1;
      }
    }
  }

  lemma StartHasNoStage(events: seq<Event>)
    requires IsRun(START, events)
    ensures At(events, 0) == START
  {
  }

  /** A worker came under the name between two moments, and was not removed again. */
  ghost predicate Came(events: seq<Event>, i: nat, n: nat, name: string) {
    exists k :: i <= k < n <= |events| && events[k].Create? && events[k].name == name
                && forall m | k < m < n :: events[m] != Remove(name)
  }

  ghost predicate BecameReserved(events: seq<Event>, i: nat, n: nat, key: string) {
    exists k :: i <= k < n <= |events| && events[k] == Reserve(key) && forall m | k < m < n :: events[m] != Release(key)
  }

  ghost predicate Removed(events: seq<Event>, i: nat, n: nat, name: string) {
    exists k :: i <= k < n <= |events| && events[k] == Remove(name)
  }

  lemma EngineStep(w: World, e: Event, name: string)
    requires Possible(w, e)
    ensures name in Take(w, e).world.engine <==>
            (e.Create? && e.name == name) || (name in w.engine && e != Remove(name))
    ensures name in w.engine && e != Remove(name) ==> Take(w, e).world.engine[name] == w.engine[name]
    ensures name !in w.engine && name in Take(w, e).world.engine ==> Take(w, e).world.engine[name].id !in w.used
    ensures w.used <= Take(w, e).world.used
  {
    hide LaunchLease.ClaimBegins, LaunchLease.FinishBegins, LaunchLease.AbortBegins, LaunchLease.ClaimLooks,
      LaunchLease.FinishLooks;
  }

  lemma ReservedStep(w: World, e: Event, key: string)
    requires Possible(w, e)
    ensures key in Take(w, e).world.reserved <==> e == Reserve(key) || (key in w.reserved && e != Release(key))
  {
    hide LaunchLease.ClaimBegins, LaunchLease.FinishBegins, LaunchLease.AbortBegins, LaunchLease.ClaimLooks,
      LaunchLease.FinishLooks;
  }

  /** A name that was free is taken later exactly when a worker came under it and was not removed. */
  lemma {:induction false} FreeUntilCreated(events: seq<Event>, i: nat, n: nat, name: string)
    requires IsRun(START, events) && i <= n <= |events| && name !in At(events, i).engine
    ensures name in At(events, n).engine <==> Came(events, i, n, name)
    decreases n
  {
    hide Take, At;
    if i < n {
      FreeUntilCreated(events, i, n - 1, name);
      Next(events, n - 1);
      EngineStep(At(events, n - 1), events[n - 1], name);
    }
  }

  /** A request that was not reserved is reserved later exactly when a reservation was made and not
      released. */
  lemma {:induction false} UnreservedUntilReserved(events: seq<Event>, i: nat, n: nat, key: string)
    requires IsRun(START, events) && i <= n <= |events| && key !in At(events, i).reserved
    ensures key in At(events, n).reserved <==> BecameReserved(events, i, n, key)
    decreases n
  {
    hide Take, At;
    if i < n {
      UnreservedUntilReserved(events, i, n - 1, key);
      Next(events, n - 1);
      ReservedStep(At(events, n - 1), events[n - 1], key);
    }
  }

  /** A worker stays the one under its name exactly until it is removed, because ids do not repeat. */
  lemma {:induction false} HeldUntilRemoved(events: seq<Event>, i: nat, n: nat, name: string)
    requires IsRun(START, events) && i <= n <= |events| && name in At(events, i).engine
    ensures At(events, i).engine[name].id in At(events, n).used
    ensures name in At(events, n).engine && At(events, n).engine[name] == At(events, i).engine[name] <==>
            !Removed(events, i, n, name)
    decreases n
  {
    hide Take, At;
    if i < n {
      HeldUntilRemoved(events, i, n - 1, name);
      Next(events, n - 1);
      EngineStep(At(events, n - 1), events[n - 1], name);
    } else {
      GoodAt(events, i);
    }
  }

  /** A lease is handed out only to a claim that saw no worker under the request's name and, unless it is
      the first claim of the request, no reservation of it, and only after the last lease was given back
      or ran its full period. At the moment of writing there is a worker, or a reservation, exactly when
      one came after that look and was not taken away again. */
  lemma MintingConditions(events: seq<Event>, n: nat) returns (looked: nat, surveyed: nat)
    requires IsRun(START, events) && n < |events| && ReplyAt(START, events, n).Some?
    requires LeaseIn(ReplyAt(START, events, n).value) != ""
    ensures events[n].Write? && At(events, n).stage.Some? && At(events, n).stage.value.Writing?
    ensures var w, r := At(events, n), At(events, n).stage.value.record;
            && AskedAt(events, looked, n, r.key) && AbsentAt(events, looked, r.key)
            && (RequestName(r.key) in w.engine <==> Came(events, looked, n, RequestName(r.key)))
            && (r.key in w.launches ==>
                  && looked < surveyed && SurveyedAt(events, surveyed, n, r.key)
                  && (r.key in w.reserved <==> BecameReserved(events, surveyed, n, r.key))
                  && w.launches[r.key].fingerprint == r.fingerprint && r.attempt == w.launches[r.key].attempt + 1
                  && (w.launches[r.key].state.Failed? ||
                      (w.launches[r.key].state.Pending? && w.launches[r.key].lease in w.minted &&
                        w.now - w.minted[w.launches[r.key].lease].at >= LEASE_PERIOD)))
  {
    Next(events, n);
    GoodAt(events, n);
    LeaseIsNew(At(events, n), events[n]);
    hide Take, At, Came, BecameReserved, LaunchLease.IsDigest, LaunchLease.RequestName, Inv;
    var key := At(events, n).stage.value.record.key;
    looked, surveyed := ClaimSaw(events, n);
    FreeUntilCreated(events, looked, n, RequestName(key));
    if key in At(events, n).launches {
      UnreservedUntilReserved(events, surveyed, n, key);
    }
  }

  /** The engine holds the worker of a complete launch under its name. */
  ghost predicate EngineHolds(w: World, r: LaunchRecord) {
    && IsDigest(r.key) && RequestName(r.key) in w.engine
    && w.engine[RequestName(r.key)] == Worker(r.workerId, r.key, r.fingerprint)
  }

  predicate Completing(stage: Option<Stage>) {
    stage.Some? && stage.value.Writing? && stage.value.record.state.Complete?
  }

  lemma CompletedBefore(w: World, e: Event)
    requires Inv(w) && Possible(w, e) && Completing(Take(w, e).world.stage)
    ensures if e.Look?
            then !e.fails && IsAsking(w.stage) && w.stage.value.record.key == Take(w, e).world.stage.value.record.key
                 && EngineHolds(w, Take(w, e).world.stage.value.record)
            else Outside(e) && w.stage == Take(w, e).world.stage
  {
    hide LaunchLease.RequestName, LaunchLease.IsDigest, LaunchRuns.RecordOk, LaunchRuns.Advances,
      LaunchRuns.WritingOk, LaunchRuns.Open, LaunchRuns.EngineOk;
  }

  /** Whoever is about to complete a launch has been shown its worker by the engine. */
  lemma {:induction false} CompleterSaw(events: seq<Event>, n: nat) returns (looked: nat)
    requires IsRun(START, events) && n <= |events| && Completing(At(events, n).stage)
    ensures var r := At(events, n).stage.value.record;
            AskedAt(events, looked, n, r.key) && EngineHolds(At(events, looked), r)
    decreases n
  {
    hide Take, Inv, EngineHolds, At;
    assert n > 0 by {
      StartHasNoStage(events);
    }
    Next(events, n - 1);
    GoodAt(events, n - 1);
    CompletedBefore(At(events, n - 1), events[n - 1]);
    if events[n - 1].Look? {
      looked := n - 1;
    } else {
      looked := CompleterSaw(events, n - 1);
    }
  }

  lemma CompletingIsWriting(w: World, e: Event, key: string)
    requires Inv(w) && Possible(w, e)
    requires key in Take(w, e).world.launches && Take(w, e).world.launches[key].state.Complete?
    requires !(key in w.launches && w.launches[key].state.Complete?)
    ensures e.Write? && Completing(w.stage) && w.stage.value.record == Take(w, e).world.launches[key] &&
            w.stage.value.record.key == key
  {
    hide LaunchLease.IsDigest, LaunchRuns.RecordOk, LaunchRuns.Advances, LaunchRuns.WritingOk, LaunchRuns.Open,
      LaunchRuns.EngineOk;
  }

  /** A launch becomes complete only with a worker that the engine held for its key and fingerprint when
      it was asked. The engine still holds it at the moment of writing exactly when it was not removed
      in between. */
  lemma CompletingStep(events: seq<Event>, n: nat, key: string) returns (looked: nat)
    requires IsRun(START, events) && n < |events|
    requires key in At(events, n + 1).launches && At(events, n + 1).launches[key].state.Complete?
    requires !(key in At(events, n).launches && At(events, n).launches[key].state.Complete?)
    ensures IsDigest(key) && AskedAt(events, looked, n, key) &&
            EngineHolds(At(events, looked), At(events, n + 1).launches[key])
    ensures EngineHolds(At(events, n), At(events, n + 1).launches[key]) <==>
            !Removed(events, looked, n, RequestName(key))
  {
    Next(events, n);
    GoodAt(events, n);
    hide Take, Inv, At, Removed, LaunchLease.IsDigest, LaunchLease.RequestName;
    CompletingIsWriting(At(events, n), events[n], key);
    looked := CompleterSaw(events, n);
    HeldUntilRemoved(events, looked, n, RequestName(key));
  }

  /** In every run each complete launch names the one worker that the engine held for its key and
      fingerprint when the operation that completed it asked. */
  lemma {:induction false} CompleteNamesHeldWorker(events: seq<Event>, n: nat, key: string) returns (looked: nat)
    requires IsRun(START, events) && n <= |events|
    requires key in At(events, n).launches && At(events, n).launches[key].state.Complete?
    ensures looked < n && EngineHolds(At(events, looked), At(events, n).launches[key])
    decreases n
  {
    hide Take, Inv, At, EngineHolds, LaunchLease.IsDigest;
    assert n > 0 by {
      StartHasNoStage(events);
    }
    Next(events, n - 1);
    GoodAt(events, n - 1);
    StepAdvances(At(events, n - 1), events[n - 1]);
    if key in At(events, n - 1).launches && At(events, n - 1).launches[key].state.Complete? {
      looked := CompleteNamesHeldWorker(events, n - 1, key);
    } else {
      looked := CompletingStep(events, n - 1, key);
    }
  }

  lemma OneMore(w: World, events: seq<Event>, v: World, e: Event)
    requires IsRun(w, events) && After(w, events) == v && Possible(v, e)
    ensures IsRun(w, events + [e]) && After(w, events + [e]) == Take(v, e).world
  {
    assert [e][1..] == [];
    RunJoined(w, events, [e]);
    AfterJoined(w, events, [e]);
  }

  /** Going on from a claim that is about to draw a lease. */
  function LateWorker(key: string, worker: Worker, lease: string): seq<Event>
    requires IsDigest(key)
  {
    [Create(RequestName(key), worker), Reserve(key), Draw(Some(lease)), Write(Written)]
  }

  lemma Arrivals(w: World, worker: Worker, key: string)
    requires IsDigest(key) && RequestName(key) !in w.engine && worker.id != "" && worker.id !in w.used
    ensures var e := [Create(RequestName(key), worker), Reserve(key)];
            && IsRun(w, e)
            && After(w, e) ==
              w.(engine := w.engine[RequestName(key) := worker], used := w.used + {worker.id},
                reserved := w.reserved + {key})
  {
    hide LaunchLease.IsDigest, LaunchLease.RequestName;
    var e := [Create(RequestName(key), worker), Reserve(key)];
    var w1 := Take(w, e[0]).world;
    var w2 := Take(w1, e[1]).world;
    hide Take, IsRun, After;
    TwoSteps(w, e, w1, w2);
  }

  lemma TwoSteps(w: World, e: seq<Event>, w1: World, w2: World)
    requires |e| == 2 && Possible(w, e[0]) && w1 == Take(w, e[0]).world && Possible(w1, e[1]) &&
             w2 == Take(w1, e[1]).world
    ensures IsRun(w, e) && After(w, e) == w2
  {
    assert e[..0] == [] && e[..1] == [] + [e[0]] && e == [e[0]] + [e[1]];
    OneMore(w, [], w, e[0]);
    OneMore(w, [e[0]], w1, e[1]);
  }

  lemma DrawsAndWrites(w: World, lease: string)
    requires w.stage.Some? && w.stage.value.Drawing? && lease != "" && lease !in w.minted
    ensures var e := [Draw(Some(lease)), Write(Written)];
            && IsRun(w, e)
            && Holds(After(w, e).launches, w.stage.value.record.key, lease)
            && After(w, e).engine == w.engine && After(w, e).reserved == w.reserved
  {
    hide LaunchLease.IsDigest;
    var e := [Draw(Some(lease)), Write(Written)];
    var w1 := Take(w, e[0]).world;
    var w2 := Take(w1, e[1]).world;
    TwoSteps(w, e, w1, w2);
  }

  /** From every claim that is about to draw a lease: a worker and a reservation that come now do not
      stop it, and the lease is handed out beside them. */
  lemma LeaseBesideLateWorker(w: World, worker: Worker, lease: string)
    requires w.stage.Some? && w.stage.value.Drawing? && IsDigest(w.stage.value.record.key)
    requires RequestName(w.stage.value.record.key) !in w.engine
    requires worker.id != "" && worker.id !in w.used && lease != "" && lease !in w.minted
    ensures var key := w.stage.value.record.key;
            var events := LateWorker(key, worker, lease);
            && IsRun(w, events)
            && var v := After(w, events);
               Holds(v.launches, key, lease) && RequestName(key) in v.engine && key in v.reserved
  {
    hide LaunchLease.IsDigest, LaunchLease.RequestName, Take, IsRun, After, Holds;
    var key := w.stage.value.record.key;
    var come, go := [Create(RequestName(key), worker), Reserve(key)], [Draw(Some(lease)), Write(Written)];
    Arrivals(w, worker, key);
    DrawsAndWrites(After(w, come), lease);
    RunJoined(w, come, go);
    AfterJoined(w, come, go);
    assert LateWorker(key, worker, lease) == come + go;
  }

  /** The second claim of a request whose first lease has run out. */
  function SecondClaim(key: string, fingerprint: string, first: string): seq<Event> {
    [BeginClaim(key, fingerprint, true), Look(false), Draw(Some(first)), Write(Written), Tick(LEASE_PERIOD),
     BeginClaim(key, fingerprint, true), Look(false), Survey(Reserved({}))]
  }

  /** Such a claim can be reached, so a lease can be handed out while a worker stands under the request's
      name and its allocation is reserved: the conditions are those of the look, not of the write. */
  lemma SecondClaimDraws(key: string, fingerprint: string, first: string)
    requires IsDigest(key) && IsDigest(fingerprint) && first != ""
    ensures var events := SecondClaim(key, fingerprint, first);
            && IsRun(START, events)
            && var w := After(START, events);
               w.stage == Some(Drawing(LaunchRecord(key, fingerprint, Pending, 1, first, "", 0))) &&
                 w.engine == map[] && w.used == {}
  {
    hide LaunchLease.IsDigest, LaunchLease.RequestName;
    var events := SecondClaim(key, fingerprint, first);
    FirstClaim(key, fingerprint, first);
    var r := LaunchRecord(key, fingerprint, Pending, 1, first, "", 0);
    var w := World(map[key := r], None, map[], {}, LEASE_PERIOD, map[first := Mint(key, 1, 0)], {});
    AgainClaims(w, r);
    assert events == events[..5] + events[5..] && events[5..] == [events[5], events[6], events[7]];
    hide IsRun, After, Take;
    RunJoined(START, events[..5], events[5..]);
    AfterJoined(START, events[..5], events[5..]);
  }

  lemma FirstClaim(key: string, fingerprint: string, first: string)
    requires IsDigest(key) && IsDigest(fingerprint) && first != ""
    ensures var events := SecondClaim(key, fingerprint, first)[..5];
            && IsRun(START, events)
            && var w := After(START, events);
               w == World(map[key := LaunchRecord(key, fingerprint, Pending, 1, first, "", 0)], None, map[], {},
                 LEASE_PERIOD, map[first := Mint(key, 1, 0)], {})
  {
    hide LaunchLease.IsDigest, LaunchLease.RequestName;
    var e := SecondClaim(key, fingerprint, first)[..5];
    assert e[..0] == [];
    var w0 := START;
    var w1 := Take(w0, e[0]).world;
    var w2 := Take(w1, e[1]).world;
    var w3 := Take(w2, e[2]).world;
    var w4 := Take(w3, e[3]).world;
    var w5 := Take(w4, e[4]).world;
    hide IsRun, After, Take;
    OneMore(w0, e[..0], w0, e[0]);
    assert e[..0] + [e[0]] == e[..1];
    OneMore(w0, e[..1], w1, e[1]);
    assert e[..1] + [e[1]] == e[..2];
    OneMore(w0, e[..2], w2, e[2]);
    assert e[..2] + [e[2]] == e[..3];
    OneMore(w0, e[..3], w3, e[3]);
    assert e[..3] + [e[3]] == e[..4];
    OneMore(w0, e[..4], w4, e[4]);
    assert e[..4] + [e[4]] == e[..5];
    assert e[..5] == e;
  }

  lemma AgainClaims(w: World, r: LaunchRecord)
    requires IsDigest(r.key) && IsDigest(r.fingerprint) && r.key in w.launches && w.launches[r.key] == r
    requires w.stage == None && r.state.Pending? && !Running(r, w.now) && w.engine == map[] && w.reserved == {}
    ensures var e := [BeginClaim(r.key, r.fingerprint, true), Look(false), Survey(Reserved({}))];
            && IsRun(w, e) && After(w, e) == w.(stage := Some(Drawing(r)))
  {
    hide LaunchLease.IsDigest, LaunchLease.RequestName;
    var e := [BeginClaim(r.key, r.fingerprint, true), Look(false), Survey(Reserved({}))];
    assert e[..0] == [];
    var w0 := w;
    var w1 := Take(w0, e[0]).world;
    var w2 := Take(w1, e[1]).world;
    var w3 := Take(w2, e[2]).world;
    hide IsRun, After, Take;
    OneMore(w0, e[..0], w0, e[0]);
    assert e[..0] + [e[0]] == e[..1];
    OneMore(w0, e[..1], w1, e[1]);
    assert e[..1] + [e[1]] == e[..2];
    OneMore(w0, e[..2], w2, e[2]);
    assert e[..2] + [e[2]] == e[..3];
    assert e[..3] == e;
  }

  /** From every operation that is about to complete a launch: a worker that goes now does not stop it,
      and the launch is complete without one. */
  lemma CompleteWithoutWorker(w: World)
    requires Inv(w) && Completing(w.stage)
    ensures var r := w.stage.value.record;
            var events := [Remove(RequestName(r.key)), Write(Written)];
            && IsRun(w, events)
            && var v := After(w, events);
               r.key in v.launches && v.launches[r.key] == r && RequestName(r.key) !in v.engine
  {
    hide LaunchLease.IsDigest, LaunchLease.RequestName, RecordOk, Advances, EngineOk;
    var r := w.stage.value.record;
    assert WritingOk(w, r);
    var e := [Remove(RequestName(r.key)), Write(Written)];
    assert e[..0] == [];
    var w0 := w;
    var w1 := Take(w0, e[0]).world;
    var w2 := Take(w1, e[1]).world;
    hide IsRun, After, Take;
    OneMore(w0, e[..0], w0, e[0]);
    assert e[..0] + [e[0]] == e[..1];
    OneMore(w0, e[..1], w1, e[1]);
    assert e[..1] + [e[1]] == e[..2];
    assert e[..2] == e;
  }
}
