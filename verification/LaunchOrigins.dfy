/** Which operation is behind each record and each reply of a run, and what every operation achieves from
    every state when nothing comes in between. */
module LaunchOrigins {
  import opened Options
  import opened LaunchLease
  import opened LaunchRuns
  import opened LaunchMoments

  predicate GoesOn(e: Event) {
    Outside(e) || e.Look? || e.Survey? || e.Draw?
  }

  /** The operation at work at `n` began at `b`. */
  ghost predicate BeganAt(events: seq<Event>, b: nat, n: nat) {
    b < n <= |events| && Begins(events[b]) && forall k | b < k < n :: GoesOn(events[k])
  }

  /** The operation `e`, which began on these records, may have come to this stage. */
  predicate LedTo(launches: Launches, e: Event, stage: Stage) {
    match stage
    case Looking(r, _) => e == BeginClaim(r.key, r.fingerprint, true)
    case Surveying(r) => e == BeginClaim(r.key, r.fingerprint, true)
    case Drawing(r) => e == BeginClaim(r.key, r.fingerprint, true)
    case Matching(r, id) => e == BeginFinish(r.key, r.lease, id) && Holds(launches, r.key, r.lease)
    case Writing(r) => (match r.state
      case Pending => e == BeginClaim(r.key, r.fingerprint, true)
      case Complete =>
        || e == BeginClaim(r.key, r.fingerprint, true)
        || (e.BeginFinish? && e.key == r.key && e.workerId == r.workerId && Holds(launches, e.key, e.lease))
      case Failed => e.BeginAbort? && e.key == r.key && e.workerId == "" && Holds(launches, e.key, e.lease)
      case CleanupPending =>
        e.BeginAbort? && e.key == r.key && e.workerId == r.workerId != "" && Holds(launches, e.key, e.lease))
    case Replied(_) => false
  }

  lemma BeginLeads(w: World, e: Event)
    requires Inv(w) && Possible(w, e) && Begins(e) && Take(w, e).world.stage.Some?
    ensures LedTo(w.launches, e, Take(w, e).world.stage.value) && Take(w, e).world.launches == w.launches
  {
    hide LaunchLease.IsDigest;
    if e.key in w.launches {
      assert RecordOk(w, e.key);
    }
  }

  lemma LookLeads(w: World, e: Event, launches: Launches, first: Event)
    requires Possible(w, e) && e.Look? && Take(w, e).world.stage.Some? && LedTo(launches, first, w.stage.value)
    ensures LedTo(launches, first, Take(w, e).world.stage.value) && Take(w, e).world.launches == w.launches
  {
    hide LaunchLease.IsDigest, LaunchLease.RequestName, Holds;
  }

  lemma StageLeads(w: World, e: Event, launches: Launches, first: Event)
    requires Possible(w, e) && GoesOn(e) && Take(w, e).world.stage.Some?
    requires w.stage.Some? && LedTo(launches, first, w.stage.value)
    ensures LedTo(launches, first, Take(w, e).world.stage.value) && Take(w, e).world.launches == w.launches
  {
    if e.Look? {
      LookLeads(w, e, launches, first);
    } else if Outside(e) {
      hide LedTo;
    } else {
      hide LaunchLease.IsDigest, Holds;
    }
  }

  lemma StageComesFrom(w: World, e: Event)
    requires Possible(w, e) && Take(w, e).world.stage.Some?
    ensures Begins(e) || (GoesOn(e) && w.stage.Some?)
  {
  }

  /** Whatever is about to be written, looked up or drawn belongs to one operation, and the records are
      still those on which it began. */
  lemma {:induction false} Origin(events: seq<Event>, n: nat) returns (b: nat)
    requires IsRun(START, events) && n <= |events| && At(events, n).stage.Some?
    ensures BeganAt(events, b, n) && At(events, b).launches == At(events, n).launches
    ensures LedTo(At(events, b).launches, events[b], At(events, n).stage.value)
    decreases n
  {
    hide Take, Inv, LedTo, At;
    assert n > 0 by {
      StartHasNoStage(events);
    }
    Next(events, n - 1);
    GoodAt(events, n - 1);
    var w, e := At(events, n - 1), events[n - 1];
    StageComesFrom(w, e);
    if Begins(e) {
      b := n - 1;
      BeginLeads(w, e);
    } else {
      b := Origin(events, n - 1);
      StageLeads(w, e, At(events, b).launches, events[b]);
    }
  }

  /** Nobody receives a lease but the claim that asked for it. */
  lemma LeaseForItsClaim(events: seq<Event>, n: nat) returns (b: nat)
    requires IsRun(START, events) && n < |events| && ReplyAt(START, events, n).Some?
    requires LeaseIn(ReplyAt(START, events, n).value) != ""
    ensures BeganAt(events, b, n)
    ensures var r := ReplyAt(START, events, n).value.record.value;
            events[b] == BeginClaim(r.key, r.fingerprint, true)
  {
    Next(events, n);
    GoodAt(events, n);
    LeaseIsNew(At(events, n), events[n]);
    b := Origin(events, n);
    assert WritingOk(At(events, n), At(events, n).stage.value.record);
  }

  lemma Later(events: seq<Event>, i: nat, j: nat)
    requires IsRun(START, events) && i <= j <= |events|
    ensures LaunchesAdvance(At(events, i), At(events, j))
  {
    GoodAt(events, i);
    assert events[..j] == events[..i] + events[i..j] && events == events[..j] + events[j..];
    AfterJoined(START, events[..j], events[j..]);
    AfterJoined(START, events[..i], events[i..j]);
    RunAdvances(At(events, i), events[i..j]);
  }

  /** A closed launch stays as it is, every later claim of it is told so, and nobody gets a lease of it. */
  lemma ClosedIsAnswered(events: seq<Event>, i: nat, n: nat, key: string)
    requires IsRun(START, events) && i <= n < |events|
    requires key in At(events, i).launches && Closed(At(events, i).launches[key])
    ensures key in At(events, n).launches && At(events, n).launches[key] == At(events, i).launches[key]
    ensures var r, reply := At(events, i).launches[key], ReplyAt(START, events, n);
            && (events[n] == BeginClaim(key, r.fingerprint, true) ==> reply == Some(Reply(Some(r), None)))
            && (reply.Some? && LeaseIn(reply.value) != "" ==> reply.value.record.value.key != key)
  {
    hide LaunchLease.IsDigest;
    Later(events, i, n);
    Next(events, n);
    GoodAt(events, n);
    var w := At(events, n);
    assert RecordOk(w, key);
    if Take(w, events[n]).reply.Some? && LeaseIn(Take(w, events[n]).reply.value) != "" {
      LeaseIsNew(w, events[n]);
      assert WritingOk(w, w.stage.value.record);
    }
  }

  lemma SameOrigin(events: seq<Event>, b: nat, c: nat, n: nat)
    requires BeganAt(events, b, n) && BeganAt(events, c, n)
    ensures b == c
  {
  }

  lemma WriteStores(w: World, e: Event)
    requires Possible(w, e) && e.Write? && !e.write.NotWritten?
    ensures w.stage.Some? && w.stage.value.Writing?
    ensures var r := w.stage.value.record; Take(w, e).world.launches == w.launches[r.key := r]
  {
  }

  lemma AbortWrites(launches: Launches, e: Event, r: LaunchRecord)
    requires e.BeginAbort? && LedTo(launches, e, Writing(r))
    ensures r.key == e.key && e.key in launches
    ensures if e.workerId == "" then r.state.Failed? else r.state.CleanupPending? && r.workerId == e.workerId
  {
  }

  lemma WritingIsOk(w: World)
    requires Inv(w) && w.stage.Some? && w.stage.value.Writing?
    ensures var r := w.stage.value.record;
            && (r.state.Pending? <==> r.lease != "")
            && (r.key in w.launches ==> r.fingerprint == w.launches[r.key].fingerprint)
  {
    hide LaunchLease.IsDigest, RecordOk, EngineOk, Open;
    assert WritingOk(w, w.stage.value.record);
  }

  /** What an abort writes is what it began for. */
  lemma WrittenByAbort(events: seq<Event>, b: nat, n: nat)
    requires IsRun(START, events) && n < |events| && BeganAt(events, b, n) && events[b].BeginAbort?
    requires events[n].Write? && !events[n].write.NotWritten?
    ensures var key, worker, v := events[b].key, events[b].workerId, At(events, n + 1);
            && key in v.launches && v.launches[key].lease == ""
            && key in At(events, b).launches && v.launches[key].fingerprint == At(events, b).launches[key].fingerprint
            && (if worker == "" then v.launches[key].state.Failed?
                else v.launches[key].state.CleanupPending? && v.launches[key].workerId == worker)
  {
    hide Take, Inv, At, LedTo, IsRun;
    Next(events, n);
    GoodAt(events, n);
    var w := At(events, n);
    WriteStores(w, events[n]);
    var c := Origin(events, n);
    SameOrigin(events, b, c, n);
    AbortWrites(At(events, b).launches, events[b], w.stage.value.record);
    WritingIsOk(w);
  }

  /** After an abort that named a worker is written, its record is closed with exactly that worker for the
      rest of the run, and no later reply carries a lease of its request. */
  lemma AbortKeepsWorker(events: seq<Event>, b: nat, n: nat, m: nat)
    requires IsRun(START, events) && n < m < |events| && BeganAt(events, b, n)
    requires events[b].BeginAbort? && events[b].workerId != ""
    requires events[n].Write? && !events[n].write.NotWritten?
    ensures var key, v, reply := events[b].key, At(events, m), ReplyAt(START, events, m);
            && key in v.launches && v.launches[key].state.CleanupPending?
            && v.launches[key].workerId == events[b].workerId
            && (reply.Some? && LeaseIn(reply.value) != "" ==> reply.value.record.value.key != key)
  {
    hide Take, Inv, At, IsRun, ReplyAt;
    WrittenByAbort(events, b, n);
    ClosedIsAnswered(events, n + 1, m, events[b].key);
  }
}
