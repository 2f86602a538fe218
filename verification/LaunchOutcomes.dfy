/** What each operation achieves when nothing comes in between, from every state: the events of the
    operation are a run exactly under conditions that a caller can see, and then its end is known. */
module LaunchOutcomes {
  import opened Options
  import opened LaunchLease
  import opened LaunchRuns

  lemma FirstThenRest(w: World, e: Event, rest: seq<Event>)
    ensures IsRun(w, [e] + rest) <==> Possible(w, e) && IsRun(Take(w, e).world, rest)
    ensures IsRun(w, [e] + rest) ==> After(w, [e] + rest) == After(Take(w, e).world, rest)
  {
    assert ([e] + rest)[1..] == rest;
  }

  lemma JustOne(w: World, e: Event)
    ensures IsRun(w, [e]) <==> Possible(w, e)
    ensures IsRun(w, [e]) ==> After(w, [e]) == Take(w, e).world
  {
    FirstThenRest(w, e, []);
    assert [e] + [] == [e];
  }

  /** Drawing a lease and writing its record. */
  function Draws(lease: string): seq<Event> {
    [Draw(Some(lease))] + [Write(Written)]
  }

  ghost predicate IsFresh(w: World, lease: string) {
    lease != "" && lease !in w.minted
  }

  function Leased(r: LaunchRecord, lease: string, now: int): LaunchRecord {
    LaunchRecord(r.key, r.fingerprint, Pending, r.attempt + 1, lease, "", now)
  }

  lemma DrawsWhen(w: World, lease: string)
    ensures IsRun(w, Draws(lease)) <==> w.stage.Some? && w.stage.value.Drawing? && IsFresh(w, lease)
    ensures IsRun(w, Draws(lease)) ==>
              var r := w.stage.value.record;
              After(w, Draws(lease)).launches == w.launches[r.key := Leased(r, lease, w.now)]
  {
    var e := Draw(Some(lease));
    FirstThenRest(w, e, [Write(Written)]);
    if Possible(w, e) {
      JustOne(Take(w, e).world, Write(Written));
    }
  }

  /** The same after reading the reservations. */
  lemma SurveysWhen(w: World, lease: string)
    ensures var run := [Survey(Reserved(w.reserved))] + Draws(lease);
            && (IsRun(w, run) <==>
                  && w.stage.Some? && w.stage.value.Surveying? && IsFresh(w, lease)
                  && w.stage.value.record.key !in w.reserved)
            && (IsRun(w, run) ==>
                  var r := w.stage.value.record;
                  After(w, run).launches == w.launches[r.key := Leased(r, lease, w.now)])
  {
    var e := Survey(Reserved(w.reserved));
    FirstThenRest(w, e, Draws(lease));
    if Possible(w, e) {
      DrawsWhen(Take(w, e).world, lease);
    }
  }

  function FromLook(w: World, key: string, lease: string): seq<Event> {
    if key in w.launches then [Survey(Reserved(w.reserved))] + Draws(lease) else Draws(lease)
  }

  /** A claim that nothing disturbs, up to its lease. */
  function Claims(w: World, key: string, fingerprint: string, lease: string): seq<Event> {
    [BeginClaim(key, fingerprint, true)] + ([Look(false)] + FromLook(w, key, lease))
  }

  /** Nobody has the launch: it is new, or was given up, or its lease has run its full period. */
  predicate IsOpen(w: World, key: string, fingerprint: string) {
    key in w.launches ==>
      var r := w.launches[key];
      r.fingerprint == fingerprint &&
        (r.state.Failed? || (r.state.Pending? && w.now - r.updatedAt >= 5 * 60 * 1_000_000_000))
  }

  function Attempts(w: World, key: string): nat {
    if key in w.launches then w.launches[key].attempt else 0
  }

  lemma BeginsWhen(w: World, key: string, fingerprint: string)
    requires Inv(w) && Possible(w, BeginClaim(key, fingerprint, true))
    ensures var v := Take(w, BeginClaim(key, fingerprint, true)).world;
            && v == w.(stage := v.stage)
            && (v.stage.Some? <==> IsDigest(key) && IsDigest(fingerprint) && IsOpen(w, key, fingerprint))
            && (v.stage.Some? ==>
                  && v.stage.value.Looking? && v.stage.value.isNew == (key !in w.launches)
                  && v.stage.value.record.key == key && v.stage.value.record.fingerprint == fingerprint
                  && v.stage.value.record.attempt == Attempts(w, key))
  {
    hide LaunchLease.IsDigest;
    if key in w.launches {
      assert RecordOk(w, key);
    }
  }

  lemma LooksWhen(w: World)
    requires w.stage.Some? && w.stage.value.Looking? && IsDigest(w.stage.value.record.key)
    ensures var r, v := w.stage.value.record, Take(w, Look(false)).world;
            && v == w.(stage := v.stage)
            && (RequestName(r.key) !in w.engine ==>
                  v.stage == Some(if w.stage.value.isNew then Drawing(r) else Surveying(r)))
            && (RequestName(r.key) in w.engine ==>
                  var found := w.engine[RequestName(r.key)];
                  v.stage ==
                    if found == Worker(found.id, r.key, r.fingerprint)
                    then Some(Writing(r.(state := Complete, workerId := found.id, lease := "", updatedAt := w.now)))
                    else None)
  {
    hide LaunchLease.IsDigest, LaunchLease.RequestName;
  }

  lemma LookGoesThrough(v: World, lease: string)
    requires v.stage.Some? && v.stage.value.Looking? && IsDigest(v.stage.value.record.key)
    requires v.stage.value.isNew == (v.stage.value.record.key !in v.launches)
    ensures var r := v.stage.value.record;
            var run := [Look(false)] + FromLook(v, r.key, lease);
            && (IsRun(v, run) <==>
                  && RequestName(r.key) !in v.engine && IsFresh(v, lease)
                  && (r.key in v.launches ==> r.key !in v.reserved))
            && (IsRun(v, run) ==> After(v, run).launches == v.launches[r.key := Leased(r, lease, v.now)])
  {
    FirstThenRest(v, Look(false), FromLook(v, v.stage.value.record.key, lease));
    hide Take, IsRun, After, LaunchLease.IsDigest, LaunchLease.RequestName;
    var u := Take(v, Look(false)).world;
    LooksWhen(v);
    DrawsWhen(u, lease);
    SurveysWhen(u, lease);
  }

  /** A claim that nothing disturbs gets its lease if and only if the launch is open, the engine has no
      worker under the request's name, and a known request has no reservation. */
  lemma ClaimGoesThrough(w: World, key: string, fingerprint: string, lease: string)
    requires Inv(w)
    ensures IsRun(w, Claims(w, key, fingerprint, lease)) <==>
            && w.stage.None? && IsDigest(key) && IsDigest(fingerprint) && IsFresh(w, lease)
            && IsOpen(w, key, fingerprint) && RequestName(key) !in w.engine
            && (key in w.launches ==> key !in w.reserved)
    ensures IsRun(w, Claims(w, key, fingerprint, lease)) ==>
              After(w, Claims(w, key, fingerprint, lease)).launches ==
              w.launches[key := LaunchRecord(key, fingerprint, Pending, Attempts(w, key) + 1, lease, "", w.now)]
  {
    var e := BeginClaim(key, fingerprint, true);
    FirstThenRest(w, e, [Look(false)] + FromLook(w, key, lease));
    assert Possible(w, e) <==> w.stage.None?;
    if Possible(w, e) {
      var v := Take(w, e).world;
      BeginsWhen(w, key, fingerprint);
      FirstThenRest(v, Look(false), FromLook(w, key, lease));
      assert Possible(v, Look(false)) ==> v.stage.Some?;
      hide Take, IsRun, After, LaunchLease.IsDigest, LaunchLease.RequestName, Inv, IsOpen, Possible;
      if v.stage.Some? {
        LookGoesThrough(v, lease);
      }
    }
  }

  /** A claim that nothing disturbs adopts the worker under the request's name if and only if it is the
      request's own. */
  lemma ClaimAdopts(w: World, key: string, fingerprint: string)
    requires Inv(w) && w.stage.None? && IsDigest(key) && IsDigest(fingerprint) && IsOpen(w, key, fingerprint)
    ensures var run := [BeginClaim(key, fingerprint, true)] + ([Look(false)] + [Write(Written)]);
            && (IsRun(w, run) <==>
                  RequestName(key) in w.engine && w.engine[RequestName(key)].key == key &&
                    w.engine[RequestName(key)].fingerprint == fingerprint)
            && (IsRun(w, run) ==>
                  After(w, run).launches ==
                  w.launches[key := LaunchRecord(key, fingerprint, Complete, Attempts(w, key), "",
                                                 w.engine[RequestName(key)].id, w.now)])
  {
    var e := BeginClaim(key, fingerprint, true);
    FirstThenRest(w, e, [Look(false)] + [Write(Written)]);
    var v := Take(w, e).world;
    BeginsWhen(w, key, fingerprint);
    FirstThenRest(v, Look(false), [Write(Written)]);
    LooksWhen(v);
    hide LaunchLease.IsDigest, LaunchLease.RequestName, Inv, IsOpen;
    JustOne(Take(v, Look(false)).world, Write(Written));
  }

  /** A finish that nothing disturbs completes the launch if and only if its lease is current and the
      engine holds the named worker for the request. */
  lemma FinishCompletes(w: World, key: string, lease: string, workerId: string)
    requires Inv(w) && w.stage.None?
    ensures var run := [BeginFinish(key, lease, workerId)] + ([Look(false)] + [Write(Written)]);
            && (IsRun(w, run) <==>
                  && lease != "" && key in w.launches && w.launches[key].lease == lease
                  && RequestName(key) in w.engine
                  && w.engine[RequestName(key)] == Worker(workerId, key, w.launches[key].fingerprint))
            && (IsRun(w, run) ==>
                  var r := w.launches[key];
                  After(w, run).launches ==
                  w.launches[key := LaunchRecord(key, r.fingerprint, Complete, r.attempt, "", workerId, w.now)])
  {
    hide LaunchLease.IsDigest, LaunchLease.RequestName;
    if key in w.launches {
      assert RecordOk(w, key);
    }
    var e := BeginFinish(key, lease, workerId);
    FirstThenRest(w, e, [Look(false)] + [Write(Written)]);
    var v := Take(w, e).world;
    FirstThenRest(v, Look(false), [Write(Written)]);
    if Possible(v, Look(false)) {
      JustOne(Take(v, Look(false)).world, Write(Written));
    }
  }

  /** An abort that nothing disturbs gives the launch up if and only if its lease is current; a worker that
      it names is kept for cleaning up. */
  lemma AbortGivesUp(w: World, key: string, lease: string, workerId: string)
    requires Inv(w) && w.stage.None?
    ensures var run := [BeginAbort(key, lease, workerId)] + [Write(Written)];
            && (IsRun(w, run) <==> lease != "" && key in w.launches && w.launches[key].lease == lease)
            && (IsRun(w, run) ==>
                  var r := w.launches[key];
                  After(w, run).launches ==
                  w.launches[key := LaunchRecord(key, r.fingerprint, if workerId == "" then Failed else CleanupPending,
                                                 r.attempt, "", workerId, w.now)])
  {
    hide LaunchLease.IsDigest, LaunchLease.RequestName;
    if key in w.launches {
      assert RecordOk(w, key);
    }
    var e := BeginAbort(key, lease, workerId);
    FirstThenRest(w, e, [Write(Written)]);
    JustOne(Take(w, e).world, Write(Written));
  }

  /** A reply tells the truth: without an error its record is the durable one, except that a lease may be
      left out; an error that is not about writing means that nothing changed. */
  lemma RepliesAreTrue(w: World, e: Event)
    requires Inv(w) && Possible(w, e) && Take(w, e).reply.Some?
    ensures var reply, v := Take(w, e).reply.value, Take(w, e).world;
            && (reply.error.None? ==>
                  && reply.record.Some? && reply.record.value.key in v.launches
                  && reply.record.value in {v.launches[reply.record.value.key],
                                            v.launches[reply.record.value.key].(lease := "")})
            && (reply.error == Some(WriteFailed) <==> e.Write? && !e.write.Written?)
            && (reply.error.Some? && reply.error != Some(WriteFailed) ==> reply.record.None? && v == w.(stage := None))
  {
    hide LaunchLease.IsDigest, LaunchLease.RequestName;
    if Begins(e) && e.key in w.launches {
      assert RecordOk(w, e.key);
    }
  }
}
