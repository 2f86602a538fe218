/** Every interleaving of issues, restores, revocations, expiry, generation checks and refreshes
    of one proxy, together with a host product that replaces or deletes the stored credentials. */
module CredentialRuns {
  import opened Options
  import opened TokenTables
  import opened OAuthGenerations
  import opened TokenService

  /** What a compare-and-swap save really did, which its reply may not tell. */
  datatype SaveEffect = Applied(version: string) | AppliedUnseen(version: string) | NotApplied

  /** `past` holds every generation that was ever durable. `publishing` is a refresh that has been
      saved but is not in memory yet, and `lost` says that some save did not come back good. */
  datatype World = World(
    tables: Tables, kept: Case, current: Option<Credentials>, past: map<string, Credentials>,
    publishing: Option<(Provider, OAuth)>, lost: bool)

  datatype Event =
    | Prepare(record: TokenRecord)
    | Issue(record: TokenRecord)
    | Restore(record: TokenRecord)
    | Revoke(name: string)
    | RevokeRun(identity: Identity)
    | Expire(now: int)
    | Stop
    | CheckGeneration(fails: bool)
    | SaveRefresh(provider: Provider, next: OAuth, effect: SaveEffect)
    | Publish
    | ReplaceCase(creds: Credentials)
    | DeleteCase

  function Start(loaded: Credentials): World {
    World(EMPTY, Case(loaded, loaded.version, loaded.openai, loaded.anthropic), Some(loaded),
      map[loaded.version := loaded], None, false)
  }

  /** Leases, token values and versions do not repeat, the refresh lock admits one holder, and a
      save applies only to the version it names. */
  predicate Possible(w: World, e: Event) {
    match e
    case Prepare(r) => r.lease !in w.tables.created
    case Issue(r) => r in w.tables.inFlight &&
      !(r.token in w.tables.byValue && w.tables.byValue[r.token].name != r.name)
    case Restore(r) => r.lease !in w.tables.created
    case CheckGeneration(_) => w.publishing.None?
    case SaveRefresh(provider, _, effect) =>
      && w.publishing.None? && Memory(w.kept, provider).Some?
      && (!effect.NotApplied? ==>
            && effect.version != "" && effect.version !in w.past
            && w.current.Some? && w.current.value.version == w.kept.storeVersion)
    case Publish => w.publishing.Some?
    case ReplaceCase(creds) => creds.version != "" && creds.version !in w.past
    case _ => true
  }

  function Reply(effect: SaveEffect): Save {
    if effect.Applied? then Saved(effect.version) else SaveFailed
  }

  function LoadFrom(w: World, fails: bool): Load {
    if fails then LoadFailed else if w.current.None? then Missing else Loaded(w.current.value)
  }

  function StoreAfter(w: World, provider: Provider, next: OAuth, effect: SaveEffect): World {
    if effect.NotApplied? then w
    else var creds := With(w.kept.storeCreds, provider, next).(version := effect.version);
         w.(current := Some(creds), past := w.past[effect.version := creds])
  }

  function Take(w: World, e: Event): World {
    match e
    case Prepare(r) => w.(tables := TokenTables.Prepare(w.tables, r))
    case Issue(r) => if r in w.tables.inFlight then w.(tables := CommitIssue(w.tables, r)) else w
    case Restore(r) => w.(tables := CommitRestore(w.tables, r))
    case Revoke(name) => w.(tables := Remove(w.tables, name))
    case RevokeRun(identity) => w.(tables := TokenTables.RevokeRun(w.tables, identity))
    case Expire(now) => w.(tables := TokenTables.Expire(w.tables, now))
    case Stop => w.(tables := TokenTables.Stop(w.tables))
    case CheckGeneration(fails) => w.(tables := TablesAfterCheck(w.tables, w.kept, LoadFrom(w, fails)))
    case SaveRefresh(provider, next, effect) =>
      StoreAfter(w, provider, next, effect).(
        tables := TablesAfterSave(w.tables, Reply(effect)),
        kept := SaveStep(w.kept, provider, next, Reply(effect)),
        publishing := if effect.Applied? then Some((provider, next)) else None,
        lost := w.lost || !effect.Applied?)
    case Publish =>
      if w.publishing.None? then w
      else w.(kept := PublishStep(w.kept, w.publishing.value.0, w.publishing.value.1), publishing := None)
    case ReplaceCase(creds) => w.(current := Some(creds), past := w.past[creds.version := creds])
    case DeleteCase => w.(current := None)
  }

  ghost predicate IsRun(w: World, events: seq<Event>)
    decreases |events|
  {
    events == [] || (Possible(w, events[0]) && IsRun(Take(w, events[0]), events[1..]))
  }

  function After(w: World, events: seq<Event>): World
    decreases |events|
  {
    if events == [] then w else After(Take(w, events[0]), events[1..])
  }

  /** The generation the proxy keeps is durable under the version it keeps. */
  ghost predicate Durable(w: World) {
    && w.kept.storeVersion in w.past && w.past[w.kept.storeVersion] == w.kept.storeCreds
    && (forall v | v in w.past :: w.past[v].version == v)
    && (w.current.Some? ==> w.current.value.version in w.past && w.past[w.current.value.version] == w.current.value)
  }

  /** Memory serves that generation, except for a refresh that is saved and about to appear. */
  ghost predicate Published(w: World) {
    forall p: Provider ::
      if w.publishing.Some? && w.publishing.value.0 == p
      then Stored(w.kept.storeCreds, p) == Some(w.publishing.value.1)
      else Memory(w.kept, p) == Stored(w.kept.storeCreds, p)
  }

  ghost predicate WasDurable(w: World, p: Provider) {
    exists v :: v in w.past && Stored(w.past[v], p) == Memory(w.kept, p)
  }

  /** Memory never holds a credential that was not durable first. */
  ghost predicate NeverAhead(w: World) {
    forall p: Provider :: WasDurable(w, p)
  }

  ghost predicate Good(w: World) {
    && Inv(w.tables) && Durable(w) && Published(w) && NeverAhead(w)
    && (w.lost ==> w.tables.caseRevoked)
  }

  lemma StartIsGood(loaded: Credentials)
    ensures Good(Start(loaded))
  {
    var w := Start(loaded);
    forall p: Provider ensures WasDurable(w, p) {
      assert loaded.version in w.past;
    }
  }

  lemma TablesStayGood(w: World, e: Event)
    requires Good(w) && Possible(w, e)
    ensures Inv(Take(w, e).tables)
  {
    hide TokenTables.Inv, TokenTables.Indexed, TokenTables.Remove, TokenTables.RemoveAll, TokenTables.Replace;
    match e {
      case Prepare(r) => PrepareKeepsInv(w.tables, r);
      case Issue(r) => CommitIssueKeepsInv(w.tables, r);
      case Restore(r) => CommitRestoreKeepsInv(w.tables, r);
      case Revoke(name) => RemoveKeepsInv(w.tables, name);
      case RevokeRun(identity) => RevokeRunKeepsInv(w.tables, identity);
      case Expire(now) => RemoveAllKeepsInv(w.tables, ExpiredNames(w.tables, now));
      case Stop => StopKeepsInv(w.tables);
      case CheckGeneration(_) => RevokeCaseKeepsInv(w.tables);
      case SaveRefresh(_, _, _) => RevokeCaseKeepsInv(w.tables);
      case _ =>
    }
  }

  lemma StaysDurable(w: World, e: Event)
    requires Good(w) && Possible(w, e)
    ensures Durable(Take(w, e))
  {
    hide TokenTables.Inv, NeverAhead;
    assert Memory(w.kept, OpenAI) == Stored(w.kept.storeCreds, OpenAI) || w.publishing.Some?;
  }

  lemma StaysPublished(w: World, e: Event)
    requires Good(w) && Possible(w, e)
    ensures Published(Take(w, e))
  {
    hide TokenTables.Inv, NeverAhead;
    var v := Take(w, e);
    forall p: Provider
      ensures if v.publishing.Some? && v.publishing.value.0 == p
              then Stored(v.kept.storeCreds, p) == Some(v.publishing.value.1)
              else Memory(v.kept, p) == Stored(v.kept.storeCreds, p)
    {
      assert if w.publishing.Some? && w.publishing.value.0 == p
             then Stored(w.kept.storeCreds, p) == Some(w.publishing.value.1)
             else Memory(w.kept, p) == Stored(w.kept.storeCreds, p);
    }
  }

  lemma StaysBehind(w: World, e: Event)
    requires Good(w) && Possible(w, e)
    ensures NeverAhead(Take(w, e))
  {
    hide TokenTables.Inv;
    var v := Take(w, e);
    StaysDurable(w, e);
    forall p: Provider ensures WasDurable(v, p) {
      assert WasDurable(w, p);
      var version :| version in w.past && Stored(w.past[version], p) == Memory(w.kept, p);
      assert version in v.past && v.past[version] == w.past[version];
      assert w.kept.storeVersion in v.past && v.past[w.kept.storeVersion] == w.kept.storeCreds;
    }
  }

  lemma LossStays(w: World, e: Event)
    requires Good(w) && Possible(w, e)
    ensures Take(w, e).lost ==> Take(w, e).tables.caseRevoked
    ensures w.tables.caseRevoked ==> Take(w, e).tables.caseRevoked
    ensures w.tables.revokedRuns <= Take(w, e).tables.revokedRuns
    ensures w.tables.cancelled <= Take(w, e).tables.cancelled
    ensures w.lost ==> Take(w, e).lost
    ensures w.past.Keys <= Take(w, e).past.Keys
  {
    hide TokenTables.Inv;
  }

  lemma StepStaysGood(w: World, e: Event)
    requires Good(w) && Possible(w, e)
    ensures Good(Take(w, e))
  {
    hide Take, TokenTables.Inv, Durable, Published, NeverAhead;
    TablesStayGood(w, e);
    StaysDurable(w, e);
    StaysPublished(w, e);
    StaysBehind(w, e);
    LossStays(w, e);
  }

  /** In every reachable state the tables are consistent and memory is not ahead of the store, and
      no revocation, cancellation or loss is ever taken back. */
  lemma {:induction false} RunStaysGood(w: World, events: seq<Event>)
    requires Good(w) && IsRun(w, events)
    ensures Good(After(w, events))
    ensures w.tables.caseRevoked ==> After(w, events).tables.caseRevoked
    ensures w.tables.revokedRuns <= After(w, events).tables.revokedRuns
    ensures w.tables.cancelled <= After(w, events).tables.cancelled
    ensures w.lost ==> After(w, events).lost
    decreases |events|
  {
    hide Take, Good;
    if events != [] {
      StepStaysGood(w, events[0]);
      LossStays(w, events[0]);
      RunStaysGood(Take(w, events[0]), events[1..]);
    }
  }

  /** A revoked run never gets through again, whatever happens afterwards. */
  lemma RevokedRunStaysOut(w: World, events: seq<Event>, identity: Identity, token: string, now: int, path: string)
    requires Good(w) && IsRun(w, events) && identity in w.tables.revokedRuns
    ensures var found := Authenticate(After(w, events).tables, token, now, path);
            found.Some? ==> found.value.identity != identity
  {
    RunStaysGood(w, events);
  }

  /** Once the case is revoked no token exists, none is accepted, and none can be made. */
  lemma RevokedCaseServesNobody(w: World, events: seq<Event>, token: string, now: int, path: string, r: TokenRecord)
    requires Good(w) && IsRun(w, events) && w.tables.caseRevoked
    ensures var s := After(w, events).tables;
            && s.tokens == map[] && s.byValue == map[]
            && Authenticate(s, token, now, path).None?
            && CommitRestore(s, r) == s
            && (r in s.inFlight ==> CommitIssue(s, r).tokens == map[] && r.lease in CommitIssue(s, r).cancelled)
  {
    RunStaysGood(w, events);
    var s := After(w, events).tables;
    assert s.byValue == map[] by {
      assert forall t | t in s.byValue :: s.byValue[t].name in s.tokens;
    }
  }

  /** One refresh that did not become durable ends the service of the proxy for good. */
  lemma LostSaveEndsService(w: World, provider: Provider, next: OAuth, effect: SaveEffect, events: seq<Event>,
        token: string, now: int, path: string, r: TokenRecord)
    requires Good(w) && Possible(w, SaveRefresh(provider, next, effect)) && !effect.Applied?
    requires IsRun(Take(w, SaveRefresh(provider, next, effect)), events)
    ensures var s := After(Take(w, SaveRefresh(provider, next, effect)), events).tables;
            && s.tokens == map[] && Authenticate(s, token, now, path).None? && CommitRestore(s, r) == s
  {
    var e := SaveRefresh(provider, next, effect);
    StepStaysGood(w, e);
    LossStays(w, e);
    RevokedCaseServesNobody(Take(w, e), events, token, now, path, r);
  }

  /** Between refreshes, both providers serve exactly the generation stored under the version
      the proxy keeps. */
  lemma QuietMemoryIsDurable(w: World, events: seq<Event>)
    requires Good(w) && IsRun(w, events) && After(w, events).publishing.None?
    ensures var v := After(w, events);
            && v.kept.storeVersion in v.past
            && v.kept.openai == v.past[v.kept.storeVersion].openai
            && v.kept.anthropic == v.past[v.kept.storeVersion].anthropic
  {
    RunStaysGood(w, events);
    var v := After(w, events);
    assert Memory(v.kept, OpenAI) == Stored(v.kept.storeCreds, OpenAI);
    assert Memory(v.kept, Anthropic) == Stored(v.kept.storeCreds, Anthropic);
  }

  /** A record that has left the tables has been cancelled, and stays so. */
  lemma DepartedRecordsStayCancelled(w: World, events: seq<Event>, name: string)
    requires Good(w) && IsRun(w, events) && name in w.tables.tokens
    ensures var s, lease := After(w, events).tables, w.tables.tokens[name].lease;
            || lease in s.cancelled
            || (name in s.tokens && s.tokens[name] == w.tables.tokens[name])
    decreases |events|
  {
    if events != [] {
      var v := Take(w, events[0]);
      StepStaysGood(w, events[0]);
      RecordStaysOrIsCancelled(w, events[0], name);
      if w.tables.tokens[name].lease in v.tables.cancelled {
        RunStaysGood(v, events[1..]);
      } else {
        DepartedRecordsStayCancelled(v, events[1..], name);
      }
    }
  }

  lemma RecordStaysOrIsCancelled(w: World, e: Event, name: string)
    requires Good(w) && Possible(w, e) && name in w.tables.tokens
    ensures var s := Take(w, e).tables;
            || w.tables.tokens[name].lease in s.cancelled
            || (name in s.tokens && s.tokens[name] == w.tables.tokens[name])
  {
    hide TokenTables.Inv;
  }

  /** What ends the service of one record: its name or its run is revoked, its time is over, another record
      takes its place, everything is stopped, or the case goes out of service. */
  predicate EndsRecord(w: World, e: Event, r: TokenRecord) {
    match e
    case Revoke(name) => name == r.name
    case RevokeRun(identity) => identity == r.identity
    case Expire(now) => now > r.expiresAt
    case Stop => true
    case Issue(q) => q.name == r.name && !Refuses(w.tables, q.identity)
    case Restore(q) => q.name == r.name && !RestoreRefused(w.tables, q)
    case CheckGeneration(fails) => !fails && !SameGeneration(w.kept, LoadFrom(w, false))
    case SaveRefresh(_, _, effect) => !effect.Applied?
    case _ => false
  }

  lemma ServedRecord(s: Tables, r: TokenRecord, now: int, path: string)
    requires Inv(s) && Authenticate(s, r.token, now, path) == Some(r)
    ensures r.name in s.tokens && s.tokens[r.name] == r && r.token in s.byValue && s.byValue[r.token] == r
    ensures r.lease in s.created && r !in s.inFlight
    ensures !s.caseRevoked && r.identity !in s.revokedRuns
  {
  }

  /** One step ends the service of a record exactly when it is one of those. */
  lemma ServedStep(w: World, e: Event, r: TokenRecord, now: int, path: string)
    requires Good(w) && Possible(w, e) && Authenticate(w.tables, r.token, now, path) == Some(r)
    ensures Authenticate(Take(w, e).tables, r.token, now, path) == Some(r) <==> !EndsRecord(w, e, r)
  {
    var s := w.tables;
    hide TokenTables.Inv, ProviderRouteAllowed, Durable, Published, NeverAhead, Authenticate, TokenTables.Replace,
      TokenTables.RemoveAll, TokenTables.Remove;
    ServedRecord(s, r, now, path);
    match e {
      case Prepare(q) => PreparationIsUnseen(s, q, r.token, now, path);
      case Issue(q) => IssueServes(s, q, r.token, now, path);
      case Restore(q) => RestoreServes(s, q, r.token, now, path);
      case Revoke(name) => RevokingEndsOneName(s, name, r.token, now, path);
      case RevokeRun(identity) => RevokingEndsOneRun(s, identity, r.token, now, path);
      case Expire(at) => RemovalEndsNames(s, ExpiredNames(s, at), r.token, now, path);
      case Stop => NobodyIsServed(s, r.token, now, path);
      case CheckGeneration(_) => NobodyIsServed(s, r.token, now, path);
      case SaveRefresh(_, _, _) => NobodyIsServed(s, r.token, now, path);
      case _ =>
    }
  }

  predicate EndedWithin(w: World, events: seq<Event>, r: TokenRecord)
    decreases |events|
  {
    events != [] && (EndsRecord(w, events[0], r) || EndedWithin(Take(w, events[0]), events[1..], r))
  }

  /** A token that is accepted stays accepted, under the same record, over exactly those runs in which nothing
      ends the service of its record. */
  lemma {:induction false} ServedUntilEnded(w: World, events: seq<Event>, r: TokenRecord, now: int, path: string)
    requires Good(w) && IsRun(w, events) && Authenticate(w.tables, r.token, now, path) == Some(r)
    ensures Authenticate(After(w, events).tables, r.token, now, path) == Some(r) <==> !EndedWithin(w, events, r)
    decreases |events|
  {
    hide Take, Good, EndsRecord, Authenticate;
    if events != [] {
      var v, rest := Take(w, events[0]), events[1..];
      StepStaysGood(w, events[0]);
      ServedStep(w, events[0], r, now, path);
      if !EndsRecord(w, events[0], r) {
        ServedUntilEnded(v, rest, r, now, path);
      } else {
        EndedStaysEnded(w, events[0], rest, r, now, path);
      }
    }
  }

  lemma EndedStaysEnded(w: World, e: Event, rest: seq<Event>, r: TokenRecord, now: int, path: string)
    requires Good(w) && Possible(w, e) && IsRun(Take(w, e), rest)
    requires Authenticate(w.tables, r.token, now, path) == Some(r)
    requires Authenticate(Take(w, e).tables, r.token, now, path) != Some(r)
    ensures Authenticate(After(Take(w, e), rest).tables, r.token, now, path) != Some(r)
  {
    hide Take, Possible, ProviderRouteAllowed;
    var v := Take(w, e);
    StepStaysGood(w, e);
    ServedRecord(w.tables, r, now, path);
    RecordStaysOrIsCancelled(w, e, r.name);
    AcceptedIsNamed(w.tables, r.token, now, path, r);
    AcceptedIsNamed(v.tables, r.token, now, path, r);
    RunStaysGood(v, rest);
  }

  /** The host product replaced or deleted the generation that the proxy keeps. */
  predicate Superseded(w: World) {
    w.current.None? || w.current.value.version != w.kept.storeVersion
  }

  lemma HostSupersedes(w: World, e: Event)
    requires Good(w) && Possible(w, e) && (e.ReplaceCase? || e.DeleteCase?)
    ensures Superseded(Take(w, e))
  {
    hide TokenTables.Inv;
  }

  /** What takes a superseded case out of service: a check that reaches the store, or a refresh, whose
      save cannot apply any more. */
  predicate EndsCase(e: Event) {
    (e.CheckGeneration? && !e.fails) || e.SaveRefresh?
  }

  lemma SupersededStep(w: World, e: Event)
    requires Good(w) && Possible(w, e) && Superseded(w)
    ensures Superseded(Take(w, e))
    ensures Take(w, e).tables.caseRevoked <==> w.tables.caseRevoked || EndsCase(e)
    ensures forall identity :: identity in Take(w, e).tables.revokedRuns <==>
            identity in w.tables.revokedRuns || e == RevokeRun(identity)
  {
    hide TokenTables.Inv;
  }

  ghost predicate Ended(events: seq<Event>) {
    exists k :: 0 <= k < |events| && EndsCase(events[k])
  }

  /** A superseded generation stays superseded, and the case is revoked from the first check that reaches
      the store, or the first refresh, and by nothing else. */
  lemma {:induction false} SupersededUntilChecked(w: World, events: seq<Event>)
    requires Good(w) && IsRun(w, events) && Superseded(w)
    ensures Superseded(After(w, events))
    ensures After(w, events).tables.caseRevoked <==> w.tables.caseRevoked || Ended(events)
    ensures forall identity :: identity in After(w, events).tables.revokedRuns <==>
            identity in w.tables.revokedRuns || RevokeRun(identity) in events
    decreases |events|
  {
    hide Take, Good, Superseded, EndsCase;
    if events != [] {
      StepStaysGood(w, events[0]);
      SupersededStep(w, events[0]);
      SupersededUntilChecked(Take(w, events[0]), events[1..]);
      assert Ended(events) <==> EndsCase(events[0]) || Ended(events[1..]) by {
        assert forall k | 0 < k < |events| :: events[k] == events[1..][k - 1];
        assert forall k | 0 <= k < |events| - 1 :: events[1..][k] == events[k + 1];
      }
      assert events == [events[0]] + events[1..];
    }
  }

  /** After a replacement or deletion, the next check that reaches the store ends the service for good. */
  lemma NextCheckRevokesForGood(w: World, events: seq<Event>, token: string, now: int, path: string, r: TokenRecord)
    requires Good(w) && IsRun(w, events) && Superseded(w) && CheckGeneration(false) in events
    ensures var s := After(w, events).tables;
            s.caseRevoked && s.tokens == map[] && Authenticate(s, token, now, path).None? && CommitRestore(s, r) == s
  {
    SupersededUntilChecked(w, events);
    assert Ended(events) by {
      var k :| 0 <= k < |events| && events[k] == CheckGeneration(false);
      assert EndsCase(events[k]);
    }
    RunStaysGood(w, events);
    assert After(w, events).tables.caseRevoked;
    RevokedCaseServesNobody(After(w, events), [], token, now, path, r);
  }

  /** An issue that was checked before a replacement still lands after it exactly when, between the two,
      nobody else's check reached the store, no refresh was tried and its own run was not revoked. */
  lemma IssueAfterReplacement(w: World, events: seq<Event>, r: TokenRecord)
    requires Good(w) && IsRun(w, events) && Superseded(w) && !Refuses(w.tables, r.identity)
    requires Possible(After(w, events), Issue(r))
    ensures var s := Take(After(w, events), Issue(r)).tables;
            (r.name in s.tokens && s.tokens[r.name] == r) <==> !Ended(events) && RevokeRun(r.identity) !in events
  {
    SupersededUntilChecked(w, events);
    RunStaysGood(w, events);
    hide Ended, EndsCase, Superseded;
    IssueLands(After(w, events), r);
  }

  lemma IssueLands(w: World, r: TokenRecord)
    requires Good(w) && Possible(w, Issue(r))
    ensures var s := Take(w, Issue(r)).tables;
            (r.name in s.tokens && s.tokens[r.name] == r) <==> !Refuses(w.tables, r.identity)
  {
  }
}
