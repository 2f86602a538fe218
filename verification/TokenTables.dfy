/** The worker token tables of internal/authproxy: one set of records under two keys, with leases
    that are cancelled when a record leaves the tables, and revocations that are never undone. */
module TokenTables {
  import opened Options

  datatype Identity = Identity(caseId: string, connection: string, run: string, provider: string)

  /** `lease` names the cancellable context of this one record. */
  datatype TokenRecord = TokenRecord(token: string, name: string, expiresAt: int, identity: Identity, lease: nat)

  /** `created` holds every lease ever made. `inFlight` holds the records of issue operations
      that have passed their checks but not yet taken the lock. */
  datatype Tables = Tables(
    tokens: map<string, TokenRecord>,
    byValue: map<string, TokenRecord>,
    revokedRuns: set<Identity>,
    caseRevoked: bool,
    cancelled: set<nat>,
    created: set<nat>,
    inFlight: set<TokenRecord>)

  const EMPTY := Tables(map[], map[], {}, false, {}, {}, {})

  /** The two tables hold the same records, each under its own name and its own value. */
  ghost predicate Indexed(s: Tables) {
    && (forall n | n in s.tokens ::
      var r := s.tokens[n]; r.name == n && r.token in s.byValue && s.byValue[r.token] == r)
    && (forall t | t in s.byValue :: var r := s.byValue[t]; r.token == t && r.name in s.tokens && s.tokens[r.name] == r)
  }

  ghost predicate LeaseAccounted(s: Tables, lease: nat) {
    || lease in s.cancelled
    || (exists r :: r in s.inFlight && r.lease == lease)
    || (exists n :: n in s.tokens && s.tokens[n].lease == lease)
  }

  ghost predicate Live(s: Tables, r: TokenRecord) {
    r.lease in s.created && r.lease !in s.cancelled
  }

  /** No record in a table or on its way into one has been cancelled, and none in a table belongs
      to a revoked run or case. */
  ghost predicate AllLive(s: Tables) {
    && (forall n | n in s.tokens :: Live(s, s.tokens[n]) && s.tokens[n].identity !in s.revokedRuns)
    && (forall r | r in s.inFlight :: Live(s, r))
    && (s.caseRevoked ==> s.tokens == map[])
    && s.cancelled <= s.created
  }

  ghost predicate Separate(s: Tables) {
    && (forall m, n | m in s.tokens && n in s.tokens && m != n :: s.tokens[m].lease != s.tokens[n].lease)
    && (forall r, n | r in s.inFlight && n in s.tokens :: s.tokens[n].lease != r.lease)
    && (forall q, r | q in s.inFlight && r in s.inFlight && q != r :: q.lease != r.lease)
  }

  /** Every record that is neither in the tables nor on its way has a cancelled lease. */
  ghost predicate Accounted(s: Tables) {
    forall l | l in s.created :: LeaseAccounted(s, l)
  }

  ghost predicate Inv(s: Tables) {
    Indexed(s) && AllLive(s) && Separate(s) && Accounted(s)
  }

  /** Removing a name cancels its lease and frees its value. */
  function Remove(s: Tables, name: string): Tables {
    if name !in s.tokens then s
    else s.(tokens := s.tokens - {name}, byValue := s.byValue - {s.tokens[name].token},
      cancelled := s.cancelled + {s.tokens[name].lease})
  }

  function RemoveAll(s: Tables, names: set<string>): Tables {
    s.(tokens := s.tokens - names,
       byValue := map t | t in s.byValue && s.byValue[t].name !in names :: s.byValue[t],
       cancelled := s.cancelled + set n | n in s.tokens && n in names :: s.tokens[n].lease)
  }

  function Replace(s: Tables, r: TokenRecord): Tables {
    var removed := Remove(s, r.name);
    removed.(tokens := removed.tokens[r.name := r], byValue := removed.byValue[r.token := r])
  }

  predicate Refuses(s: Tables, identity: Identity) {
    s.caseRevoked || identity in s.revokedRuns
  }

  /** The record of an issue operation before it takes the lock. */
  function Prepare(s: Tables, r: TokenRecord): Tables {
    s.(created := s.created + {r.lease}, inFlight := s.inFlight + {r})
  }

  /** The locked part of an issue operation. */
  function CommitIssue(s: Tables, r: TokenRecord): Tables {
    var landed := s.(inFlight := s.inFlight - {r});
    if Refuses(s, r.identity) then landed.(cancelled := landed.cancelled + {r.lease})
    else Replace(landed, r)
  }

  predicate RestoreRefused(s: Tables, r: TokenRecord) {
    Refuses(s, r.identity) || (r.token in s.byValue && s.byValue[r.token].name != r.name)
  }

  /** The locked part of a restore operation, which makes its record under the lock. */
  function CommitRestore(s: Tables, r: TokenRecord): Tables {
    if RestoreRefused(s, r) then s else Replace(s.(created := s.created + {r.lease}), r)
  }

  function NamesOfRun(s: Tables, identity: Identity): set<string> {
    set n | n in s.tokens && s.tokens[n].identity == identity
  }

  function ExpiredNames(s: Tables, now: int): set<string> {
    set n | n in s.tokens && now > s.tokens[n].expiresAt
  }

  function RevokeRun(s: Tables, identity: Identity): Tables {
    RemoveAll(s, NamesOfRun(s, identity)).(revokedRuns := s.revokedRuns + {identity})
  }

  function RevokeCase(s: Tables): Tables {
    RemoveAll(s, s.tokens.Keys).(caseRevoked := true)
  }

  function Expire(s: Tables, now: int): Tables {
    RemoveAll(s, ExpiredNames(s, now))
  }

  /** Stopping the proxy cancels every lease and starts both tables afresh. */
  function Stop(s: Tables): Tables {
    s.(tokens := map[], byValue := map[], cancelled := s.cancelled + set n | n in s.tokens :: s.tokens[n].lease)
  }

  predicate StartsWith(s: string, prefix: string) {
    prefix <= s
  }

  function ProviderRouteAllowed(provider: string, path: string): bool {
    if provider == "" || provider == "any" then true
    else if provider == "openai" then StartsWith(path, "/v1/") || StartsWith(path, "/chatgpt/")
    else if provider == "anthropic" then StartsWith(path, "/anthropic/")
    else false
  }

  /** A worker request is accepted under the record of its token. */
  function Authenticate(s: Tables, token: string, now: int, path: string): Option<TokenRecord> {
    if token in s.byValue && now < s.byValue[token].expiresAt && s.byValue[token].lease !in s.cancelled
       && ProviderRouteAllowed(s.byValue[token].identity.provider, path)
    then Some(s.byValue[token])
    else None
  }

  lemma RemoveKeepsInv(s: Tables, name: string)
    requires Inv(s)
    ensures Inv(Remove(s, name))
  {
    hide AllLive, Separate, Accounted, RemoveAll, Remove;
    RemoveIsRemoveAll(s, name);
    RemoveAllKeepsInv(s, {name});
  }

  lemma RemoveIsRemoveAll(s: Tables, name: string)
    requires Indexed(s)
    ensures Remove(s, name) == RemoveAll(s, {name})
  {
    var a, b := Remove(s, name), RemoveAll(s, {name});
    if name in s.tokens {
      assert (set n | n in s.tokens && n in {name} :: s.tokens[n].lease) == {s.tokens[name].lease};
      assert a.byValue == b.byValue;
    } else {
      assert a.tokens == b.tokens;
      assert a.byValue == b.byValue;
    }
  }

  /** What leaves the tables has its lease cancelled, and nothing else changes. */
  lemma RemoveAllKeepsInv(s: Tables, names: set<string>)
    requires Inv(s)
    ensures Inv(RemoveAll(s, names))
  {
    hide Indexed, AllLive, Separate, Accounted, RemoveAll;
    RemoveAllStaysIndexed(s, names);
    RemoveAllStaysLive(s, names);
    RemoveAllStaysAccounted(s, names);
  }

  lemma RemoveAllStaysIndexed(s: Tables, names: set<string>)
    requires Indexed(s)
    ensures Indexed(RemoveAll(s, names))
  {
  }

  lemma RemoveAllStaysLive(s: Tables, names: set<string>)
    requires AllLive(s) && Separate(s)
    ensures AllLive(RemoveAll(s, names)) && Separate(RemoveAll(s, names))
  {
  }

  lemma RemoveAllStaysAccounted(s: Tables, names: set<string>)
    requires Accounted(s)
    ensures Accounted(RemoveAll(s, names))
  {
    var r := RemoveAll(s, names);
    forall l | l in r.created ensures LeaseAccounted(r, l) {
      assert LeaseAccounted(s, l);
      if n :| n in s.tokens && s.tokens[n].lease == l {
        assert n in names || n in r.tokens;
      }
    }
  }

  /** Removing first some names and then one more. */
  lemma RemoveAllOneMore(s: Tables, names: set<string>, name: string)
    requires Indexed(s) && Indexed(RemoveAll(s, names))
    ensures Remove(RemoveAll(s, names), name) == RemoveAll(s, names + {name})
  {
    var once := RemoveAll(s, names);
    RemoveIsRemoveAll(once, name);
    var a, b := RemoveAll(once, {name}), RemoveAll(s, names + {name});
    assert a.tokens == b.tokens;
    assert a.byValue == b.byValue;
    assert a.cancelled == b.cancelled;
  }

  /** A replacement keeps the two tables alike exactly when no other worker holds the value. */
  lemma ReplaceKeepsIndexes(s: Tables, r: TokenRecord)
    requires Indexed(s)
    ensures Indexed(Replace(s, r)) <==> !(r.token in s.byValue && s.byValue[r.token].name != r.name)
  {
    var removed, after := Remove(s, r.name), Replace(s, r);
    if r.token in s.byValue && s.byValue[r.token].name != r.name {
      var other := s.byValue[r.token];
      assert other.name in after.tokens && after.tokens[other.name] == other;
      assert after.byValue[other.token] == r;
    } else {
      forall n | n in after.tokens
        ensures after.tokens[n].token in after.byValue && after.byValue[after.tokens[n].token] == after.tokens[n] {
        if n != r.name {
          assert after.tokens[n] == s.tokens[n];
        }
      }
    }
  }

  /** A record on its way into the tables takes the place of the one under its name. */
  lemma ReplaceKeepsInv(s: Tables, r: TokenRecord)
    requires Inv(s) && r in s.inFlight && !Refuses(s, r.identity)
    requires !(r.token in s.byValue && s.byValue[r.token].name != r.name)
    ensures Inv(Replace(s.(inFlight := s.inFlight - {r}), r))
  {
    hide Indexed, AllLive, Separate, Accounted, Replace, Remove;
    var landed := s.(inFlight := s.inFlight - {r});
    IndexesOnly(s, landed);
    ReplaceKeepsIndexes(landed, r);
    RemoveKeepsInv(s, r.name);
    ReplaceStaysLive(s, r);
    ReplaceStaysAccounted(s, r);
  }

  lemma IndexesOnly(s: Tables, t: Tables)
    requires s.tokens == t.tokens && s.byValue == t.byValue
    ensures Indexed(s) <==> Indexed(t)
  {
  }

  lemma ReplaceStaysLive(s: Tables, r: TokenRecord)
    requires AllLive(s) && Separate(s) && r in s.inFlight && !Refuses(s, r.identity)
    ensures AllLive(Replace(s.(inFlight := s.inFlight - {r}), r)) &&
            Separate(Replace(s.(inFlight := s.inFlight - {r}), r))
  {
  }

  lemma ReplaceStaysAccounted(s: Tables, r: TokenRecord)
    requires Accounted(Remove(s, r.name)) && r in s.inFlight
    ensures Accounted(Replace(s.(inFlight := s.inFlight - {r}), r))
  {
    var removed, after := Remove(s, r.name), Replace(s.(inFlight := s.inFlight - {r}), r);
    forall l | l in after.created ensures LeaseAccounted(after, l) {
      assert LeaseAccounted(removed, l);
      if l == r.lease {
        assert after.tokens[r.name].lease == l;
      } else if n :| n in removed.tokens && removed.tokens[n].lease == l {
        assert n in after.tokens && after.tokens[n] == removed.tokens[n];
      } else if q :| q in removed.inFlight && q.lease == l {
        assert q in after.inFlight;
      }
    }
  }

  lemma PrepareKeepsInv(s: Tables, r: TokenRecord)
    requires Inv(s) && r.lease !in s.created
    ensures Inv(Prepare(s, r)) && r in Prepare(s, r).inFlight
  {
    hide Indexed, AllLive, Separate, Accounted;
    IndexesOnly(s, Prepare(s, r));
    PrepareStaysLive(s, r);
    PrepareStaysAccounted(s, r);
  }

  lemma PrepareStaysLive(s: Tables, r: TokenRecord)
    requires AllLive(s) && Separate(s) && r.lease !in s.created
    ensures AllLive(Prepare(s, r)) && Separate(Prepare(s, r))
  {
    assert forall q | q in s.inFlight :: Live(s, q);
    assert forall n | n in s.tokens :: Live(s, s.tokens[n]);
  }

  lemma PrepareStaysAccounted(s: Tables, r: TokenRecord)
    requires Accounted(s)
    ensures Accounted(Prepare(s, r))
  {
    var p := Prepare(s, r);
    forall l | l in p.created ensures LeaseAccounted(p, l) {
      if l == r.lease {
        assert r in p.inFlight;
      } else {
        assert LeaseAccounted(s, l);
        if q :| q in s.inFlight && q.lease == l {
          assert q in p.inFlight;
        }
      }
    }
  }

  /** Whatever was revoked between the checks and the lock, the issue ends consistently. */
  lemma CommitIssueKeepsInv(s: Tables, r: TokenRecord)
    requires Inv(s) && r in s.inFlight
    requires !(r.token in s.byValue && s.byValue[r.token].name != r.name)
    ensures Inv(CommitIssue(s, r))
  {
    if Refuses(s, r.identity) {
      var after := CommitIssue(s, r);
      IndexesOnly(s, after);
      forall l | l in after.created ensures LeaseAccounted(after, l) {
        assert LeaseAccounted(s, l);
        if q :| q in s.inFlight && q.lease == l {
          assert q in after.inFlight || l == r.lease;
        }
      }
    } else {
      ReplaceKeepsInv(s, r);
    }
  }

  lemma CommitRestoreKeepsInv(s: Tables, r: TokenRecord)
    requires Inv(s) && r.lease !in s.created
    ensures Inv(CommitRestore(s, r))
  {
    if !RestoreRefused(s, r) {
      PrepareKeepsInv(s, r);
      assert r !in s.inFlight;
      ReplaceKeepsInv(Prepare(s, r), r);
      assert Prepare(s, r).inFlight - {r} == s.inFlight;
    }
  }

  /** Neither set of revocations takes part in the bookkeeping of leases. */
  lemma LeasesOnly(s: Tables, t: Tables)
    requires s.tokens == t.tokens && s.inFlight == t.inFlight && s.created == t.created && s.cancelled == t.cancelled
    ensures Separate(s) ==> Separate(t)
    ensures Accounted(s) ==> Accounted(t)
  {
    if Accounted(s) {
      forall l | l in t.created ensures LeaseAccounted(t, l) {
        assert LeaseAccounted(s, l);
      }
    }
  }

  lemma RevokeRunKeepsInv(s: Tables, identity: Identity)
    requires Inv(s)
    ensures Inv(RevokeRun(s, identity))
  {
    hide Indexed, Separate, Accounted;
    RemoveAllKeepsInv(s, NamesOfRun(s, identity));
    IndexesOnly(RemoveAll(s, NamesOfRun(s, identity)), RevokeRun(s, identity));
    LeasesOnly(RemoveAll(s, NamesOfRun(s, identity)), RevokeRun(s, identity));
  }

  lemma RevokeCaseKeepsInv(s: Tables)
    requires Inv(s)
    ensures Inv(RevokeCase(s))
  {
    hide Indexed, Separate, Accounted;
    RemoveAllKeepsInv(s, s.tokens.Keys);
    IndexesOnly(RemoveAll(s, s.tokens.Keys), RevokeCase(s));
    LeasesOnly(RemoveAll(s, s.tokens.Keys), RevokeCase(s));
  }

  lemma StopIsRemoveAll(s: Tables)
    requires Indexed(s)
    ensures Stop(s) == RemoveAll(s, s.tokens.Keys)
  {
    var r := RemoveAll(s, s.tokens.Keys);
    assert (set n | n in s.tokens && n in s.tokens.Keys :: s.tokens[n].lease) == set n | n in s.tokens ::
           s.tokens[n].lease;
    assert r.tokens == map[];
    assert r.byValue == map[];
  }

  lemma StopKeepsInv(s: Tables)
    requires Inv(s)
    ensures Inv(Stop(s))
  {
    StopIsRemoveAll(s);
    RemoveAllKeepsInv(s, s.tokens.Keys);
  }
}
