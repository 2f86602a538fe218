/** What workers see of the token tables: which of their requests are accepted, before and after each
    operation and over whole runs. */
module TokenService {
  import opened Options
  import opened TokenTables

  /** Whom a request of a worker is accepted as, told from the table by name. */
  lemma AcceptedIsNamed(s: Tables, token: string, now: int, path: string, r: TokenRecord)
    requires Inv(s)
    ensures Authenticate(s, token, now, path) == Some(r) <==>
            && r.name in s.tokens && s.tokens[r.name] == r && r.token == token
            && now < r.expiresAt && ProviderRouteAllowed(r.identity.provider, path)
  {
  }

  /** What is left of an answer once these names are gone. */
  function Without(found: Option<TokenRecord>, names: set<string>): Option<TokenRecord> {
    if found.Some? && found.value.name in names then None else found
  }

  /** Removing names ends exactly the service of those names. */
  lemma RemovalEndsNames(s: Tables, names: set<string>, token: string, now: int, path: string)
    requires Inv(s)
    ensures Authenticate(RemoveAll(s, names), token, now, path) == Without(Authenticate(s, token, now, path), names)
  {
    var t := RemoveAll(s, names);
    hide ProviderRouteAllowed, Accounted;
    if token in s.byValue && s.byValue[token].name !in names {
      var r := s.byValue[token];
      assert r.lease !in t.cancelled by {
        assert forall n | n in s.tokens && n in names :: s.tokens[n].lease != r.lease;
      }
    }
  }

  lemma RevokingEndsOneName(s: Tables, name: string, token: string, now: int, path: string)
    requires Inv(s)
    ensures Authenticate(Remove(s, name), token, now, path) == Without(Authenticate(s, token, now, path), {name})
  {
    hide ProviderRouteAllowed, Remove, RemoveAll, Authenticate;
    RemoveIsRemoveAll(s, name);
    RemovalEndsNames(s, {name}, token, now, path);
  }

  /** Expiry is never noticed: who is served later is served as if nothing had been removed. */
  lemma ExpiryIsUnseen(s: Tables, now: int, token: string, later: int, path: string)
    requires Inv(s) && now <= later
    ensures Authenticate(Expire(s, now), token, later, path) == Authenticate(s, token, later, path)
  {
    hide ProviderRouteAllowed, RemoveAll, Accounted, AllLive, Separate;
    RemovalEndsNames(s, ExpiredNames(s, now), token, later, path);
  }

  /** And exactly the records past their time are gone. */
  lemma ExpiredAreGone(s: Tables, now: int, name: string)
    ensures name in Expire(s, now).tokens <==> name in s.tokens && now <= s.tokens[name].expiresAt
    ensures name in Expire(s, now).tokens ==> Expire(s, now).tokens[name] == s.tokens[name]
  {
  }

  /** Revoking a run ends the service of that run alone. */
  lemma RevokingEndsOneRun(s: Tables, identity: Identity, token: string, now: int, path: string)
    requires Inv(s)
    ensures var found := Authenticate(s, token, now, path);
            Authenticate(RevokeRun(s, identity), token, now, path) ==
            if found.Some? && found.value.identity == identity then None else found
  {
    hide ProviderRouteAllowed, RemoveAll, Accounted, AllLive, Separate;
    RemovalEndsNames(s, NamesOfRun(s, identity), token, now, path);
    var once := RemoveAll(s, NamesOfRun(s, identity));
    assert Authenticate(RevokeRun(s, identity), token, now, path) == Authenticate(once, token, now, path);
  }

  /** After a revocation of the case, or a stop, nobody is served. */
  lemma NobodyIsServed(s: Tables, token: string, now: int, path: string)
    requires Inv(s)
    ensures Authenticate(RevokeCase(s), token, now, path).None? && Authenticate(Stop(s), token, now, path).None?
  {
    hide ProviderRouteAllowed, RemoveAll, Accounted, AllLive, Separate;
    RemovalEndsNames(s, s.tokens.Keys, token, now, path);
    var once := RemoveAll(s, s.tokens.Keys);
    assert Authenticate(RevokeCase(s), token, now, path) == Authenticate(once, token, now, path);
  }

  /** A record that is not in the tables yet serves nobody. */
  lemma PreparationIsUnseen(s: Tables, r: TokenRecord, token: string, now: int, path: string)
    ensures Authenticate(Prepare(s, r), token, now, path) == Authenticate(s, token, now, path)
  {
  }

  lemma OwnTokenServes(s: Tables, r: TokenRecord, now: int, path: string)
    requires Inv(s) && r in s.inFlight
    ensures Authenticate(Replace(s.(inFlight := s.inFlight - {r}), r), r.token, now, path) ==
            if now < r.expiresAt && ProviderRouteAllowed(r.identity.provider, path) then Some(r) else None
  {
    hide ProviderRouteAllowed, Accounted, Indexed;
    assert Live(s, r);
    assert r.name in s.tokens ==> s.tokens[r.name].lease != r.lease;
  }

  /** Once a record is in place its own token is accepted as long as it lasts, the former one of its
      worker is not, and nobody else is affected. */
  lemma ReplacementServes(s: Tables, r: TokenRecord, token: string, now: int, path: string)
    requires Inv(s) && r in s.inFlight && !(r.token in s.byValue && s.byValue[r.token].name != r.name)
    ensures Authenticate(Replace(s.(inFlight := s.inFlight - {r}), r), token, now, path) ==
            if token != r.token then Without(Authenticate(s, token, now, path), {r.name})
            else if now < r.expiresAt && ProviderRouteAllowed(r.identity.provider, path) then Some(r)
            else None
  {
    hide ProviderRouteAllowed, Inv;
    if token != r.token {
      RevokingEndsOneName(s, r.name, token, now, path);
    } else {
      OwnTokenServes(s, r, now, path);
    }
  }

  lemma IssueServes(s: Tables, r: TokenRecord, token: string, now: int, path: string)
    requires Inv(s) && r in s.inFlight && !(r.token in s.byValue && s.byValue[r.token].name != r.name)
    ensures Authenticate(CommitIssue(s, r), token, now, path) ==
            if s.caseRevoked || r.identity in s.revokedRuns then Authenticate(s, token, now, path)
            else if token != r.token then Without(Authenticate(s, token, now, path), {r.name})
            else if now < r.expiresAt && ProviderRouteAllowed(r.identity.provider, path) then Some(r)
            else None
  {
    hide ProviderRouteAllowed, Replace, Accounted;
    ReplacementServes(s, r, token, now, path);
  }

  /** A restore is refused for a revoked case or run, and for the placeholder of another worker. */
  lemma RestoreRefusedWhen(s: Tables, r: TokenRecord)
    requires Inv(s)
    ensures RestoreRefused(s, r) <==>
            || s.caseRevoked || r.identity in s.revokedRuns
            || exists n :: n in s.tokens && n != r.name && s.tokens[n].token == r.token
  {
    hide AllLive, Separate, Accounted;
  }

  lemma RestoreServes(s: Tables, r: TokenRecord, token: string, now: int, path: string)
    requires Inv(s) && r.lease !in s.created
    ensures Authenticate(CommitRestore(s, r), token, now, path) ==
            if RestoreRefused(s, r) then Authenticate(s, token, now, path)
            else if token != r.token then Without(Authenticate(s, token, now, path), {r.name})
            else if now < r.expiresAt && ProviderRouteAllowed(r.identity.provider, path) then Some(r)
            else None
  {
    if !RestoreRefused(s, r) {
      PrepareKeepsInv(s, r);
      assert r !in s.inFlight;
      hide ProviderRouteAllowed, Replace, Inv, Authenticate;
      ReplacementServes(Prepare(s, r), r, token, now, path);
      assert Prepare(s, r).inFlight - {r} == s.inFlight;
      PreparationIsUnseen(s, r, token, now, path);
    }
  }

  /** A worker of one provider never reaches a route of the other, and workers of neither reach none. */
  lemma RoutesAreApart(path: string)
    ensures !(ProviderRouteAllowed("openai", path) && ProviderRouteAllowed("anthropic", path))
    ensures ProviderRouteAllowed("", path) && ProviderRouteAllowed("any", path)
    ensures forall provider | provider !in {"", "any", "openai", "anthropic"} :: !ProviderRouteAllowed(provider, path)
    ensures ProviderRouteAllowed("openai", "/v1/" + path) && ProviderRouteAllowed("openai", "/chatgpt/" + path)
    ensures ProviderRouteAllowed("anthropic", "/anthropic/" + path)
  {
    assert ("/v1/" + path)[..4] == "/v1/" && ("/chatgpt/" + path)[..9] == "/chatgpt/";
    assert ("/anthropic/" + path)[..11] == "/anthropic/";
    if "/anthropic/" <= path {
      assert path[1] == "/anthropic/"[1] == 'a';
      assert "/v1/"[1] == 'v' && "/chatgpt/"[1] == 'c';
    }
  }
}
