/** The proxy object whose methods update the token tables and the credentials in place. Each
    method is proved to change them exactly as the functions of the two modules above say. */
module CredentialProxy {
  import opened Options
  import opened TokenTables
  import opened OAuthGenerations
  import Hex

  datatype Refresh = Unchanged | Refreshed | Refused

  predicate IsHex(c: char) {
    '0' <= c <= '9' || 'a' <= c <= 'f' || 'A' <= c <= 'F'
  }

  predicate IsWorkerName(name: string) {
    name != "" && |name| <= 255 && forall i | 0 <= i < |name| :: name[i] != '\r' && name[i] != '\n' && name[i] != '\0'
  }

  predicate IsPlaceholder(name: string, token: string) {
    && IsWorkerName(name)
    && |token| == 68 && token[..4] == "cdx-"
    && forall i | 4 <= i < |token| :: IsHex(token[i])
  }

  /** What a new token looks like. */
  function Issued(bytes: seq<Hex.Byte>): string {
    "cdx-" + Hex.Encode(bytes)
  }

  lemma IssuedIsPlaceholder(name: string, bytes: seq<Hex.Byte>)
    requires IsWorkerName(name) && |bytes| == 32
    ensures IsPlaceholder(name, Issued(bytes))
  {
    Hex.EncodedIsHex(bytes);
    var t, digits := Issued(bytes), Hex.Encode(bytes);
    forall i | 4 <= i < |t| ensures IsHex(t[i]) {
      assert t[i] == digits[i - 4] && digits[i - 4] in digits;
      assert Hex.IsDigit(digits[i - 4]);
    }
  }

  /** A placeholder is accepted exactly when its worker has a name of one line and it is, up to the case of its
      digits, one that can be issued: every issued token can be restored, and nothing else. */
  lemma PlaceholdersAreIssued(name: string, token: string)
    requires |token| >= 4
    ensures IsPlaceholder(name, token) <==>
            && 0 < |name| <= 255 && '\r' !in name && '\n' !in name && '\0' !in name
            && exists bytes: seq<Hex.Byte> :: |bytes| == 32 && token[..4] + Hex.Lowered(token[4..]) == Issued(bytes)
  {
    var low := Hex.Lowered(token[4..]);
    Hex.EncodingsAre(low, 32);
    assert IsWorkerName(name) <==> 0 < |name| <= 255 && '\r' !in name && '\n' !in name && '\0' !in name;
    if IsPlaceholder(name, token) {
      assert forall i | 0 <= i < |low| :: low[i] == Hex.LowerDigit(token[i + 4]) && Hex.IsDigit(low[i]);
      var bytes: seq<Hex.Byte> :| |bytes| == 32 && Hex.Encode(bytes) == low;
      assert token[..4] + low == Issued(bytes);
    }
    if bytes: seq<Hex.Byte> :| |bytes| == 32 && token[..4] + low == Issued(bytes) {
      assert (token[..4] + low)[..4] == token[..4] == Issued(bytes)[..4] == "cdx-";
      assert (token[..4] + low)[4..] == low == Issued(bytes)[4..] == Hex.Encode(bytes);
      Hex.EncodedIsHex(bytes);
      forall i | 4 <= i < |token| ensures IsHex(token[i]) {
        assert low[i - 4] == Hex.LowerDigit(token[i]) && low[i - 4] in low;
        assert Hex.IsDigit(low[i - 4]);
      }
    }
  }

  const YEAR := 365 * 24 * 3600

  class Proxy {
    var tokens: map<string, TokenRecord>
    var tokensByValue: map<string, TokenRecord>
    var revokedRuns: set<Identity>
    var caseRevoked: bool
    var cancelled: set<nat>
    var nextLease: nat
    ghost var created: set<nat>
    ghost var inFlight: set<TokenRecord>

    var storeCreds: Credentials
    var storeVersion: string
    var oauthCreds: Option<OAuth>
    var anthropicOAuth: Option<OAuth>

    ghost function State(): Tables
      reads this
    {
      Tables(tokens, tokensByValue, revokedRuns, caseRevoked, cancelled, created, inFlight)
    }

    ghost function Kept(): Case
      reads this
    {
      Case(storeCreds, storeVersion, oauthCreds, anthropicOAuth)
    }

    ghost predicate Valid()
      reads this
    {
      Inv(State()) && forall l | l in created :: l < nextLease
    }

    /** A proxy starts from the generation it loads. */
    constructor (loaded: Credentials)
      ensures Valid() && State() == EMPTY
      ensures Kept() == Case(loaded, loaded.version, loaded.openai, loaded.anthropic)
    {
      tokens, tokensByValue, revokedRuns, caseRevoked := map[], map[], {}, false;
      cancelled, nextLease, created, inFlight := {}, 0, {}, {};
      storeCreds, storeVersion := loaded, loaded.version;
      oauthCreds, anthropicOAuth := loaded.openai, loaded.anthropic;
    }

    method RemoveTokenLocked(name: string)
      requires Indexed(State())
      modifies this`tokens, this`tokensByValue, this`cancelled
      ensures State() == Remove(old(State()), name)
    {
      if name in tokens {
        var rec := tokens[name];
        cancelled := cancelled + {rec.lease};
        tokensByValue := tokensByValue - {rec.token};
        tokens := tokens - {name};
      }
    }

    method ReplaceTokenLocked(rec: TokenRecord)
      requires Indexed(State())
      modifies this`tokens, this`tokensByValue, this`cancelled
      ensures State() == Replace(old(State()), rec)
    {
      RemoveTokenLocked(rec.name);
      tokens := tokens[rec.name := rec];
      tokensByValue := tokensByValue[rec.token := rec];
    }

    /** The loop all revocations share: the names are removed one by one. */
    method RemoveNames(names: set<string>)
      requires Valid()
      modifies this`tokens, this`tokensByValue, this`cancelled
      ensures Valid() && State() == RemoveAll(old(State()), names)
    {
      hide TokenTables.Indexed, TokenTables.AllLive, TokenTables.Separate, TokenTables.Accounted, TokenTables.Remove;
      var todo := names;
      ghost var done: set<string> := {};
      RemoveNothing(State());
      while todo != {}
        invariant done + todo == names && done !! todo
        invariant State() == RemoveAll(old(State()), done)
        decreases todo
      {
        var name :| name in todo;
        RemoveAllKeepsInv(old(State()), done);
        RemoveAllOneMore(old(State()), done, name);
        RemoveTokenLocked(name);
        todo, done := todo - {name}, done + {name};
      }
      assert done == names;
      RemoveAllKeepsInv(old(State()), names);
    }

    lemma RemoveNothing(s: Tables)
      ensures RemoveAll(s, {}) == s
    {
      var r := RemoveAll(s, {});
      assert r.tokens == s.tokens && r.byValue == s.byValue && r.cancelled == s.cancelled;
    }

    method RevokeToken(name: string)
      requires Valid()
      modifies this
      ensures Valid() && State() == Remove(old(State()), name) && Kept() == old(Kept())
    {
      hide TokenTables.AllLive, TokenTables.Separate, TokenTables.Accounted;
      RemoveKeepsInv(State(), name);
      RemoveTokenLocked(name);
    }

    /** `acceptable` is the outcome of the checks on the request that precede the lock. */
    method RevokeRun(identity: Identity, acceptable: bool) returns (ok: bool)
      requires Valid()
      modifies this
      ensures Valid() && ok == acceptable && Kept() == old(Kept())
      ensures State() == if acceptable then TokenTables.RevokeRun(old(State()), identity) else old(State())
    {
      hide TokenTables.Indexed, TokenTables.AllLive, TokenTables.Separate, TokenTables.Accounted, TokenTables.RemoveAll;
      if !acceptable {
        return false;
      }
      RevokeRunKeepsInv(State(), identity);
      RemoveNames(set n | n in tokens && tokens[n].identity == identity);
      revokedRuns := revokedRuns + {identity};
      ok := true;
    }

    method RevokeCaseTokens()
      requires Valid()
      modifies this
      ensures Valid() && State() == RevokeCase(old(State())) && Kept() == old(Kept())
    {
      hide TokenTables.Indexed, TokenTables.AllLive, TokenTables.Separate, TokenTables.Accounted, TokenTables.RemoveAll;
      RevokeCaseKeepsInv(State());
      RemoveNames(tokens.Keys);
      caseRevoked := true;
    }

    method ExpireTokens(now: int)
      requires Valid()
      modifies this
      ensures Valid() && State() == Expire(old(State()), now) && Kept() == old(Kept())
    {
      hide TokenTables.Indexed, TokenTables.AllLive, TokenTables.Separate, TokenTables.Accounted, TokenTables.RemoveAll;
      RemoveNames(set n | n in tokens && now > tokens[n].expiresAt);
    }

    method Stop()
      requires Valid()
      modifies this
      ensures Valid() && State() == TokenTables.Stop(old(State())) && Kept() == old(Kept())
    {
      StopIsRemoveAll(State());
      RemoveAllKeepsInv(State(), tokens.Keys);
      hide TokenTables.AllLive, TokenTables.Separate, TokenTables.Accounted, TokenTables.Indexed, TokenTables.RemoveAll;
      cancelled := cancelled + set n | n in tokens :: tokens[n].lease;
      tokens, tokensByValue := map[], map[];
    }

    /** The first part of an issue: the record exists, but the lock is not held yet. */
    method NewTokenRecord(name: string, token: string, expiresAt: int, identity: Identity) returns (rec: TokenRecord)
      requires Valid()
      modifies this
      ensures Valid() && Kept() == old(Kept())
      ensures rec == TokenRecord(token, name, expiresAt, identity, rec.lease) && rec.lease !in old(created)
      ensures State() == Prepare(old(State()), rec)
    {
      rec := TokenRecord(token, name, expiresAt, identity, nextLease);
      assert nextLease !in created;
      PrepareKeepsInv(State(), rec);
      nextLease := nextLease + 1;
      created, inFlight := created + {rec.lease}, inFlight + {rec};
    }

    /** The second part, under the lock. The value is random, so no other worker has it. */
    method CommitIssue(rec: TokenRecord) returns (ok: bool)
      requires Valid() && rec in inFlight
      requires !(rec.token in tokensByValue && tokensByValue[rec.token].name != rec.name)
      modifies this
      ensures Valid() && State() == TokenTables.CommitIssue(old(State()), rec) && Kept() == old(Kept())
      ensures ok <==> !Refuses(old(State()), rec.identity)
      ensures ok ==> rec.name in tokens && tokens[rec.name] == rec
    {
      CommitIssueKeepsInv(State(), rec);
      IndexesOnly(State(), State().(inFlight := inFlight - {rec}));
      assert Live(State(), rec);
      hide TokenTables.AllLive, TokenTables.Separate, TokenTables.Accounted, TokenTables.Indexed;
      inFlight := inFlight - {rec};
      if caseRevoked || rec.identity in revokedRuns {
        cancelled := cancelled + {rec.lease};
        return false;
      }
      ReplaceTokenLocked(rec);
      ok := true;
    }

    /** Restoring a placeholder that the worker still has. `defaultTtl` is the configured one. */
    method RestoreToken(name: string, token: string, ttl: int, defaultTtl: int, now: int, identity: Identity)
      returns (ok: bool)
      requires Valid()
      modifies this
      ensures Valid() && Kept() == old(Kept())
      ensures var lifetime := if ttl <= 0 then defaultTtl else ttl;
              if IsPlaceholder(name, token) && 0 < lifetime <= 365 * 24 * 3600
              then Restored(old(State()), TokenRecord(token, name, now + lifetime, identity, old(nextLease)), ok)
              else !ok && State() == old(State())
    {
      hide IsPlaceholder, Restored, TokenTables.Inv;
      if !IsPlaceholder(name, token) {
        return false;
      }
      var lifetime := if ttl <= 0 then defaultTtl else ttl;
      if lifetime <= 0 || lifetime > YEAR {
        return false;
      }
      ok := CommitRestored(TokenRecord(token, name, now + lifetime, identity, nextLease));
    }

    ghost predicate Restored(before: Tables, rec: TokenRecord, ok: bool)
      reads this
    {
      State() == CommitRestore(before, rec) && (ok <==> !RestoreRefused(before, rec))
    }

    /** The locked part of a restore. */
    method CommitRestored(rec: TokenRecord) returns (ok: bool)
      requires Valid() && rec.lease == nextLease
      modifies this
      ensures Valid() && Kept() == old(Kept()) && Restored(old(State()), rec, ok)
    {
      hide TokenTables.AllLive, TokenTables.Separate, TokenTables.Accounted, TokenTables.Replace;
      assert nextLease !in created;
      CommitRestoreKeepsInv(State(), rec);
      if caseRevoked || rec.identity in revokedRuns {
        return false;
      }
      if rec.token in tokensByValue && tokensByValue[rec.token].name != rec.name {
        return false;
      }
      nextLease := nextLease + 1;
      created := created + {rec.lease};
      IndexesOnly(old(State()), State());
      ReplaceTokenLocked(rec);
      ok := true;
    }

    method CheckCaseGeneration(load: Load) returns (ok: bool)
      requires Valid()
      modifies this
      ensures Valid() && Kept() == old(Kept())
      ensures State() == TablesAfterCheck(old(State()), Kept(), load)
      ensures ok <==> SameGeneration(Kept(), load)
    {
      if !load.Loaded? {
        if load.Missing? {
          RevokeCaseTokens();
        }
        return false;
      }
      if load.creds.version != storeVersion || load.creds.connection != storeCreds.connection {
        RevokeCaseTokens();
        return false;
      }
      ok := true;
    }

    method PersistOAuthState(provider: Provider, next: OAuth, result: Save) returns (ok: bool)
      requires Valid()
      modifies this
      ensures Valid() && ok == SaveAccepted(result)
      ensures Kept() == SaveStep(old(Kept()), provider, next, result)
      ensures State() == TablesAfterSave(old(State()), result)
    {
      var updated := storeCreds;
      match provider {
        case OpenAI => updated := updated.(openai := Some(next));
        case Anthropic => updated := updated.(anthropic := Some(next));
      }
      if result.SaveFailed? {
        RevokeCaseTokens();
        return false;
      }
      if result.version == "" {
        RevokeCaseTokens();
        return false;
      }
      updated := updated.(version := result.version);
      storeCreds, storeVersion := updated, result.version;
      ok := true;
    }

    /** The credential in memory changes only after the save was accepted. */
    method RefreshAnthropicOAuthIfNeeded(now: int, answered: int, response: Response, result: Save) returns (r: Refresh)
      requires Valid()
      modifies this
      ensures Valid()
      ensures old(anthropicOAuth).None? ==> r.Unchanged?
      ensures anthropicOAuth.Some? && anthropicOAuth.value.expiresAt != 0 && !r.Refused? ==>
                anthropicOAuth.value.expiresAt > if r.Unchanged? then now else answered
      ensures r.Unchanged? ==> Kept() == old(Kept()) && State() == old(State())
      ensures old(anthropicOAuth).Some? ==>
                var current := old(anthropicOAuth).value;
                match (AnthropicNeed(current, now), NextAnthropic(current, answered, response))
                case (NotNeeded, _) => r.Unchanged?
                case (Needed, Some(next)) =>
                  && (r.Refreshed? <==> SaveAccepted(result))
                  && State() == TablesAfterSave(old(State()), result)
                  && Kept() == if r.Refreshed?
                               then PublishStep(SaveStep(old(Kept()), Anthropic, next, result), Anthropic, next)
                               else old(Kept())
                case _ => r.Refused? && Kept() == old(Kept()) && State() == old(State())
    {
      if anthropicOAuth.None? {
        return Unchanged;
      }
      var current := anthropicOAuth.value;
      if current.expiresAt == 0 || now < current.expiresAt - EARLY {
        return Unchanged;
      }
      if current.refresh == "" {
        return if now >= current.expiresAt then Refused else Unchanged;
      }
      if response.Unusable? || response.access == "" || response.expiresIn <= 0 || response.expiresIn > MAX_LIFETIME {
        return Refused;
      }
      var next := current.(access := response.access);
      if response.refresh != "" {
        next := next.(refresh := response.refresh);
      }
      next := next.(expiresAt := answered + response.expiresIn * 1000);
      var saved := PersistOAuthState(Anthropic, next, result);
      if !saved {
        return Refused;
      }
      anthropicOAuth := Some(next);
      r := Refreshed;
    }

    /** The check before waiting for the refresh lock. */
    method FindRefresher(token: string, now: int) returns (found: Option<TokenRecord>)
      requires Valid()
      ensures found.Some? <==> MayRefresh(State(), token, now)
      ensures found.Some? ==>
              found.value.token == token && found.value.name in tokens && tokens[found.value.name] == found.value
    {
      if token !in tokensByValue || now > tokensByValue[token].expiresAt ||
        tokensByValue[token].identity.provider == "anthropic" {
        return None;
      }
      found := Some(tokensByValue[token]);
    }

    /** A worker's own token is checked before waiting for the refresh lock and again under it;
        `found` is the result of the first check and `later` the moment of the second. */
    method HandleOAuthTokenRefresh(token: string, found: Option<TokenRecord>, later: int, response: Response,
          result: Save) returns (r: Refresh)
      requires Valid()
      requires found.Some? ==> found.value.token == token
      modifies this
      ensures Valid()
      ensures if found.Some? && found.value.name in old(tokens) && old(tokens)[found.value.name].token == token
                 && later <= old(tokens)[found.value.name].expiresAt && old(oauthCreds).Some?
                 && NextOpenAI(old(oauthCreds).value, response).Some?
              then
                var next := NextOpenAI(old(oauthCreds).value, response).value;
                && (r.Refreshed? <==> SaveAccepted(result))
                && State() == TablesAfterSave(old(State()), result)
                && Kept() == if r.Refreshed?
                             then PublishStep(SaveStep(old(Kept()), OpenAI, next, result), OpenAI, next)
                             else old(Kept())
              else r.Refused? && Kept() == old(Kept()) && State() == old(State())
    {
      if found.None? {
        return Refused;
      }
      var name := found.value.name;
      if name !in tokens || tokens[name].token != token || later > tokens[name].expiresAt {
        return Refused;
      }
      if oauthCreds.None? {
        return Refused;
      }
      var current := oauthCreds.value;
      if response.Unusable? || response.access == "" {
        return Refused;
      }
      var next := current.(access := response.access);
      if response.idToken != "" {
        next := next.(idToken := response.idToken);
      }
      if response.refresh != "" {
        next := next.(refresh := response.refresh);
      }
      var saved := PersistOAuthState(OpenAI, next, result);
      if !saved {
        return Refused;
      }
      oauthCreds := Some(next);
      r := Refreshed;
    }
  }
}
