/** OAuth credentials kept in an external store that hands out a version for each saved
    generation. A refreshed credential is saved first and put into memory afterwards. */
module OAuthGenerations {
  import opened Options
  import opened TokenTables

  datatype Provider = OpenAI | Anthropic

  datatype OAuth = OAuth(access: string, refresh: string, idToken: string, account: string, expiresAt: int)

  datatype Credentials = Credentials(version: string, connection: string, openai: Option<OAuth>,
        anthropic: Option<OAuth>)

  /** What the proxy keeps: the generation it believes durable, and what it serves from memory. */
  datatype Case = Case(storeCreds: Credentials, storeVersion: string, openai: Option<OAuth>, anthropic: Option<OAuth>)

  datatype Load = Loaded(creds: Credentials) | Missing | LoadFailed

  datatype Save = Saved(version: string) | SaveFailed

  /** What the token endpoint answers. An absent field is an empty string or a zero. */
  datatype Response = Unusable | Answer(access: string, refresh: string, idToken: string, expiresIn: int)

  function With(creds: Credentials, provider: Provider, next: OAuth): Credentials {
    match provider
    case OpenAI => creds.(openai := Some(next))
    case Anthropic => creds.(anthropic := Some(next))
  }

  function Stored(creds: Credentials, provider: Provider): Option<OAuth> {
    match provider
    case OpenAI => creds.openai
    case Anthropic => creds.anthropic
  }

  function Memory(c: Case, provider: Provider): Option<OAuth> {
    match provider
    case OpenAI => c.openai
    case Anthropic => c.anthropic
  }

  predicate SaveAccepted(result: Save) {
    result.Saved? && result.version != ""
  }

  function SaveStep(c: Case, provider: Provider, next: OAuth, result: Save): Case {
    if SaveAccepted(result)
    then c.(storeCreds := With(c.storeCreds, provider, next).(version := result.version),
      storeVersion := result.version)
    else c
  }

  function PublishStep(c: Case, provider: Provider, next: OAuth): Case {
    match provider
    case OpenAI => c.(openai := Some(next))
    case Anthropic => c.(anthropic := Some(next))
  }

  /** A refresh that could not be made durable takes the whole case out of service. */
  function TablesAfterSave(s: Tables, result: Save): Tables {
    if SaveAccepted(result) then s else RevokeCase(s)
  }

  predicate SameGeneration(c: Case, load: Load) {
    load.Loaded? && load.creds.version == c.storeVersion && load.creds.connection == c.storeCreds.connection
  }

  function TablesAfterCheck(s: Tables, c: Case, load: Load): Tables {
    if load.LoadFailed? || SameGeneration(c, load) then s else RevokeCase(s)
  }

  const MAX_LIFETIME := 365 * 24 * 3600
  const EARLY := 60_000

  datatype Need = NotNeeded | Impossible | Needed

  function AnthropicNeed(current: OAuth, now: int): Need {
    if current.expiresAt == 0 || now < current.expiresAt - EARLY then NotNeeded
    else if current.refresh != "" then Needed
    else if now >= current.expiresAt then Impossible
    else NotNeeded
  }

  /** The next generation, or None when the answer is not acceptable. */
  function NextAnthropic(current: OAuth, now: int, r: Response): Option<OAuth> {
    if r.Unusable? || r.access == "" || r.expiresIn <= 0 || r.expiresIn > MAX_LIFETIME then None
    else Some(current.(access := r.access,
                       refresh := if r.refresh != "" then r.refresh else current.refresh,
                       expiresAt := now + r.expiresIn * 1000))
  }

  function NextOpenAI(current: OAuth, r: Response): Option<OAuth> {
    if r.Unusable? || r.access == "" then None
    else Some(current.(access := r.access,
                       idToken := if r.idToken != "" then r.idToken else current.idToken,
                       refresh := if r.refresh != "" then r.refresh else current.refresh))
  }

  /** A worker may ask for an OpenAI refresh while its own token is current and not expired. */
  predicate MayRefresh(s: Tables, token: string, now: int) {
    && token in s.byValue
    && now <= s.byValue[token].expiresAt
    && s.byValue[token].identity.provider != "anthropic"
  }

  /** A check takes the case out of service exactly when the stored generation is gone, newer, or of another
      connection; a store that does not answer changes nothing. */
  lemma CheckEndsCase(s: Tables, c: Case, load: Load)
    ensures TablesAfterCheck(s, c, load).caseRevoked <==>
            || s.caseRevoked || load == Missing
            || (load.Loaded? &&
                (load.creds.version != c.storeVersion || load.creds.connection != c.storeCreds.connection))
    ensures !TablesAfterCheck(s, c, load).caseRevoked ==> TablesAfterCheck(s, c, load) == s
  {
  }

  /** A credential whose end is known is refreshed from one minute before its end on, when it can be; one that
      cannot is of no use from its end on. */
  lemma RefreshIsDue(current: OAuth, now: int)
    ensures AnthropicNeed(current, now).Needed? <==>
            current.expiresAt != 0 && current.refresh != "" && current.expiresAt - now <= 60_000
    ensures AnthropicNeed(current, now).Impossible? <==>
            current.expiresAt != 0 && current.refresh == "" && current.expiresAt <= now
  {
  }

  /** The next generation can be used and refreshed again: no refresh is due before the last minute of the
      lifetime that the answer names, and what the answer leaves out is kept. */
  lemma NextGenerationLasts(current: OAuth, answered: int, r: Response, now: int)
    requires NextAnthropic(current, answered, r).Some?
    ensures var next := NextAnthropic(current, answered, r).value;
            && next.access == r.access != "" && next.account == current.account && next.idToken == current.idToken
            && (next.refresh == "" <==> current.refresh == "" && r.refresh == "")
            && (r.refresh == "" ==> next.refresh == current.refresh) && (r.refresh != "" ==> next.refresh == r.refresh)
            && (answered > 0 ==>
                  (AnthropicNeed(next, now).NotNeeded? <==>
                    now < answered + r.expiresIn * 1000 - (if next.refresh == "" then 0 else 60_000)))
    ensures 0 < r.expiresIn <= 365 * 24 * 3600
  {
  }

  lemma NextOpenAIKeeps(current: OAuth, r: Response)
    ensures NextOpenAI(current, r).None? <==> r.Unusable? || r.access == ""
    ensures NextOpenAI(current, r).Some? ==>
              var next := NextOpenAI(current, r).value;
              && next.access == r.access != "" && next.account == current.account && next.expiresAt == current.expiresAt
              && (next.refresh == r.refresh || (r.refresh == "" && next.refresh == current.refresh))
              && (next.idToken == r.idToken || (r.idToken == "" && next.idToken == current.idToken))
              && (current.refresh != "" ==> next.refresh != "")
              && (current.idToken != "" ==> next.idToken != "")
  {
  }

  /** Whoever holds a token that has not run out may ask for a refresh, except for workers of the other
      provider: everyone who is served on an OpenAI route. */
  lemma ServedMayRefresh(s: Tables, token: string, now: int, path: string)
    requires Inv(s)
    ensures Authenticate(s, token, now, "/v1/" + path).Some? ==> MayRefresh(s, token, now)
    ensures MayRefresh(s, token, now) <==>
              exists n :: n in s.tokens && s.tokens[n].token == token && now <= s.tokens[n].expiresAt &&
                          s.tokens[n].identity.provider != "anthropic"
  {
    var route := "/v1/" + path;
    assert route[1] == 'v' && "/anthropic/"[1] == 'a';
    if MayRefresh(s, token, now) {
      assert s.tokens[s.byValue[token].name] == s.byValue[token];
    }
  }
}
