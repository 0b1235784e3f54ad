/**
 The tables of the authorization server (`internal/oauth/service.go`) and its
 transactions as functions on them.  A transaction that fails leaves the tables as they
 were, unless the source commits before it fails.  Secrets stand for their hashes.
 */
module OAuthTables {
  import opened Wrappers

  type Scopes = seq<string>

  const READ := "portfolio:read"
  const WRITE := "portfolio:write"
  const OFFLINE := "offline_access"

  const MINUTE := 60
  const HOUR := 60 * MINUTE
  const DAY := 24 * HOUR
  const REQUEST_LIFETIME := 10 * MINUTE
  const CODE_LIFETIME := 5 * MINUTE
  const ACCESS_TOKEN_LIFETIME := HOUR
  const REFRESH_TOKEN_LIFETIME := 30 * DAY

  datatype Request = Request(client: Id, redirect: string, challenge: string, scope: Scopes, resource: string,
    expires: int)

  datatype Grant = Grant(
    user: Id, client: Id, redirect: string, scope: Scopes, dataLevel: string, resource: string, created: int,
    revoked: Option<int>)

  datatype Code = Code(grant: Id, redirect: string, challenge: string, expires: int, used: Option<int>)

  datatype Kind = Access | Refresh

  datatype Token = Token(grant: Id, kind: Kind, created: int, expires: int, used: Option<int>, revoked: Option<int>)

  datatype Tables = Tables(
    active: set<Id>, requests: map<Id, Request>, grants: map<Id, Grant>, codes: map<Id, Code>, tokens: map<Id, Token>)

  datatype Failure = NotFound | InvalidChoice | InvalidRequest | InvalidGrant | InvalidScope | Refused | AlreadyStored

  datatype Outcome =
    | Done
    | Approved(grant: Id)
    | Issued(grant: Id, scope: Scopes)
    | Failed(failure: Failure)

  // ---- scopes -----------------------------------------------------------------------------------------------------

  function NormalizedScope(words: seq<string>): Option<Scopes> {
    if exists i | 0 <= i < |words| :: words[i] != READ && words[i] != OFFLINE && words[i] != WRITE then None
    else if WRITE in words then Some([READ, WRITE])
    else Some([READ])
  }

  /** `normalizeScope`, on the fields of the parameter. */
  method NormalizeScope(words: seq<string>) returns (scope: Option<Scopes>)
    ensures scope == NormalizedScope(words)
  {
    var write := false;
    for i := 0 to |words|
      invariant write <==> WRITE in words[..i]
      invariant forall j | 0 <= j < i :: words[j] == READ || words[j] == OFFLINE || words[j] == WRITE
    {
      if words[i] == READ || words[i] == OFFLINE {
      } else if words[i] == WRITE {
        write := true;
      } else {
        return None;
      }
    }
    assert words[..|words|] == words;
    return if write then Some([READ, WRITE]) else Some([READ]);
  }

  /** `grantedScope`. */
  function GrantedScope(requested: Scopes, dataLevel: string, allowChanges: bool): Result<Scopes, Failure> {
    if !allowChanges then Ok([READ])
    else if dataLevel != "detailed" || WRITE !in requested then Err(InvalidChoice)
    else Ok([READ, WRITE])
  }

  // ---- statements -------------------------------------------------------------------------------------------------

  function OrElse(at: Option<int>, now: int): Option<int> {
    if at.Some? then at else Some(now)
  }

  function LiveRequests(requests: map<Id, Request>, now: int): map<Id, Request> {
    map id | id in requests && requests[id].expires >= now :: requests[id]
  }

  /** The earlier grants of a user to a client, revoked; their tokens are left as they are. */
  function Replaced(grants: map<Id, Grant>, user: Id, client: Id, now: int): map<Id, Grant> {
    map id | id in grants ::
      if grants[id].user == user && grants[id].client == client && grants[id].revoked.None?
      then grants[id].(revoked := Some(now)) else grants[id]
  }

  function TokensRevoked(tokens: map<Id, Token>, grant: Id, now: int): map<Id, Token> {
    map id | id in tokens ::
      if tokens[id].grant == grant then tokens[id].(revoked := OrElse(tokens[id].revoked, now)) else tokens[id]
  }

  /** `revokeGrant`. */
  function GrantRevoked(s: Tables, grant: Id, now: int): Tables
    requires grant in s.grants
  {
    s.(grants := s.grants[grant := s.grants[grant].(revoked := OrElse(s.grants[grant].revoked, now))],
       tokens := TokensRevoked(s.tokens, grant, now))
  }

  function Pruned(tokens: map<Id, Token>, grant: Id, now: int): map<Id, Token> {
    map id | id in tokens && !(tokens[id].grant == grant && tokens[id].expires < now - DAY) :: tokens[id]
  }

  /** The statements of `issueTokens`; the primary key refuses a hash that is already stored. */
  function TokensIssued(
    tokens: map<Id, Token>, grant: Id, access: Id, refresh: Id, now: int): Result<map<Id, Token>, Failure>
  {
    var kept := Pruned(tokens, grant, now);
    if access in kept || refresh in kept || access == refresh then Err(AlreadyStored)
    else Ok(kept[access := Token(grant, Access, now, now + ACCESS_TOKEN_LIFETIME, None, None)]
                [refresh := Token(grant, Refresh, now, now + REFRESH_TOKEN_LIFETIME, None, None)])
  }

  // ---- transactions -----------------------------------------------------------------------------------------------

  /**
   `StartAuthorization`; `accepted` says that the client, redirect, response type, PKCE
   challenge and resource passed their checks.
   */
  function Started(
    s: Tables, accepted: bool, request: Id, client: Id, redirect: string, challenge: string, words: seq<string>,
    resource: string, now: int): (Tables, Outcome)
  {
    var scope := NormalizedScope(words);
    if !accepted || scope.None? then (s, Failed(Refused))
    else
      var live := LiveRequests(s.requests, now);
      if request in live then (s.(requests := live), Failed(AlreadyStored))
      else
        (s.(requests := live[request :=
          Request(client, redirect, challenge, scope.value, resource, now + REQUEST_LIFETIME)]), Done)
  }

  /** `takeRequest`. */
  function Taken(s: Tables, request: Id, now: int): Option<Request> {
    if request in s.requests && s.requests[request].expires > now then Some(s.requests[request]) else None
  }

  /** `Approve`. */
  function ApprovedBy(
    s: Tables, user: Id, request: Id, dataLevel: string, allowChanges: bool, grant: Id, code: Id, now: int)
    : (Tables, Outcome)
  {
    if dataLevel != "detailed" && dataLevel != "summary" then (s, Failed(InvalidChoice))
    else
      match Taken(s, request, now)
      case None => (s, Failed(NotFound))
      case Some(row) =>
        match GrantedScope(row.scope, dataLevel, allowChanges)
        case Err(failure) => (s, Failed(failure))
        case Ok(scope) =>
          if grant in s.grants || code in s.codes then (s, Failed(AlreadyStored))
          else
            var added := Grant(user, row.client, row.redirect, scope, dataLevel, row.resource, now, None);
            (s.(requests := s.requests - {request},
                grants := Replaced(s.grants, user, row.client, now)[grant := added],
                codes := s.codes[code := Code(grant, row.redirect, row.challenge, now + CODE_LIFETIME, None)]),
             Approved(grant))
  }

  /** `Deny`. */
  function Denied(s: Tables, request: Id, now: int): (Tables, Outcome) {
    if Taken(s, request, now).None? then (s, Failed(NotFound))
    else (s.(requests := s.requests - {request}), Done)
  }

  /** `exchangeCode`, by an authenticated client; `pkce` compares the stored challenge with the verifier. */
  function Exchanged(
    s: Tables, client: Id, code: Option<Id>, redirect: string, verifier: string, pkce: (string, string) -> bool,
    access: Id, refresh: Id, now: int): (Tables, Outcome)
  {
    if code.None? then (s, Failed(InvalidRequest))
    else if code.value !in s.codes || s.codes[code.value].grant !in s.grants then (s, Failed(InvalidGrant))
    else
      var row := s.codes[code.value];
      var grant := s.grants[row.grant];
      if grant.client != client then (s, Failed(InvalidGrant))
      else if row.used.Some? then (GrantRevoked(s, row.grant, now), Failed(InvalidGrant))
      else if row.expires <= now || grant.revoked.Some? || grant.user !in s.active then (s, Failed(InvalidGrant))
      else if redirect != "" && redirect != row.redirect then (s, Failed(InvalidGrant))
      else if !pkce(row.challenge, verifier) then (s, Failed(InvalidGrant))
      else
        match TokensIssued(s.tokens, row.grant, access, refresh, now)
        case Err(failure) => (s, Failed(failure))
        case Ok(tokens) =>
          (s.(codes := s.codes[code.value := row.(used := Some(now))], tokens := tokens),
            Issued(row.grant, grant.scope))
  }

  /** `refresh`, by an authenticated client; `given` says that the request named a scope. */
  function Refreshed(
    s: Tables, client: Id, token: Option<Id>, given: bool, words: seq<string>, access: Id, refresh: Id, now: int)
    : (Tables, Outcome)
  {
    var wanted := NormalizedScope(words);
    if token.None? then (s, Failed(InvalidRequest))
    else if wanted.None? then (s, Failed(InvalidScope))
    else if token.value !in s.tokens || s.tokens[token.value].kind != Refresh
      || s.tokens[token.value].grant !in s.grants then
      (s, Failed(InvalidGrant))
    else
      var row := s.tokens[token.value];
      var grant := s.grants[row.grant];
      if grant.client != client then (s, Failed(InvalidGrant))
      else if row.used.Some? && grant.revoked.None? then (GrantRevoked(s, row.grant, now), Failed(InvalidGrant))
      else if row.used.Some? || row.revoked.Some? || grant.revoked.Some? || row.expires <= now
        || grant.user !in s.active then
        (s, Failed(InvalidGrant))
      else if given && exists i | 0 <= i < |wanted.value| :: wanted.value[i] !in grant.scope
        then (s, Failed(InvalidScope))
      else
        match TokensIssued(s.tokens[token.value := row.(used := Some(now))], row.grant, access, refresh, now)
        case Err(failure) => (s, Failed(failure))
        case Ok(tokens) => (s.(tokens := tokens), Issued(row.grant, grant.scope))
  }

  /** `Revoke`, by an authenticated client. */
  function TokenRevoked(s: Tables, client: Id, token: Id, now: int): (Tables, Outcome) {
    if token !in s.tokens || s.tokens[token].grant !in s.grants || s.grants[s.tokens[token].grant].client != client
      then (s, Done)
    else if s.tokens[token].kind == Refresh then (GrantRevoked(s, s.tokens[token].grant, now), Done)
    else (s.(tokens := s.tokens[token := s.tokens[token].(revoked := OrElse(s.tokens[token].revoked, now))]), Done)
  }

  /** `RevokeConnectedApp`. */
  function AppRevoked(s: Tables, user: Id, grant: Id, now: int): (Tables, Outcome) {
    if grant in s.grants && s.grants[grant].user == user && s.grants[grant].revoked.None?
      then (GrantRevoked(s, grant, now), Done)
    else (s, Failed(NotFound))
  }

  /** The pruning in `Register`: clients without a grant go, and their requests with them. */
  function ClientsForgotten(s: Tables, clients: set<Id>): (Tables, Outcome) {
    var unused := set c | c in clients && !exists g | g in s.grants :: s.grants[g].client == c;
    (s.(requests := map id | id in s.requests && s.requests[id].client !in unused :: s.requests[id]), Done)
  }

  // ---- access -----------------------------------------------------------------------------------------------------

  datatype AccessGrant = AccessGrant(grant: Id, user: Id, scopes: Scopes, dataLevel: string, expires: int)

  /** `VerifyAccessToken`. */
  function Verified(s: Tables, token: Id, resource: string, now: int): Option<AccessGrant> {
    if token !in s.tokens || s.tokens[token].grant !in s.grants then None
    else
      var row := s.tokens[token];
      var grant := s.grants[row.grant];
      if row.kind == Access && row.revoked.None? && row.expires > now && grant.revoked.None? && grant.user in s.active
         && grant.resource == resource
      then Some(AccessGrant(row.grant, grant.user, grant.scope, grant.dataLevel, row.expires))
      else None
  }
}
