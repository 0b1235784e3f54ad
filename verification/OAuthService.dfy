/**
 The authorization server as it is written: each method runs the statements of one
 transaction on the stored rows, and rolls them back where the source does.
 */
module OAuthService {
  import opened Wrappers
  import opened OAuthTables

  class Service {
    var active: set<Id>
    var requests: map<Id, Request>
    var grants: map<Id, Grant>
    var codes: map<Id, Code>
    var tokens: map<Id, Token>

    constructor (active: set<Id>)
      ensures Contents() == Tables(active, map[], map[], map[], map[])
    {
      this.active, requests, grants, codes, tokens := active, map[], map[], map[], map[];
    }

    ghost function Contents(): Tables
      reads this
    {
      Tables(active, requests, grants, codes, tokens)
    }

    /** `StartAuthorization`: the pruning is committed even when the insertion fails. */
    method StartAuthorization(
      accepted: bool, request: Id, client: Id, redirect: string, challenge: string, words: seq<string>,
      resource: string, now: int)
      returns (outcome: Outcome)
      modifies this`requests
      ensures (Contents(), outcome)
              == Started(old(Contents()), accepted, request, client, redirect, challenge, words, resource, now)
    {
      if !accepted { return Failed(Refused); }
      var scope := NormalizeScope(words);
      if scope.None? { return Failed(Refused); }
      requests := map id | id in requests && !(requests[id].expires < now) :: requests[id];
      assert requests == LiveRequests(old(requests), now);
      if request in requests { return Failed(AlreadyStored); }
      requests := requests[request :=
        Request(client, redirect, challenge, scope.value, resource, now + REQUEST_LIFETIME)];
      return Done;
    }

    method TakeRequest(request: Id, now: int) returns (taken: Option<Request>)
      modifies this`requests
      ensures taken == Taken(old(Contents()), request, now)
      ensures requests == if taken.Some? then old(requests) - {request} else old(requests)
    {
      if request !in requests || requests[request].expires <= now { return None; }
      taken := Some(requests[request]);
      requests := requests - {request};
    }

    /** `Approve`: a refused choice leaves the request pending. */
    method Approve(user: Id, request: Id, dataLevel: string, allowChanges: bool, grant: Id, code: Id, now: int)
      returns (outcome: Outcome)
      modifies this`requests, this`grants, this`codes
      ensures (Contents(), outcome)
              == ApprovedBy(old(Contents()), user, request, dataLevel, allowChanges, grant, code, now)
    {
      if dataLevel != "detailed" && dataLevel != "summary" { return Failed(InvalidChoice); }
      var pending, stored := requests, grants;
      var taken := TakeRequest(request, now);
      if taken.None? { return Failed(NotFound); }
      var row := taken.value;
      var scope := GrantedScope(row.scope, dataLevel, allowChanges);
      if scope.Err? {
        requests := pending;
        return Failed(scope.error);
      }
      grants := map id | id in grants ::
        if grants[id].user == user && grants[id].client == row.client && grants[id].revoked.None?
        then grants[id].(revoked := Some(now)) else grants[id];
      assert grants == Replaced(old(grants), user, row.client, now);
      if grant in grants || code in codes {
        requests, grants := pending, stored;
        return Failed(AlreadyStored);
      }
      grants := grants[grant := Grant(user, row.client, row.redirect, scope.value, dataLevel, row.resource, now, None)];
      codes := codes[code := Code(grant, row.redirect, row.challenge, now + CODE_LIFETIME, None)];
      return Approved(grant);
    }

    /** `Deny`. */
    method Deny(request: Id, now: int) returns (outcome: Outcome)
      modifies this`requests
      ensures (Contents(), outcome) == Denied(old(Contents()), request, now)
    {
      var taken := TakeRequest(request, now);
      return if taken.Some? then Done else Failed(NotFound);
    }

    /** `revokeGrant`. */
    method RevokeGrant(grant: Id, now: int)
      requires grant in grants
      modifies this`grants, this`tokens
      ensures Contents() == GrantRevoked(old(Contents()), grant, now)
    {
      grants := grants[grant := grants[grant].(revoked := OrElse(grants[grant].revoked, now))];
      tokens := map id | id in tokens ::
        if tokens[id].grant == grant then tokens[id].(revoked := OrElse(tokens[id].revoked, now)) else tokens[id];
      assert tokens == TokensRevoked(old(tokens), grant, now);
    }

    /** `issueTokens`: what has been deleted when the insertion fails is for the caller to roll back. */
    method IssueTokens(grant: Id, access: Id, refresh: Id, now: int) returns (stored: bool)
      modifies this`tokens
      ensures
        var issued := TokensIssued(old(tokens), grant, access, refresh, now);
        stored == issued.Ok? && (stored ==> tokens == issued.value)
    {
      tokens := map id | id in tokens && !(tokens[id].grant == grant && tokens[id].expires < now - DAY) :: tokens[id];
      assert tokens == Pruned(old(tokens), grant, now);
      if access in tokens || refresh in tokens || access == refresh { return false; }
      tokens := tokens[access := Token(grant, Access, now, now + ACCESS_TOKEN_LIFETIME, None, None)];
      tokens := tokens[refresh := Token(grant, Refresh, now, now + REFRESH_TOKEN_LIFETIME, None, None)];
      return true;
    }

    /** `exchangeCode`: a replayed code revokes its grant, and that is committed. */
    method ExchangeCode(
      client: Id, code: Option<Id>, redirect: string, verifier: string, pkce: (string, string) -> bool, access: Id,
      refresh: Id, now: int)
      returns (outcome: Outcome)
      modifies this`grants, this`codes, this`tokens
      ensures (Contents(), outcome)
              == Exchanged(old(Contents()), client, code, redirect, verifier, pkce, access, refresh, now)
    {
      if code.None? { return Failed(InvalidRequest); }
      if code.value !in codes || codes[code.value].grant !in grants { return Failed(InvalidGrant); }
      var row := codes[code.value];
      var grant := grants[row.grant];
      if grant.client != client { return Failed(InvalidGrant); }
      if row.used.Some? {
        RevokeGrant(row.grant, now);
        return Failed(InvalidGrant);
      }
      if row.expires <= now || grant.revoked.Some? || grant.user !in active { return Failed(InvalidGrant); }
      if redirect != "" && redirect != row.redirect { return Failed(InvalidGrant); }
      if !pkce(row.challenge, verifier) { return Failed(InvalidGrant); }
      var storedCodes, storedTokens := codes, tokens;
      codes := codes[code.value := row.(used := Some(now))];
      var stored := IssueTokens(row.grant, access, refresh, now);
      if !stored {
        codes, tokens := storedCodes, storedTokens;
        return Failed(AlreadyStored);
      }
      return Issued(row.grant, grant.scope);
    }

    /** `refresh`: a reused refresh token of an unrevoked grant revokes it, and that is committed. */
    method RefreshTokens(
      client: Id, token: Option<Id>, given: bool, words: seq<string>, access: Id, refresh: Id, now: int)
      returns (outcome: Outcome)
      modifies this`grants, this`tokens
      ensures (Contents(), outcome) == Refreshed(old(Contents()), client, token, given, words, access, refresh, now)
    {
      if token.None? { return Failed(InvalidRequest); }
      var wanted := NormalizeScope(words);
      if wanted.None? { return Failed(InvalidScope); }
      if token.value !in tokens || tokens[token.value].kind != Refresh || tokens[token.value].grant !in grants {
        return Failed(InvalidGrant);
      }
      var row := tokens[token.value];
      var grant := grants[row.grant];
      if grant.client != client { return Failed(InvalidGrant); }
      if row.used.Some? && grant.revoked.None? {
        RevokeGrant(row.grant, now);
        return Failed(InvalidGrant);
      }
      if row.used.Some? || row.revoked.Some? || grant.revoked.Some? || row.expires <= now || grant.user !in active {
        return Failed(InvalidGrant);
      }
      if given {
        for i := 0 to |wanted.value|
          invariant forall j | 0 <= j < i :: wanted.value[j] in grant.scope
          invariant Contents() == old(Contents())
        {
          if wanted.value[i] !in grant.scope { return Failed(InvalidScope); }
        }
      }
      var storedTokens := tokens;
      tokens := tokens[token.value := row.(used := Some(now))];
      var stored := IssueTokens(row.grant, access, refresh, now);
      if !stored {
        tokens := storedTokens;
        return Failed(AlreadyStored);
      }
      return Issued(row.grant, grant.scope);
    }

    /** `Revoke`. */
    method Revoke(client: Id, token: Id, now: int) returns (outcome: Outcome)
      modifies this`grants, this`tokens
      ensures (Contents(), outcome) == TokenRevoked(old(Contents()), client, token, now)
    {
      if token !in tokens || tokens[token].grant !in grants || grants[tokens[token].grant].client != client {
        return Done;
      }
      if tokens[token].kind == Refresh {
        RevokeGrant(tokens[token].grant, now);
      } else {
        tokens := tokens[token := tokens[token].(revoked := OrElse(tokens[token].revoked, now))];
      }
      return Done;
    }

    /** `RevokeConnectedApp`. */
    method RevokeConnectedApp(user: Id, grant: Id, now: int) returns (outcome: Outcome)
      modifies this`grants, this`tokens
      ensures (Contents(), outcome) == AppRevoked(old(Contents()), user, grant, now)
    {
      if grant !in grants || grants[grant].user != user || grants[grant].revoked.Some? { return Failed(NotFound); }
      grants := grants[grant := grants[grant].(revoked := Some(now))];
      RevokeGrant(grant, now);
      assert grants == old(grants)[grant := old(grants)[grant].(revoked := Some(now))];
      return Done;
    }

    /** `VerifyAccessToken`. */
    method VerifyAccessToken(token: Id, resource: string, now: int) returns (access: Option<AccessGrant>)
      ensures access == Verified(Contents(), token, resource, now)
    {
      if token !in tokens || tokens[token].grant !in grants { return None; }
      var row := tokens[token];
      var grant := grants[row.grant];
      if row.kind != Access || row.revoked.Some? || row.expires <= now || grant.revoked.Some? || grant.user !in active {
        return None;
      }
      if grant.resource != resource { return None; }
      return Some(AccessGrant(row.grant, grant.user, grant.scope, grant.dataLevel, row.expires));
    }
  }
}
