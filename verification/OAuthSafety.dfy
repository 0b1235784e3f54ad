/** What every transaction of the authorization server keeps, and what no later transaction can undo. */
module OAuthSafety {
  import opened Wrappers
  import opened OAuthTables

  datatype Event =
    | Start(accepted: bool, request: Id, client: Id, redirect: string, challenge: string, words: seq<string>,
      resource: string)
    | Approve(user: Id, request: Id, dataLevel: string, allowChanges: bool, grant: Id, code: Id)
    | Deny(request: Id)
    | Exchange(client: Id, presented: Option<Id>, redirect: string, verifier: string, access: Id, refresh: Id)
    | Rotate(client: Id, presented: Option<Id>, given: bool, words: seq<string>, access: Id, refresh: Id)
    | Revoke(client: Id, token: Id)
    | RevokeApp(user: Id, grant: Id)
    | Activate(user: Id)
    | Disable(user: Id)
    | ForgetClients(clients: set<Id>)

  function Step(s: Tables, e: Event, now: int, pkce: (string, string) -> bool): (Tables, Outcome) {
    match e
    case Start(accepted, request, client, redirect, challenge, words, resource) =>
      Started(s, accepted, request, client, redirect, challenge, words, resource, now)
    case Approve(user, request, dataLevel, allowChanges, grant, code) =>
      ApprovedBy(s, user, request, dataLevel, allowChanges, grant, code, now)
    case Deny(request) => Denied(s, request, now)
    case Exchange(client, presented, redirect, verifier, access, refresh) =>
      Exchanged(s, client, presented, redirect, verifier, pkce, access, refresh, now)
    case Rotate(client, presented, given, words, access, refresh) =>
      Refreshed(s, client, presented, given, words, access, refresh, now)
    case Revoke(client, token) => TokenRevoked(s, client, token, now)
    case RevokeApp(user, grant) => AppRevoked(s, user, grant, now)
    case Activate(user) => (s.(active := s.active + {user}), Done)
    case Disable(user) => (s.(active := s.active - {user}), Done)
    case ForgetClients(clients) => ClientsForgotten(s, clients)
  }

  // ---- the invariant ----------------------------------------------------------------------------------------------

  ghost predicate HasCode(codes: map<Id, Code>, grant: Id) {
    exists c | c in codes :: codes[c].grant == grant
  }

  /** Each grant has exactly one code. */
  ghost predicate OneCodeEach(grants: set<Id>, codes: map<Id, Code>) {
    && (forall c | c in codes :: codes[c].grant in grants)
    && (forall c, d | c in codes && d in codes && codes[c].grant == codes[d].grant :: c == d)
    && (forall g | g in grants :: HasCode(codes, g))
  }

  /** Every code of a grant has been used. */
  ghost predicate CodeUsed(codes: map<Id, Code>, grant: Id) {
    forall c | c in codes && codes[c].grant == grant :: codes[c].used.Some?
  }

  /** A grant has no tokens before its code has been used. */
  ghost predicate TokensAfterCode(grants: set<Id>, codes: map<Id, Code>, tokens: map<Id, Token>) {
    forall t | t in tokens :: tokens[t].grant in grants && CodeUsed(codes, tokens[t].grant)
  }

  predicate Unrotated(token: Token) {
    token.kind == Refresh && token.used.None?
  }

  /** At most one refresh token of a grant is not yet used. */
  ghost predicate OneUnrotatedEach(tokens: map<Id, Token>) {
    forall t, u | t in tokens && u in tokens && Unrotated(tokens[t]) && Unrotated(tokens[u])
      && tokens[t].grant == tokens[u].grant ::
      t == u
  }

  predicate SameParties(one: Grant, other: Grant) {
    one.user == other.user && one.client == other.client
  }

  /** At most one grant of a user to a client is not revoked. */
  ghost predicate OneLiveGrantEach(grants: map<Id, Grant>) {
    forall g, h | g in grants && h in grants && grants[g].revoked.None? && grants[h].revoked.None?
      && SameParties(grants[g], grants[h]) ::
      g == h
  }

  ghost predicate RequestsCanonical(requests: map<Id, Request>) {
    forall r | r in requests :: requests[r].scope == [READ] || requests[r].scope == [READ, WRITE]
  }

  /** Only a detailed grant can write. */
  ghost predicate GrantsCanonical(grants: map<Id, Grant>) {
    forall g | g in grants ::
      grants[g].scope == [READ] || (grants[g].scope == [READ, WRITE] && grants[g].dataLevel == "detailed")
  }

  ghost predicate Consistent(s: Tables) {
    && OneCodeEach(s.grants.Keys, s.codes)
    && TokensAfterCode(s.grants.Keys, s.codes, s.tokens)
    && OneUnrotatedEach(s.tokens)
    && OneLiveGrantEach(s.grants)
    && RequestsCanonical(s.requests)
    && GrantsCanonical(s.grants)
  }

  // ---- what the statements keep -----------------------------------------------------------------------------------

  lemma TokensRevokedKeeps(grants: set<Id>, codes: map<Id, Code>, tokens: map<Id, Token>, grant: Id, now: int)
    requires TokensAfterCode(grants, codes, tokens) && OneUnrotatedEach(tokens)
    ensures TokensAfterCode(grants, codes, TokensRevoked(tokens, grant, now))
            && OneUnrotatedEach(TokensRevoked(tokens, grant, now))
  {
    var after := TokensRevoked(tokens, grant, now);
    assert forall t | t in after ::
        t in tokens && after[t].grant == tokens[t].grant && Unrotated(after[t]) == Unrotated(tokens[t]);
  }

  /** Rows that only change by being revoked. */
  ghost predicate OnlyRevoked(before: map<Id, Grant>, after: map<Id, Grant>) {
    && after.Keys == before.Keys
    && forall g | g in before ::
         after[g] == before[g].(revoked := after[g].revoked) && (before[g].revoked.Some? ==> after[g].revoked.Some?)
  }

  lemma OnlyRevokedKeeps(before: map<Id, Grant>, after: map<Id, Grant>)
    requires OneLiveGrantEach(before) && GrantsCanonical(before) && OnlyRevoked(before, after)
    ensures OneLiveGrantEach(after) && GrantsCanonical(after)
  {
    forall g, h | g in after && h in after && after[g].revoked.None? && after[h].revoked.None?
      && SameParties(after[g], after[h])
      ensures g == h
    {
      assert SameParties(before[g], before[h]);
    }
  }

  lemma GrantRevokedKeeps(s: Tables, grant: Id, now: int)
    requires Consistent(s) && grant in s.grants
    ensures Consistent(GrantRevoked(s, grant, now)) && OnlyRevoked(s.grants, GrantRevoked(s, grant, now).grants)
  {
    var t := GrantRevoked(s, grant, now);
    assert t.grants.Keys == s.grants.Keys;
    TokensRevokedKeeps(s.grants.Keys, s.codes, s.tokens, grant, now);
    OnlyRevokedKeeps(s.grants, t.grants);
  }

  lemma CodeAdded(grants: set<Id>, codes: map<Id, Code>, tokens: map<Id, Token>, grant: Id, code: Id, row: Code)
    requires OneCodeEach(grants, codes) && TokensAfterCode(grants, codes, tokens)
    requires grant !in grants && code !in codes && row.grant == grant
    ensures OneCodeEach(grants + {grant}, codes[code := row])
            && TokensAfterCode(grants + {grant}, codes[code := row], tokens)
  {
    var after := codes[code := row];
    forall g | g in grants + {grant} ensures HasCode(after, g) {
      if g == grant {
        assert after[code].grant == g;
      } else {
        var c :| c in codes && codes[c].grant == g;
        assert after[c].grant == g;
      }
    }
    forall t | t in tokens ensures CodeUsed(after, tokens[t].grant) {
      assert CodeUsed(codes, tokens[t].grant);
    }
  }

  lemma GrantAdded(grants: map<Id, Grant>, grant: Id, row: Grant, now: int)
    requires OneLiveGrantEach(grants) && GrantsCanonical(grants) && grant !in grants
    requires row.scope == [READ] || (row.scope == [READ, WRITE] && row.dataLevel == "detailed")
    ensures
      var after := Replaced(grants, row.user, row.client, now)[grant := row];
      OneLiveGrantEach(after) && GrantsCanonical(after)
  {
    var replaced := Replaced(grants, row.user, row.client, now);
    assert replaced.Keys == grants.Keys;
    OnlyRevokedKeeps(grants, replaced);
    var after := replaced[grant := row];
    forall g, h | g in after && h in after && after[g].revoked.None? && after[h].revoked.None?
      && SameParties(after[g], after[h])
      ensures g == h
    {
      if g != grant && h != grant {
        assert SameParties(replaced[g], replaced[h]);
      }
    }
  }

  lemma TokensAdded(
    grants: set<Id>, codes: map<Id, Code>, tokens: map<Id, Token>, grant: Id, access: Id, refresh: Id, now: int)
    requires TokensAfterCode(grants, codes, tokens) && OneUnrotatedEach(tokens)
    requires grant in grants && CodeUsed(codes, grant)
    requires forall t | t in tokens && tokens[t].grant == grant :: !Unrotated(tokens[t])
    ensures
      var after := TokensIssued(tokens, grant, access, refresh, now);
      after.Ok? ==> TokensAfterCode(grants, codes, after.value) && OneUnrotatedEach(after.value)
  {
    var issued := TokensIssued(tokens, grant, access, refresh, now);
    if issued.Ok? {
      var after := issued.value;
      assert forall t | t in after && t != access && t != refresh :: t in tokens && after[t] == tokens[t];
    }
  }

  lemma CodeMarked(grants: set<Id>, codes: map<Id, Code>, tokens: map<Id, Token>, code: Id, now: int)
    requires OneCodeEach(grants, codes) && TokensAfterCode(grants, codes, tokens) && code in codes
             && codes[code].used.None?
    ensures
      var after := codes[code := codes[code].(used := Some(now))];
      && OneCodeEach(grants, after) && TokensAfterCode(grants, after, tokens) && CodeUsed(after, codes[code].grant)
      && (forall t | t in tokens :: tokens[t].grant != codes[code].grant)
  {
    var after := codes[code := codes[code].(used := Some(now))];
    forall g | g in grants ensures HasCode(after, g) {
      var c :| c in codes && codes[c].grant == g;
      assert after[c].grant == g;
    }
    forall t | t in tokens ensures CodeUsed(after, tokens[t].grant) && tokens[t].grant != codes[code].grant {
      assert CodeUsed(codes, tokens[t].grant);
    }
  }

  lemma TokenMarked(grants: set<Id>, codes: map<Id, Code>, tokens: map<Id, Token>, token: Id, now: int)
    requires TokensAfterCode(grants, codes, tokens) && OneUnrotatedEach(tokens) && token in tokens
             && Unrotated(tokens[token])
    ensures
      var after := tokens[token := tokens[token].(used := Some(now))];
      && TokensAfterCode(grants, codes, after) && OneUnrotatedEach(after)
      && CodeUsed(codes, tokens[token].grant) && tokens[token].grant in grants
      && (forall t | t in after && after[t].grant == tokens[token].grant :: !Unrotated(after[t]))
  {
  }

  // ---- what the transactions keep ---------------------------------------------------------------------------------

  lemma StartConsistent(
    s: Tables, accepted: bool, request: Id, client: Id, redirect: string, challenge: string, words: seq<string>,
    resource: string, now: int)
    requires Consistent(s)
    ensures Consistent(Started(s, accepted, request, client, redirect, challenge, words, resource, now).0)
  {
  }

  lemma ApproveConsistent(
    s: Tables, user: Id, request: Id, dataLevel: string, allowChanges: bool, grant: Id, code: Id, now: int)
    requires Consistent(s)
    ensures Consistent(ApprovedBy(s, user, request, dataLevel, allowChanges, grant, code, now).0)
  {
    var (t, outcome) := ApprovedBy(s, user, request, dataLevel, allowChanges, grant, code, now);
    if outcome.Approved? {
      GrantAdded(s.grants, grant, t.grants[grant], now);
      CodeAdded(s.grants.Keys, s.codes, s.tokens, grant, code, t.codes[code]);
      assert t.grants.Keys == s.grants.Keys + {grant};
    }
  }

  lemma ExchangeConsistent(
    s: Tables, client: Id, code: Option<Id>, redirect: string, verifier: string, pkce: (string, string) -> bool,
    access: Id, refresh: Id, now: int)
    requires Consistent(s)
    ensures Consistent(Exchanged(s, client, code, redirect, verifier, pkce, access, refresh, now).0)
  {
    var (t, outcome) := Exchanged(s, client, code, redirect, verifier, pkce, access, refresh, now);
    if outcome.Issued? {
      CodeMarked(s.grants.Keys, s.codes, s.tokens, code.value, now);
      TokensAdded(s.grants.Keys, t.codes, s.tokens, s.codes[code.value].grant, access, refresh, now);
    } else if t != s {
      GrantRevokedKeeps(s, s.codes[code.value].grant, now);
    }
  }

  lemma RefreshConsistent(
    s: Tables, client: Id, token: Option<Id>, given: bool, words: seq<string>, access: Id, refresh: Id, now: int)
    requires Consistent(s)
    ensures Consistent(Refreshed(s, client, token, given, words, access, refresh, now).0)
  {
    var (t, outcome) := Refreshed(s, client, token, given, words, access, refresh, now);
    if outcome.Issued? {
      var row := s.tokens[token.value];
      TokenMarked(s.grants.Keys, s.codes, s.tokens, token.value, now);
      TokensAdded(
        s.grants.Keys, s.codes, s.tokens[token.value := row.(used := Some(now))], row.grant, access, refresh, now);
    } else if t != s {
      GrantRevokedKeeps(s, s.tokens[token.value].grant, now);
    }
  }

  lemma RevokeConsistent(s: Tables, client: Id, token: Id, now: int)
    requires Consistent(s)
    ensures Consistent(TokenRevoked(s, client, token, now).0)
  {
    var t := TokenRevoked(s, client, token, now).0;
    if t != s && s.tokens[token].kind == Refresh {
      GrantRevokedKeeps(s, s.tokens[token].grant, now);
    }
  }

  /** Every transaction keeps the invariant. */
  lemma StepConsistent(s: Tables, e: Event, now: int, pkce: (string, string) -> bool)
    requires Consistent(s)
    ensures Consistent(Step(s, e, now, pkce).0)
  {
    match e
    case Start(accepted, request, client, redirect, challenge, words, resource) =>
      StartConsistent(s, accepted, request, client, redirect, challenge, words, resource, now);
    case Approve(user, request, dataLevel, allowChanges, grant, code) =>
      ApproveConsistent(s, user, request, dataLevel, allowChanges, grant, code, now);
    case Exchange(client, presented, redirect, verifier, access, refresh) =>
      ExchangeConsistent(s, client, presented, redirect, verifier, pkce, access, refresh, now);
    case Rotate(client, presented, given, words, access, refresh) =>
      RefreshConsistent(s, client, presented, given, words, access, refresh, now);
    case Revoke(client, token) => RevokeConsistent(s, client, token, now);
    case RevokeApp(user, grant) =>
      if AppRevoked(s, user, grant, now).0 != s {
        GrantRevokedKeeps(s, grant, now);
      }
    case _ =>
  }
}
