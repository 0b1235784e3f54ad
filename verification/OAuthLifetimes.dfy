/**
 What the authorization server hands out works, over every run, for its lifetime, until
 it is spent, and not beyond either.
 */
module OAuthLifetimes {
  import opened Wrappers
  import opened Sequences
  import opened OAuthTables
  import opened OAuthSafety
  import opened OAuthRuns

  /** No clock of the run is past the given time. */
  ghost predicate Until(run: seq<Timed>, later: int) {
    forall i | 0 <= i < |run| :: run[i].at <= later
  }

  predicate Draws(e: Event, id: Id) {
    match e
    case Start(_, request, _, _, _, _, _) => request == id
    case Exchange(_, _, _, _, access, refresh) => access == id || refresh == id
    case Rotate(_, _, _, _, access, refresh) => access == id || refresh == id
    case _ => false
  }

  /** What the server has drawn once it does not draw again. */
  ghost predicate NotDrawnAgain(run: seq<Timed>, id: Id) {
    forall i | 0 <= i < |run| :: !Draws(run[i].event, id)
  }

  // ---- requests ---------------------------------------------------------------------------------------------------

  /** A request is decided, or its client is removed for having no grant. */
  ghost predicate Drops(s: Tables, e: Event, now: int, pkce: Verifier, request: Id) {
    request in s.requests &&
    match e
    case Approve(_, id, _, _, _, _) => id == request && Step(s, e, now, pkce).1.Approved?
    case Deny(id) => id == request && Step(s, e, now, pkce).1 == Done
    case ForgetClients(clients) =>
      s.requests[request].client in clients
        && forall g | g in s.grants :: s.grants[g].client != s.requests[request].client
    case _ => false
  }

  ghost predicate DropsAt(s: Tables, run: seq<Timed>, pkce: Verifier, request: Id, i: nat)
    requires i < |run|
  {
    Drops(After(s, run[..i], pkce), run[i].event, run[i].at, pkce, request)
  }

  ghost predicate Undecided(s: Tables, run: seq<Timed>, pkce: Verifier, request: Id) {
    forall i: nat | i < |run| :: !DropsAt(s, run, pkce, request, i)
  }

  lemma UndecidedFront(s: Tables, run: seq<Timed>, pkce: Verifier, request: Id)
    requires run != []
    ensures Undecided(s, run, pkce, request)
       <==> Undecided(s, Front(run), pkce, request)
            && !Drops(After(s, Front(run), pkce), Last(run).event, Last(run).at, pkce, request)
  {
    hide After, Drops;
    var n := |run| - 1;
    assert run[..n] == Front(run);
    forall i: nat | i < n ensures DropsAt(s, Front(run), pkce, request, i) == DropsAt(s, run, pkce, request, i) {
      assert Front(run)[..i] == run[..i];
    }
    assert Undecided(s, run, pkce, request) ==> !DropsAt(s, run, pkce, request, n);
  }

  lemma StepKeepsRequest(s: Tables, e: Event, now: int, pkce: Verifier, request: Id)
    requires !Draws(e, request)
    ensures
      var t := Step(s, e, now, pkce).0;
      && (request in t.requests ==> request in s.requests && t.requests[request] == s.requests[request])
      && (request in s.requests && s.requests[request].expires >= now ==>
            (request in t.requests <==> !Drops(s, e, now, pkce, request)))
  {
  }

  lemma {:induction false} RunKeepsRequest(s: Tables, run: seq<Timed>, pkce: Verifier, request: Id, later: int)
    requires request in s.requests && NotDrawnAgain(run, request) && Until(run, later)
    ensures
      var t := After(s, run, pkce);
      && (request in t.requests ==> t.requests[request] == s.requests[request])
      && (s.requests[request].expires >= later ==> (request in t.requests <==> Undecided(s, run, pkce, request)))
  {
    hide Step, Drops;
    if run != [] {
      RunKeepsRequest(s, Front(run), pkce, request, later);
      StepKeepsRequest(After(s, Front(run), pkce), Last(run).event, Last(run).at, pkce, request);
      UndecidedFront(s, run, pkce, request);
    }
  }

  /** A started request can be decided for ten minutes, in every run that has not decided it. */
  lemma StartedRequestCanBeDecided(s: Tables, e: Event, now: int, pkce: Verifier, run: seq<Timed>, later: int)
    requires e.Start? && Step(s, e, now, pkce).1 == Done
    requires NotDrawnAgain(run, e.request) && Until(run, later)
    ensures
      var t := Step(s, e, now, pkce).0;
      var pending := later < now + 10 * MINUTE && Undecided(t, run, pkce, e.request);
      && (Taken(After(t, run, pkce), e.request, later).Some? <==> pending)
      && Step(After(t, run, pkce), Deny(e.request), later, pkce).1 == (if pending then Done else Failed(NotFound))
  {
    hide Undecided;
    RunKeepsRequest(Step(s, e, now, pkce).0, run, pkce, e.request, later);
  }

  // ---- codes ------------------------------------------------------------------------------------------------------

  /** A code that has not been used, of a grant that is not revoked. */
  ghost predicate CodeUsable(s: Tables, code: Id) {
    && code in s.codes && s.codes[code].used.None?
    && s.codes[code].grant in s.grants && s.grants[s.codes[code].grant].revoked.None?
  }

  /** The code is exchanged, or its grant ends. */
  ghost predicate SpendsCode(s: Tables, e: Event, now: int, pkce: Verifier, code: Id) {
    code in s.codes
    && (Replays(s, e, s.codes[code].grant) || Withdraws(s, e, now, pkce, s.codes[code].grant)
        || (e.Exchange? && e.presented == Some(code) && Step(s, e, now, pkce).1.Issued?))
  }

  ghost predicate SpendsCodeAt(s: Tables, run: seq<Timed>, pkce: Verifier, code: Id, i: nat)
    requires i < |run|
  {
    SpendsCode(After(s, run[..i], pkce), run[i].event, run[i].at, pkce, code)
  }

  ghost predicate CodeUnspent(s: Tables, run: seq<Timed>, pkce: Verifier, code: Id) {
    forall i: nat | i < |run| :: !SpendsCodeAt(s, run, pkce, code, i)
  }

  lemma CodeUnspentFront(s: Tables, run: seq<Timed>, pkce: Verifier, code: Id)
    requires run != []
    ensures CodeUnspent(s, run, pkce, code)
       <==> CodeUnspent(s, Front(run), pkce, code)
            && !SpendsCode(After(s, Front(run), pkce), Last(run).event, Last(run).at, pkce, code)
  {
    hide After, SpendsCode;
    var n := |run| - 1;
    assert run[..n] == Front(run);
    forall i: nat | i < n ensures SpendsCodeAt(s, Front(run), pkce, code, i) == SpendsCodeAt(s, run, pkce, code, i) {
      assert Front(run)[..i] == run[..i];
    }
    assert CodeUnspent(s, run, pkce, code) ==> !SpendsCodeAt(s, run, pkce, code, n);
  }

  /** A code keeps everything but its use. */
  ghost predicate CodeKept(s: Tables, t: Tables, code: Id) {
    code in s.codes && code in t.codes && t.codes[code] == s.codes[code].(used := t.codes[code].used)
  }

  lemma StepKeepsCode(s: Tables, e: Event, now: int, pkce: Verifier, code: Id)
    requires code in s.codes && s.codes[code].grant in s.grants
    ensures
      var t := Step(s, e, now, pkce).0;
      CodeKept(s, t, code) && (CodeUsable(t, code) <==> CodeUsable(s, code) && !SpendsCode(s, e, now, pkce, code))
  {
    hide Replays, Withdraws;
    CodeRow(s, e, now, pkce, code);
    var grant := s.codes[code].grant;
    StepKeepsGrant(s, e, now, pkce, grant);
    if CodeUsable(s, code) { RevokedExactlyWhen(s, e, now, pkce, grant); }
  }

  lemma CodeRow(s: Tables, e: Event, now: int, pkce: Verifier, code: Id)
    requires code in s.codes
    ensures
      var (t, outcome) := Step(s, e, now, pkce);
      && CodeKept(s, t, code)
      && (t.codes[code].used.None?
          <==> s.codes[code].used.None? && !(e.Exchange? && e.presented == Some(code) && outcome.Issued?))
  {
  }

  lemma {:induction false} RunKeepsCode(s: Tables, run: seq<Timed>, pkce: Verifier, code: Id)
    requires code in s.codes && s.codes[code].grant in s.grants
    ensures
      var t := After(s, run, pkce);
      && CodeKept(s, t, code) && GrantKept(s, t, s.codes[code].grant)
      && (CodeUsable(t, code) <==> CodeUsable(s, code) && CodeUnspent(s, run, pkce, code))
  {
    hide Step, SpendsCode, CodeUsable;
    RunKeepsGrant(s, run, pkce, s.codes[code].grant);
    if run != [] {
      RunKeepsCode(s, Front(run), pkce, code);
      StepKeepsCode(After(s, Front(run), pkce), Last(run).event, Last(run).at, pkce, code);
      CodeUnspentFront(s, run, pkce, code);
    }
  }

  /** Whether a request of the token endpoint draws secrets that are not stored. */
  predicate FreshIn(s: Tables, e: Event)
    requires e.Exchange? || e.Rotate?
  {
    e.access !in s.tokens && e.refresh !in s.tokens && e.access != e.refresh
  }

  lemma CodeIsStored(s: Tables, e: Event, now: int, pkce: Verifier)
    requires e.Approve? && Step(s, e, now, pkce).1.Approved?
    ensures
      var t, request := Step(s, e, now, pkce).0, s.requests[e.request];
      var scope := if e.allowChanges then [READ, WRITE] else [READ];
      && e.request in s.requests
      && e.code in t.codes && t.codes[e.code]
         == Code(e.grant, request.redirect, request.challenge, now + 5 * MINUTE, None)
      && e.grant in t.grants
      && t.grants[e.grant]
         == Grant(e.user, request.client, request.redirect, scope, e.dataLevel, request.resource, now, None)
  {
  }

  lemma UsableCodeIsExchanged(s: Tables, exchange: Event, pkce: Verifier, later: int)
    requires exchange.Exchange? && exchange.presented.Some? && exchange.presented.value in s.codes
    requires s.codes[exchange.presented.value].grant in s.grants && FreshIn(s, exchange)
    requires exchange.client == s.grants[s.codes[exchange.presented.value].grant].client
    requires exchange.redirect == "" || exchange.redirect == s.codes[exchange.presented.value].redirect
    ensures
      var code := exchange.presented.value;
      var row, grant := s.codes[code], s.grants[s.codes[code].grant];
      Step(s, exchange, later, pkce).1
      == if CodeUsable(s, code) && later < row.expires && grant.user in s.active
        && pkce(row.challenge, exchange.verifier)
         then Issued(row.grant, grant.scope) else Failed(InvalidGrant)
  {
  }

  /**
   An approved code is worth the approved scope for five minutes, to the client that asked
   and with its verifier, in every run in which it is not exchanged and its grant not ended.
   */
  lemma ApprovedCodeCanBeExchanged(
    s: Tables, e: Event, now: int, pkce: Verifier, run: seq<Timed>, exchange: Event, later: int)
    requires e.Approve? && Step(s, e, now, pkce).1.Approved?
    requires exchange.Exchange? && exchange.presented == Some(e.code) && exchange.client == s.requests[e.request].client
    requires exchange.redirect == "" || exchange.redirect == s.requests[e.request].redirect
    requires FreshIn(After(Step(s, e, now, pkce).0, run, pkce), exchange)
    ensures
      var t := Step(s, e, now, pkce).0;
      var u := After(t, run, pkce);
      var scope := if e.allowChanges then [READ, WRITE] else [READ];
      Step(u, exchange, later, pkce).1
      == if later < now + 5 * MINUTE && CodeUnspent(t, run, pkce, e.code) && e.user in u.active
            && pkce(s.requests[e.request].challenge, exchange.verifier)
         then Issued(e.grant, scope) else Failed(InvalidGrant)
  {
    CodeIsStored(s, e, now, pkce);
    hide Step, CodeUnspent;
    var t := Step(s, e, now, pkce).0;
    RunKeepsCode(t, run, pkce, e.code);
    UsableCodeIsExchanged(After(t, run, pkce), exchange, pkce, later);
  }

  // ---- tokens -----------------------------------------------------------------------------------------------------

  /** A token that has been neither used nor revoked, of a grant that is not revoked. */
  ghost predicate TokenUsable(s: Tables, token: Id) {
    && token in s.tokens && s.tokens[token].used.None? && s.tokens[token].revoked.None?
    && s.tokens[token].grant in s.grants && s.grants[s.tokens[token].grant].revoked.None?
  }

  /** The token is rotated or revoked by its client, or its grant ends. */
  ghost predicate SpendsToken(s: Tables, e: Event, now: int, pkce: Verifier, token: Id) {
    token in s.tokens && s.tokens[token].grant in s.grants
    && (Replays(s, e, s.tokens[token].grant) || Withdraws(s, e, now, pkce, s.tokens[token].grant)
        || e == Revoke(s.grants[s.tokens[token].grant].client, token)
        || (e.Rotate? && e.presented == Some(token) && Step(s, e, now, pkce).1.Issued?))
  }

  ghost predicate SpendsTokenAt(s: Tables, run: seq<Timed>, pkce: Verifier, token: Id, i: nat)
    requires i < |run|
  {
    SpendsToken(After(s, run[..i], pkce), run[i].event, run[i].at, pkce, token)
  }

  ghost predicate TokenUnspent(s: Tables, run: seq<Timed>, pkce: Verifier, token: Id) {
    forall i: nat | i < |run| :: !SpendsTokenAt(s, run, pkce, token, i)
  }

  lemma TokenUnspentFront(s: Tables, run: seq<Timed>, pkce: Verifier, token: Id)
    requires run != []
    ensures TokenUnspent(s, run, pkce, token)
       <==> TokenUnspent(s, Front(run), pkce, token)
            && !SpendsToken(After(s, Front(run), pkce), Last(run).event, Last(run).at, pkce, token)
  {
    hide After, SpendsToken;
    var n := |run| - 1;
    assert run[..n] == Front(run);
    forall i: nat | i < n
      ensures SpendsTokenAt(s, Front(run), pkce, token, i) == SpendsTokenAt(s, run, pkce, token, i)
    {
      assert Front(run)[..i] == run[..i];
    }
    assert TokenUnspent(s, run, pkce, token) ==> !SpendsTokenAt(s, run, pkce, token, n);
  }

  /** A token keeps everything but its use, if it can be rotated, and its revocation. */
  ghost predicate TokenKept(s: Tables, t: Tables, token: Id) {
    token in s.tokens && token in t.tokens
    && t.tokens[token] == s.tokens[token].(used := t.tokens[token].used, revoked := t.tokens[token].revoked)
    && (s.tokens[token].kind == Access ==> t.tokens[token].used == s.tokens[token].used)
  }

  /** Its row stays for a day after it expires, and may then go. */
  lemma TokenRow(s: Tables, e: Event, now: int, pkce: Verifier, token: Id)
    requires token in s.tokens && !Draws(e, token)
    ensures
      var t := Step(s, e, now, pkce).0;
      (token in t.tokens || s.tokens[token].expires >= now - DAY) ==> TokenKept(s, t, token)
  {
  }

  /** While its grant is not revoked, a token is marked by its own rotation and revocation only. */
  lemma TokenMarks(s: Tables, e: Event, now: int, pkce: Verifier, token: Id)
    requires token in s.tokens && s.tokens[token].grant in s.grants && !Draws(e, token)
    requires
      var t := Step(s, e, now, pkce).0;
      token in t.tokens && s.tokens[token].grant in t.grants && t.grants[s.tokens[token].grant].revoked.None?
    ensures
      var (t, outcome) := Step(s, e, now, pkce);
      t.tokens[token].used.None? && t.tokens[token].revoked.None?
      <==> s.tokens[token].used.None? && s.tokens[token].revoked.None?
           && e != Revoke(s.grants[s.tokens[token].grant].client, token)
           && !(e.Rotate? && e.presented == Some(token) && outcome.Issued?)
  {
  }

  lemma StepKeepsTokenUsable(s: Tables, e: Event, now: int, pkce: Verifier, token: Id)
    requires token in s.tokens && s.tokens[token].grant in s.grants && !Draws(e, token)
             && s.tokens[token].expires >= now - DAY
    ensures TokenUsable(Step(s, e, now, pkce).0, token)
            <==> TokenUsable(s, token) && !SpendsToken(s, e, now, pkce, token)
  {
    hide Step, Replays, Withdraws;
    TokenRow(s, e, now, pkce, token);
    var grant := s.tokens[token].grant;
    StepKeepsGrant(s, e, now, pkce, grant);
    if s.grants[grant].revoked.None? {
      RevokedExactlyWhen(s, e, now, pkce, grant);
      if Step(s, e, now, pkce).0.grants[grant].revoked.None? {
        TokenMarks(s, e, now, pkce, token);
      }
    }
  }

  lemma {:induction false} RunKeepsToken(s: Tables, run: seq<Timed>, pkce: Verifier, token: Id, later: int)
    requires token in s.tokens && s.tokens[token].grant in s.grants && NotDrawnAgain(run, token) && Until(run, later)
    ensures
      var t := After(s, run, pkce);
      && GrantKept(s, t, s.tokens[token].grant)
      && (token in t.tokens ==> TokenKept(s, t, token))
      && (s.tokens[token].expires >= later - DAY ==>
            token in t.tokens
            && (TokenUsable(t, token) <==> TokenUsable(s, token) && TokenUnspent(s, run, pkce, token)))
  {
    hide Step, SpendsToken, TokenUsable;
    RunKeepsGrant(s, run, pkce, s.tokens[token].grant);
    if run != [] {
      RunKeepsToken(s, Front(run), pkce, token, later);
      TokenUnspentFront(s, run, pkce, token);
      var before, last := After(s, Front(run), pkce), Last(run);
      if token in before.tokens {
        TokenRow(before, last.event, last.at, pkce, token);
        if s.tokens[token].expires >= later - DAY { StepKeepsTokenUsable(before, last.event, last.at, pkce, token); }
      } else {
        NoTokenAppears(before, last.event, last.at, pkce, token);
      }
    }
  }

  lemma NoTokenAppears(s: Tables, e: Event, now: int, pkce: Verifier, token: Id)
    requires token !in s.tokens && !Draws(e, token)
    ensures token !in Step(s, e, now, pkce).0.tokens
  {
  }

  lemma IssuedTokensAreStored(s: Tables, e: Event, now: int, pkce: Verifier)
    requires Step(s, e, now, pkce).1.Issued?
    ensures
      var (t, outcome) := Step(s, e, now, pkce);
      && t.grants == s.grants && (e.Exchange? || e.Rotate?) && e.access in t.tokens && e.refresh in t.tokens
      && t.tokens[e.access] == Token(outcome.grant, Access, now, now + HOUR, None, None)
      && t.tokens[e.refresh] == Token(outcome.grant, Refresh, now, now + 30 * DAY, None, None)
  {
  }

  lemma UsableTokenVerifies(s: Tables, token: Id, resource: string, later: int)
    requires token in s.tokens && s.tokens[token].grant in s.grants
    requires s.tokens[token].kind == Access && s.tokens[token].used.None?
             && s.grants[s.tokens[token].grant].resource == resource
    ensures
      var row, grant := s.tokens[token], s.grants[s.tokens[token].grant];
      Verified(s, token, resource, later)
      == if TokenUsable(s, token) && later < row.expires && grant.user in s.active
         then Some(AccessGrant(row.grant, grant.user, grant.scope, grant.dataLevel, row.expires)) else None
  {
  }

  /**
   An issued access token verifies, with what its grant allows, for an hour, in every run
   in which it is not revoked, its grant not ended, and its user not disabled at the end.
   */
  lemma IssuedAccessVerifies(s: Tables, e: Event, now: int, pkce: Verifier, run: seq<Timed>, later: int)
    requires Step(s, e, now, pkce).1.Issued?
    requires NotDrawnAgain(run, e.access) && Until(run, later)
    ensures
      var (t, outcome) := Step(s, e, now, pkce);
      var u, grant := After(t, run, pkce), s.grants[outcome.grant];
      Verified(u, e.access, grant.resource, later)
      == if later < now + HOUR && TokenUnspent(t, run, pkce, e.access) && grant.user in u.active
         then Some(AccessGrant(outcome.grant, grant.user, grant.scope, grant.dataLevel, now + HOUR)) else None
  {
    IssuedTokensAreStored(s, e, now, pkce);
    IssuedWithTheGrantsScope(s, e, now, pkce);
    hide Step, TokenUnspent;
    var t := Step(s, e, now, pkce).0;
    RunKeepsToken(t, run, pkce, e.access, later);
    var u := After(t, run, pkce);
    if e.access in u.tokens {
      UsableTokenVerifies(u, e.access, u.grants[u.tokens[e.access].grant].resource, later);
    }
  }

  lemma UsableTokenRotates(s: Tables, rotate: Event, pkce: Verifier, later: int)
    requires rotate.Rotate? && rotate.presented.Some? && !rotate.given && NormalizedScope(rotate.words).Some?
    requires rotate.presented.value in s.tokens ==>
               s.tokens[rotate.presented.value].kind == Refresh && s.tokens[rotate.presented.value].grant in s.grants
               && rotate.client == s.grants[s.tokens[rotate.presented.value].grant].client
    requires FreshIn(s, rotate)
    ensures
      var token := rotate.presented.value;
      Step(s, rotate, later, pkce).1
      == if TokenUsable(s, token) && later < s.tokens[token].expires && s.grants[s.tokens[token].grant].user in s.active
         then Issued(s.tokens[token].grant, s.grants[s.tokens[token].grant].scope) else Failed(InvalidGrant)
  {
    hide NormalizedScope;
  }

  /**
   An issued refresh token can be rotated, by its client, for thirty days, in every run in
   which it is not rotated, its grant not ended, and its user not disabled at the end.
   */
  lemma IssuedRefreshRotates(
    s: Tables, e: Event, now: int, pkce: Verifier, run: seq<Timed>, rotate: Event, later: int)
    requires Step(s, e, now, pkce).1.Issued?
    requires NotDrawnAgain(run, e.refresh) && Until(run, later)
    requires rotate.Rotate? && rotate.presented == Some(e.refresh) && !rotate.given
             && NormalizedScope(rotate.words).Some?
    requires rotate.client == s.grants[Step(s, e, now, pkce).1.grant].client
    requires FreshIn(After(Step(s, e, now, pkce).0, run, pkce), rotate)
    ensures
      var (t, outcome) := Step(s, e, now, pkce);
      var u := After(t, run, pkce);
      Step(u, rotate, later, pkce).1
      == if later < now + 30 * DAY && TokenUnspent(t, run, pkce, e.refresh) && s.grants[outcome.grant].user in u.active
         then outcome else Failed(InvalidGrant)
  {
    IssuedTokensAreStored(s, e, now, pkce);
    IssuedWithTheGrantsScope(s, e, now, pkce);
    hide Step, TokenUnspent, NormalizedScope;
    var t := Step(s, e, now, pkce).0;
    RunKeepsToken(t, run, pkce, e.refresh, later);
    UsableTokenRotates(After(t, run, pkce), rotate, pkce, later);
  }
}
