/**
 Who can use what the authorization server hands out: every code and token is worth
 something to its own client only, every refusal leaves the tables as they were, and
 every code exchanged traces back to the request of the client that exchanges it.
 */
module OAuthOwnership {
  import opened Wrappers
  import opened Sequences
  import opened OAuthTables
  import opened OAuthSafety
  import opened OAuthRuns
  import opened OAuthLifetimes

  // ---- codes ------------------------------------------------------------------------------------------------------

  /** A stored code of a stored grant is presented. */
  predicate PresentsCode(s: Tables, e: Event) {
    e.Exchange? && e.presented.Some? && e.presented.value in s.codes && s.codes[e.presented.value].grant in s.grants
  }

  /** What the holder of a code has to show. */
  predicate MayExchange(s: Tables, e: Event, now: int, pkce: Verifier)
    requires PresentsCode(s, e)
  {
    var row := s.codes[e.presented.value];
    var grant := s.grants[row.grant];
    && grant.client == e.client
    && (e.redirect == "" || e.redirect == row.redirect)
    && pkce(row.challenge, e.verifier)
    && row.used.None? && now < row.expires && grant.revoked.None? && grant.user in s.active
  }

  /**
   A code is exchanged for tokens of its grant exactly by the client it was issued to, with
   the redirect address and the verifier of its request, once, in time, and for an active
   user whose grant is not revoked.
   */
  lemma ExchangesExactlyWhen(s: Tables, e: Event, now: int, pkce: Verifier)
    requires e.Exchange?
    ensures Step(s, e, now, pkce).1.Issued? ==> PresentsCode(s, e) && MayExchange(s, e, now, pkce)
    ensures PresentsCode(s, e) && MayExchange(s, e, now, pkce) && FreshIn(s, e) ==>
              var grant := s.codes[e.presented.value].grant;
              Step(s, e, now, pkce).1 == Issued(grant, s.grants[grant].scope)
  {
  }

  /** To another client a code is worth nothing, used or not, and trying changes nothing. */
  lemma CodesOfOthersAreRefused(s: Tables, e: Event, now: int, pkce: Verifier)
    requires e.Exchange? && e.presented.Some?
    requires PresentsCode(s, e) ==> s.grants[s.codes[e.presented.value].grant].client != e.client
    ensures Step(s, e, now, pkce) == (s, Failed(InvalidGrant))
  {
  }

  /** Nor does its own client spend an unused code by getting redirect address or verifier wrong. */
  lemma WrongExchangesAreRefused(s: Tables, e: Event, now: int, pkce: Verifier)
    requires PresentsCode(s, e) && s.codes[e.presented.value].used.None? && !MayExchange(s, e, now, pkce)
    ensures Step(s, e, now, pkce) == (s, Failed(InvalidGrant))
  {
  }

  // ---- refresh tokens ---------------------------------------------------------------------------------------------

  predicate PresentsRefresh(s: Tables, e: Event) {
    && e.Rotate? && e.presented.Some? && e.presented.value in s.tokens
    && s.tokens[e.presented.value].kind == Refresh && s.tokens[e.presented.value].grant in s.grants
  }

  /** Every scope a request names, if it names any, is known, and one the grant has. */
  predicate AsksWithin(e: Event, scope: Scopes)
    requires e.Rotate?
  {
    && (forall w | w in e.words :: w in {READ, WRITE, OFFLINE})
    && (e.given && WRITE in e.words ==> WRITE in scope) && (e.given ==> READ in scope)
  }

  predicate MayRotate(s: Tables, e: Event, now: int)
    requires PresentsRefresh(s, e)
  {
    var row := s.tokens[e.presented.value];
    var grant := s.grants[row.grant];
    && grant.client == e.client && AsksWithin(e, grant.scope)
    && row.used.None? && row.revoked.None? && now < row.expires && grant.revoked.None? && grant.user in s.active
  }

  /** A scope parameter is refused exactly when it holds a word that is not offered, and writes only when it asks to. */
  lemma ScopesAreNormalized(words: seq<string>)
    ensures NormalizedScope(words).Some? <==> forall w | w in words :: w in {READ, WRITE, OFFLINE}
    ensures NormalizedScope(words).Some? ==>
              var scope := NormalizedScope(words).value;
              READ in scope && (WRITE in scope <==> WRITE in words) && forall w | w in scope :: w in {READ, WRITE}
  {
    if NormalizedScope(words).Some? {
      forall w | w in words ensures w in {READ, WRITE, OFFLINE} {
        var i :| 0 <= i < |words| && words[i] == w;
      }
    } else {
      var i :| 0 <= i < |words| && words[i] != READ && words[i] != OFFLINE && words[i] != WRITE;
      assert words[i] in words;
    }
  }

  /** A refresh token is rotated exactly by its own client, once, in time, and for no scope beyond its grant's. */
  lemma RotatesExactlyWhen(s: Tables, e: Event, now: int, pkce: Verifier)
    requires e.Rotate?
    ensures Step(s, e, now, pkce).1.Issued? ==> PresentsRefresh(s, e) && MayRotate(s, e, now)
    ensures PresentsRefresh(s, e) && MayRotate(s, e, now) && FreshIn(s, e) ==>
              var grant := s.tokens[e.presented.value].grant;
              Step(s, e, now, pkce).1 == Issued(grant, s.grants[grant].scope)
  {
    hide NormalizedScope;
    ScopesAreNormalized(e.words);
    if NormalizedScope(e.words).Some? { WantedWithin(NormalizedScope(e.words).value); }
  }

  lemma WantedWithin(wanted: Scopes)
    requires READ in wanted && forall w | w in wanted :: w in {READ, WRITE}
    ensures forall scope: Scopes ::
              (forall i | 0 <= i < |wanted| :: wanted[i] in scope)
              <==> READ in scope && (WRITE in wanted ==> WRITE in scope)
  {
    forall scope: Scopes
      ensures (forall i | 0 <= i < |wanted| :: wanted[i] in scope)
         <==> READ in scope && (WRITE in wanted ==> WRITE in scope)
    {
      forall i | 0 <= i < |wanted| && READ in scope && (WRITE in wanted ==> WRITE in scope) ensures wanted[i] in scope {
        assert wanted[i] in wanted;
      }
      forall w | w in wanted && (forall i | 0 <= i < |wanted| :: wanted[i] in scope) ensures w in scope {
        var i :| 0 <= i < |wanted| && wanted[i] == w;
      }
    }
  }

  /** To another client a refresh token is worth nothing, used or not, and trying changes nothing. */
  lemma RefreshTokensOfOthersAreRefused(s: Tables, e: Event, now: int, pkce: Verifier)
    requires e.Rotate? && e.presented.Some?
    requires PresentsRefresh(s, e) ==> s.grants[s.tokens[e.presented.value].grant].client != e.client
    ensures Step(s, e, now, pkce) == (s, Failed(if NormalizedScope(e.words).Some? then InvalidGrant else InvalidScope))
  {
    hide NormalizedScope;
  }

  /** Asking for more than was granted is refused and spends nothing. */
  lemma WiderScopesAreRefused(s: Tables, e: Event, now: int, pkce: Verifier)
    requires PresentsRefresh(s, e) && e.given && WRITE in e.words && NormalizedScope(e.words).Some?
    requires
      var row := s.tokens[e.presented.value];
      var grant := s.grants[row.grant];
      && grant.client == e.client && WRITE !in grant.scope
      && row.used.None? && row.revoked.None? && now < row.expires && grant.revoked.None? && grant.user in s.active
    ensures Step(s, e, now, pkce) == (s, Failed(InvalidScope))
  {
    hide NormalizedScope;
    ScopesAreNormalized(e.words);
    WantedWithin(NormalizedScope(e.words).value);
  }

  // ---- withdrawing ------------------------------------------------------------------------------------------------

  /**
   A transaction that replays a secret of a grant, or withdraws it other than by approving
   another, revokes all its tokens with it; besides, a client revokes the token it names.
   Earlier revocations keep their time.
   */
  lemma TokensEndWithTheirGrant(s: Tables, e: Event, now: int, pkce: Verifier, token: Id)
    requires token in s.tokens && s.tokens[token].grant in s.grants && !Draws(e, token)
    requires token in Step(s, e, now, pkce).0.tokens && s.grants[s.tokens[token].grant].revoked.None?
    ensures
      var row, after := s.tokens[token], Step(s, e, now, pkce).0.tokens[token];
      var ends := || Replays(s, e, row.grant) || (Withdraws(s, e, now, pkce, row.grant) && !e.Approve?)
                  || e == Revoke(s.grants[row.grant].client, token);
      after.revoked == if ends && row.revoked.None? then Some(now) else row.revoked
  {
  }

  /** Only its rotation marks a token as used, and only tokens issued for its grant make a long expired one go. */
  lemma TokensAreSpentAndPruned(s: Tables, e: Event, now: int, pkce: Verifier, token: Id)
    requires token in s.tokens && !Draws(e, token)
    ensures
      var (t, outcome) := Step(s, e, now, pkce);
      && (token !in t.tokens <==>
          outcome.Issued? && outcome.grant == s.tokens[token].grant && s.tokens[token].expires < now - DAY)
      && (token in t.tokens ==>
            t.tokens[token].used
            == if e.Rotate? && e.presented == Some(token) && outcome.Issued? then Some(now) else s.tokens[token].used)
  {
  }

  /** A user is active from being activated until being disabled, whatever else happens. */
  lemma ActiveUntilDisabled(s: Tables, e: Event, now: int, pkce: Verifier, user: Id)
    ensures user in Step(s, e, now, pkce).0.active
       <==> e == Activate(user) || (user in s.active && e != Disable(user))
  {
  }

  /** Only its own client revokes a token, and only its own user a connected app, once. */
  lemma OthersRevokeNothing(s: Tables, e: Event, now: int, pkce: Verifier)
    ensures e.Revoke? && (e.token in s.tokens && s.tokens[e.token].grant in s.grants ==>
                            s.grants[s.tokens[e.token].grant].client != e.client) ==>
              Step(s, e, now, pkce) == (s, Done)
    ensures e.RevokeApp? && (e.grant in s.grants ==> s.grants[e.grant].user != e.user || Revoked(s, e.grant)) ==>
              Step(s, e, now, pkce) == (s, Failed(NotFound))
  {
  }

  // ---- refusals ---------------------------------------------------------------------------------------------------

  /** A refused transaction leaves the tables as they were, unless it replays a secret or draws an identifier twice. */
  lemma RefusalsChangeNothing(s: Tables, e: Event, now: int, pkce: Verifier)
    requires Step(s, e, now, pkce).1.Failed?
    ensures Step(s, e, now, pkce).0 == s || (exists g :: Replays(s, e, g)) || (e.Start? && e.request in s.requests)
  {
    hide NormalizedScope;
    if PresentsCode(s, e) && Step(s, e, now, pkce).0 != s {
      assert Replays(s, e, s.codes[e.presented.value].grant);
    } else if PresentsRefresh(s, e) && Step(s, e, now, pkce).0 != s {
      assert Replays(s, e, s.tokens[e.presented.value].grant);
    }
  }

  // ---- consent ----------------------------------------------------------------------------------------------------

  /** A request is stored as it was made, for those that pass the checks and ask for scopes that are offered. */
  lemma StartsExactlyWhen(s: Tables, e: Event, now: int, pkce: Verifier)
    requires e.Start?
    ensures
      var (t, outcome) := Step(s, e, now, pkce);
      && (outcome == Done <==>
            e.accepted && NormalizedScope(e.words).Some?
            && (e.request in s.requests ==> s.requests[e.request].expires < now))
      && (outcome == Done ==>
            e.request in t.requests
            && t.requests[e.request]
               == Request(e.client, e.redirect, e.challenge, NormalizedScope(e.words).value, e.resource,
                 now + 10 * MINUTE))
  {
  }

  /**
   What a user can choose: a level of data, and changes only at the detailed level and
   for an application that asked.
   */
  lemma ApprovesExactlyWhen(s: Tables, e: Event, now: int, pkce: Verifier)
    requires e.Approve? && e.grant !in s.grants && e.code !in s.codes
    ensures Step(s, e, now, pkce).1.Approved?
       <==> e.dataLevel in {"detailed", "summary"} && e.request in s.requests && now < s.requests[e.request].expires
            && (e.allowChanges ==> e.dataLevel == "detailed" && WRITE in s.requests[e.request].scope)
  {
  }

  // ---- codes trace back to their requests -------------------------------------------------------------------------

  /** The transaction that started a request, as the request is stored. */
  ghost predicate StartedBy(s: Tables, run: seq<Timed>, i: int, pkce: Verifier, id: Id, request: Request) {
    && Asks(s, run, i, pkce, id)
    && run[i].event.client == request.client && run[i].event.redirect == request.redirect
    && run[i].event.challenge == request.challenge && run[i].event.resource == request.resource
  }

  ghost predicate Started(s: Tables, run: seq<Timed>, pkce: Verifier, id: Id, request: Request) {
    exists i :: StartedBy(s, run, i, pkce, id, request)
  }

  lemma StartedExtends(s: Tables, run: seq<Timed>, pkce: Verifier, id: Id, request: Request)
    requires run != [] && Started(s, Front(run), pkce, id, request)
    ensures Started(s, run, pkce, id, request)
  {
    var i :| StartedBy(s, Front(run), i, pkce, id, request);
    Extend(s, run, pkce, i);
    assert StartedBy(s, run, i, pkce, id, request);
  }

  lemma RequestIsNewOrKept(s: Tables, e: Event, now: int, pkce: Verifier, id: Id)
    requires id in Step(s, e, now, pkce).0.requests
    ensures
      var (t, outcome) := Step(s, e, now, pkce);
      (id in s.requests && t.requests[id] == s.requests[id])
      || (e.Start? && e.request == id && outcome == Done && t.requests[id].client == e.client
          && t.requests[id].redirect == e.redirect && t.requests[id].challenge == e.challenge
          && t.requests[id].resource == e.resource)
  {
    hide NormalizedScope;
  }

  /** Every pending request is stored as the transaction that started it asked. */
  lemma {:induction false} RequestsAreAsStarted(active: set<Id>, run: seq<Timed>, pkce: Verifier, id: Id)
    requires id in After(Initial(active), run, pkce).requests
    ensures Started(Initial(active), run, pkce, id, After(Initial(active), run, pkce).requests[id])
  {
    hide Step;
    var s := Initial(active);
    if run != [] {
      var before, last := After(s, Front(run), pkce), Last(run);
      RequestIsNewOrKept(before, last.event, last.at, pkce, id);
      AtTheEnd(s, run, pkce);
      if id in before.requests && After(s, run, pkce).requests[id] == before.requests[id] {
        RequestsAreAsStarted(active, Front(run), pkce, id);
        StartedExtends(s, run, pkce, id, before.requests[id]);
      } else {
        assert StartedBy(s, run, |run| - 1, pkce, id, After(s, run, pkce).requests[id]);
      }
    }
  }

  /**
   An approval of a grant by its user, of a request that was started with the code's
   challenge and redirect address.
   */
  ghost predicate CodeTraced(s: Tables, run: seq<Timed>, pkce: Verifier, grant: Grant, code: Code) {
    exists i, j :: TracedBy(s, run, i, j, pkce, grant, code)
  }

  ghost predicate TracedBy(s: Tables, run: seq<Timed>, i: int, j: int, pkce: Verifier, grant: Grant, code: Code) {
    && i < j && Approves(s, run, j, pkce, code.grant) && run[j].event.user == grant.user
    && Asks(s, run, i, pkce, run[j].event.request)
    && run[i].event.client == grant.client && run[i].event.resource == grant.resource
    && run[i].event.redirect == code.redirect && run[i].event.challenge == code.challenge
  }

  lemma CodeTracedExtends(s: Tables, run: seq<Timed>, pkce: Verifier, grant: Grant, code: Code, used: Code, kept: Grant)
    requires run != [] && CodeTraced(s, Front(run), pkce, grant, code)
    requires used == code.(used := used.used) && kept == grant.(revoked := kept.revoked)
    ensures CodeTraced(s, run, pkce, kept, used)
  {
    var i, j :| TracedBy(s, Front(run), i, j, pkce, grant, code);
    Extend(s, run, pkce, i);
    Extend(s, run, pkce, j);
    assert TracedBy(s, run, i, j, pkce, kept, used);
  }

  /** A code only appears by being approved. */
  lemma NewCodeIsApproved(s: Tables, e: Event, now: int, pkce: Verifier, code: Id)
    requires code !in s.codes && code in Step(s, e, now, pkce).0.codes
    ensures
      var (t, outcome) := Step(s, e, now, pkce);
      && e.Approve? && outcome == Approved(e.grant) && e.request in s.requests && e.grant in t.grants
      && t.codes[code] == Code(e.grant, s.requests[e.request].redirect, s.requests[e.request].challenge,
                               now + 5 * MINUTE, None)
      && t.grants[e.grant].user == e.user && t.grants[e.grant].client == s.requests[e.request].client
      && t.grants[e.grant].resource == s.requests[e.request].resource
  {
    hide NormalizedScope;
  }

  lemma {:induction false} CodesAreTraced(active: set<Id>, run: seq<Timed>, pkce: Verifier, code: Id)
    requires code in After(Initial(active), run, pkce).codes
    ensures
      var t := After(Initial(active), run, pkce);
      t.codes[code].grant in t.grants
      && CodeTraced(Initial(active), run, pkce, t.grants[t.codes[code].grant], t.codes[code])
  {
    hide Step;
    var s := Initial(active);
    if run != [] {
      var before, last, t := After(s, Front(run), pkce), Last(run), After(s, run, pkce);
      AtTheEnd(s, run, pkce);
      if code in before.codes {
        CodesAreTraced(active, Front(run), pkce, code);
        var grant := before.codes[code].grant;
        CodeRow(before, last.event, last.at, pkce, code);
        StepKeepsGrant(before, last.event, last.at, pkce, grant);
        CodeTracedExtends(s, run, pkce, before.grants[grant], before.codes[code], t.codes[code], t.grants[grant]);
      } else {
        NewCodeIsApproved(before, last.event, last.at, pkce, code);
        var request := last.event.request;
        RequestsAreAsStarted(active, Front(run), pkce, request);
        var i :| StartedBy(s, Front(run), i, pkce, request, before.requests[request]);
        Extend(s, run, pkce, i);
        assert TracedBy(s, run, i, |run| - 1, pkce, t.grants[t.codes[code].grant], t.codes[code]);
      }
    }
  }

  /**
   Whoever exchanges a code started the request that was approved for it: the same client,
   with the challenge that its verifier meets and the redirect address it names, if any.
   */
  lemma ExchangedByTheAsker(active: set<Id>, run: seq<Timed>, pkce: Verifier, e: Event, now: int)
    requires e.Exchange? && Step(After(Initial(active), run, pkce), e, now, pkce).1.Issued?
    ensures exists i, j ::
              && i < j && Asks(Initial(active), run, i, pkce, DecidedBy(run, j))
              && Approves(Initial(active), run, j, pkce, Step(After(Initial(active), run, pkce), e, now, pkce).1.grant)
              && run[i].event.client == e.client && pkce(run[i].event.challenge, e.verifier)
              && (e.redirect == "" || e.redirect == run[i].event.redirect)
  {
    var s := After(Initial(active), run, pkce);
    ExchangesExactlyWhen(s, e, now, pkce);
    IssuedForTheCode(s, e, now, pkce);
    hide Step;
    var code := e.presented.value;
    CodesAreTraced(active, run, pkce, code);
    var i, j :| TracedBy(Initial(active), run, i, j, pkce, s.grants[s.codes[code].grant], s.codes[code]);
    assert DecidedBy(run, j) == run[j].event.request;
  }

  /**
   Whatever an access token verifies for was asked for: the resource by the client whose
   request was approved, and the user is the one who approved it.
   */
  lemma VerifiedAsAskedFor(active: set<Id>, run: seq<Timed>, pkce: Verifier, token: Id, resource: string, now: int)
    requires Verified(After(Initial(active), run, pkce), token, resource, now).Some?
    ensures
      var s := After(Initial(active), run, pkce);
      var access := Verified(s, token, resource, now).value;
      && access.grant in s.grants
      && exists i, j ::
           && i < j && Asks(Initial(active), run, i, pkce, DecidedBy(run, j))
           && Approves(Initial(active), run, j, pkce, access.grant)
           && run[i].event.resource == resource && run[i].event.client == s.grants[access.grant].client
           && run[j].event.user == access.user
  {
    var s := After(Initial(active), run, pkce);
    var grant := s.tokens[token].grant;
    assert Verified(s, token, resource, now).value.user == s.grants[grant].user && resource == s.grants[grant].resource;
    ReachableConsistent(active, run, pkce);
    hide After, Initial, Verified;
    assert HasCode(s.codes, grant);
    var code :| code in s.codes && s.codes[code].grant == grant;
    CodesAreTraced(active, run, pkce, code);
    var i, j :| TracedBy(Initial(active), run, i, j, pkce, s.grants[grant], s.codes[code]);
    assert DecidedBy(run, j) == run[j].event.request;
  }

  lemma IssuedForTheCode(s: Tables, e: Event, now: int, pkce: Verifier)
    requires e.Exchange? && Step(s, e, now, pkce).1.Issued?
    ensures PresentsCode(s, e) && Step(s, e, now, pkce).1.grant == s.codes[e.presented.value].grant
  {
  }
}
