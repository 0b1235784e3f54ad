/**
 Runs of the authorization server: a replayed secret ends its grant for good, every
 write scope can be traced to a request and an approval, and requests are decided once.
 */
module OAuthRuns {
  import opened Wrappers
  import opened Sequences
  import opened OAuthTables
  import opened OAuthSafety

  datatype Timed = Timed(event: Event, at: int)

  type Verifier = (string, string) -> bool

  function Initial(active: set<Id>): Tables {
    Tables(active, map[], map[], map[], map[])
  }

  function After(s: Tables, run: seq<Timed>, pkce: Verifier): Tables {
    if run == [] then s else Step(After(s, Front(run), pkce), Last(run).event, Last(run).at, pkce).0
  }

  function OutcomeAt(s: Tables, run: seq<Timed>, i: nat, pkce: Verifier): Outcome
    requires i < |run|
  {
    Step(After(s, run[..i], pkce), run[i].event, run[i].at, pkce).1
  }

  /**
   In every reachable state each grant has exactly one code and no tokens before that code
   is used, at most one of its refresh tokens is not yet used, and a user has at most one
   unrevoked grant per client.
   */
  lemma {:induction false} ReachableConsistent(active: set<Id>, run: seq<Timed>, pkce: Verifier)
    ensures Consistent(After(Initial(active), run, pkce))
  {
    if run != [] {
      ReachableConsistent(active, Front(run), pkce);
      StepConsistent(After(Initial(active), Front(run), pkce), Last(run).event, Last(run).at, pkce);
    }
  }

  // ---- grants -----------------------------------------------------------------------------------------------------

  /** A stored grant keeps everything but its revocation, which is never undone and keeps its time. */
  ghost predicate GrantKept(s: Tables, t: Tables, grant: Id) {
    && grant in s.grants && grant in t.grants
    && t.grants[grant] == s.grants[grant].(revoked := t.grants[grant].revoked)
    && (s.grants[grant].revoked.Some? ==> t.grants[grant].revoked == s.grants[grant].revoked)
  }

  lemma StepKeepsGrant(s: Tables, e: Event, now: int, pkce: Verifier, grant: Id)
    requires grant in s.grants
    ensures GrantKept(s, Step(s, e, now, pkce).0, grant)
  {
    match e
    case Exchange(client, presented, redirect, verifier, access, refresh) =>
      if presented.Some? && presented.value in s.codes {
        GrantRevokedKeepsGrant(s, s.codes[presented.value].grant, now, grant);
      }
    case Rotate(client, presented, given, words, access, refresh) =>
      if presented.Some? && presented.value in s.tokens {
        GrantRevokedKeepsGrant(s, s.tokens[presented.value].grant, now, grant);
      }
    case Revoke(client, token) =>
      if token in s.tokens {
        GrantRevokedKeepsGrant(s, s.tokens[token].grant, now, grant);
      }
    case _ =>
  }

  lemma GrantRevokedKeepsGrant(s: Tables, revoked: Id, now: int, grant: Id)
    requires grant in s.grants
    ensures revoked in s.grants ==> GrantKept(s, GrantRevoked(s, revoked, now), grant)
  {
  }

  lemma {:induction false} RunKeepsGrant(s: Tables, run: seq<Timed>, pkce: Verifier, grant: Id)
    requires grant in s.grants
    ensures GrantKept(s, After(s, run, pkce), grant)
  {
    if run != [] {
      RunKeepsGrant(s, Front(run), pkce, grant);
      StepKeepsGrant(After(s, Front(run), pkce), Last(run).event, Last(run).at, pkce, grant);
    }
  }

  /** A grant only appears by being approved. */
  lemma NewGrantIsApproved(s: Tables, e: Event, now: int, pkce: Verifier, grant: Id)
    requires grant !in s.grants && grant in Step(s, e, now, pkce).0.grants
    ensures e.Approve? && e.grant == grant && Step(s, e, now, pkce).1 == Approved(grant)
  {
  }

  /** Tokens are issued with the scope their grant was approved with, for a grant that is not revoked. */
  lemma IssuedWithTheGrantsScope(s: Tables, e: Event, now: int, pkce: Verifier)
    requires Step(s, e, now, pkce).1.Issued?
    ensures
      var outcome := Step(s, e, now, pkce).1;
      && outcome.grant in s.grants && s.grants[outcome.grant].revoked.None?
         && outcome.scope == s.grants[outcome.grant].scope
      && s.grants[outcome.grant].user in s.active
  {
  }

  // ---- replays ----------------------------------------------------------------------------------------------------

  ghost predicate Revoked(s: Tables, grant: Id) {
    grant in s.grants && s.grants[grant].revoked.Some?
  }

  /** The presented secret was used before and its client presents it again. */
  ghost predicate Replays(s: Tables, e: Event, grant: Id) {
    grant in s.grants &&
    match e
    case Exchange(client, presented, _, _, _, _) =>
      presented.Some? && presented.value in s.codes && s.codes[presented.value].grant == grant
      && s.codes[presented.value].used.Some? && s.grants[grant].client == client
    case Rotate(client, presented, _, words, _, _) =>
      presented.Some? && NormalizedScope(words).Some? && presented.value in s.tokens
        && s.tokens[presented.value].grant == grant
      && s.tokens[presented.value].kind == Refresh && s.tokens[presented.value].used.Some?
         && s.grants[grant].client == client
    case _ => false
  }

  /** The other ways a grant ends: at its client's wish, at its user's, or by being replaced. */
  ghost predicate Withdraws(s: Tables, e: Event, now: int, pkce: Verifier, grant: Id) {
    grant in s.grants &&
    match e
    case Revoke(client, token) =>
      token in s.tokens && s.tokens[token].kind == Refresh && s.tokens[token].grant == grant
        && s.grants[grant].client == client
    case RevokeApp(user, id) => id == grant && s.grants[grant].user == user
    case Approve(user, request, _, _, _, _) =>
      Step(s, e, now, pkce).1.Approved? && s.grants[grant].user == user
        && s.requests[request].client == s.grants[grant].client
    case _ => false
  }

  /** A grant is revoked by a transaction exactly when that replays one of its secrets or withdraws it. */
  lemma RevokedExactlyWhen(s: Tables, e: Event, now: int, pkce: Verifier, grant: Id)
    requires grant in s.grants && s.grants[grant].revoked.None?
    ensures Revoked(Step(s, e, now, pkce).0, grant) <==> Replays(s, e, grant) || Withdraws(s, e, now, pkce, grant)
    ensures Revoked(Step(s, e, now, pkce).0, grant) ==> Step(s, e, now, pkce).0.grants[grant].revoked == Some(now)
  {
    if e.Exchange? && e.presented.Some? && e.presented.value in s.codes {
      var row := s.codes[e.presented.value];
    }
  }

  /** Nothing is issued for the grant in a run, and at its end no access token of it verifies. */
  ghost predicate Ended(s: Tables, run: seq<Timed>, pkce: Verifier, grant: Id) {
    && (forall i | 0 <= i < |run| :: OutcomeAt(s, run, i, pkce).Issued? ==> OutcomeAt(s, run, i, pkce).grant != grant)
    && (forall token: Id, resource: string, now: int ::
          var access := Verified(After(s, run, pkce), token, resource, now);
          access.Some? ==> access.value.grant != grant)
  }

  lemma RevokedIsFinal(s: Tables, run: seq<Timed>, pkce: Verifier, grant: Id)
    requires Revoked(s, grant)
    ensures Revoked(After(s, run, pkce), grant) && Ended(s, run, pkce, grant)
  {
    RunKeepsGrant(s, run, pkce, grant);
    forall i | 0 <= i < |run| && OutcomeAt(s, run, i, pkce).Issued? ensures OutcomeAt(s, run, i, pkce).grant != grant {
      RunKeepsGrant(s, run[..i], pkce, grant);
      IssuedWithTheGrantsScope(After(s, run[..i], pkce), run[i].event, run[i].at, pkce);
    }
  }

  /** A replayed code or refresh token revokes its grant, and nothing that happens later revives it. */
  lemma ReplayEndsTheGrant(s: Tables, e: Event, now: int, pkce: Verifier, grant: Id, later: seq<Timed>)
    requires Replays(s, e, grant)
    ensures
      var (t, outcome) := Step(s, e, now, pkce);
      outcome == Failed(InvalidGrant) && Revoked(t, grant) && Revoked(After(t, later, pkce), grant)
        && Ended(t, later, pkce, grant)
  {
    RevokedIsFinal(Step(s, e, now, pkce).0, later, pkce, grant);
  }

  // ---- where write access comes from ------------------------------------------------------------------------------

  /** The identifiers the server draws for requests are new each time. */
  ghost predicate FreshRequests(run: seq<Timed>) {
    forall i, j | 0 <= i < j < |run| && run[i].event.Start?
      && run[j].event.Start? :: run[i].event.request != run[j].event.request
  }

  ghost predicate Asks(s: Tables, run: seq<Timed>, i: int, pkce: Verifier, request: Id) {
    0 <= i < |run| && run[i].event.Start? && run[i].event.request == request && OutcomeAt(s, run, i, pkce) == Done
  }

  ghost predicate AsksToWrite(s: Tables, run: seq<Timed>, i: int, pkce: Verifier, request: Id) {
    Asks(s, run, i, pkce, request) && WRITE in run[i].event.words
  }

  ghost predicate Approves(s: Tables, run: seq<Timed>, i: int, pkce: Verifier, grant: Id) {
    0 <= i < |run| && run[i].event.Approve? && OutcomeAt(s, run, i, pkce) == Approved(grant)
  }

  ghost predicate AllowsToWrite(s: Tables, run: seq<Timed>, i: int, pkce: Verifier, grant: Id) {
    Approves(s, run, i, pkce, grant) && run[i].event.allowChanges && run[i].event.dataLevel == "detailed"
  }

  /** Every pending request was started in the run, and one that may write was asked to. */
  ghost predicate RequestsTraced(s: Tables, run: seq<Timed>, pkce: Verifier) {
    forall r | r in After(s, run, pkce).requests ::
      RequestTraced(s, run, pkce, r, WRITE in After(s, run, pkce).requests[r].scope)
  }

  ghost predicate RequestTraced(s: Tables, run: seq<Timed>, pkce: Verifier, request: Id, write: bool) {
    exists i :: Asks(s, run, i, pkce, request) && (write ==> AsksToWrite(s, run, i, pkce, request))
  }

  /** An approval of a grant, and the request it decided. */
  ghost predicate WriteTraced(s: Tables, run: seq<Timed>, pkce: Verifier, grant: Id) {
    exists i, j :: i < j && AsksToWrite(s, run, i, pkce, DecidedBy(run, j)) && AllowsToWrite(s, run, j, pkce, grant)
  }

  ghost function DecidedBy(run: seq<Timed>, j: int): Id {
    if 0 <= j < |run| && run[j].event.Approve? then run[j].event.request else 0
  }

  lemma Extend(s: Tables, run: seq<Timed>, pkce: Verifier, i: nat)
    requires i < |run| - 1
    ensures Front(run)[i] == run[i] && OutcomeAt(s, Front(run), i, pkce) == OutcomeAt(s, run, i, pkce)
  {
    assert Front(run)[..i] == run[..i];
  }

  lemma AtTheEnd(s: Tables, run: seq<Timed>, pkce: Verifier)
    requires run != []
    ensures OutcomeAt(s, run, |run| - 1, pkce)
            == Step(After(s, Front(run), pkce), Last(run).event, Last(run).at, pkce).1
  {
    assert run[..|run| - 1] == Front(run);
  }

  lemma RequestTracedExtends(s: Tables, run: seq<Timed>, pkce: Verifier, request: Id, write: bool)
    requires run != [] && RequestTraced(s, Front(run), pkce, request, write)
    ensures RequestTraced(s, run, pkce, request, write)
  {
    var i :| Asks(s, Front(run), i, pkce, request) && (write ==> AsksToWrite(s, Front(run), i, pkce, request));
    Extend(s, run, pkce, i);
    assert Asks(s, run, i, pkce, request);
  }

  lemma NewRequestIsStarted(s: Tables, e: Event, now: int, pkce: Verifier, request: Id)
    ensures
      var (t, outcome) := Step(s, e, now, pkce);
      request in t.requests ==>
        (request in s.requests && t.requests[request] == s.requests[request])
        || (e.Start? && e.request == request && outcome == Done
          && (WRITE in t.requests[request].scope <==> WRITE in e.words))
  {
  }

  lemma {:induction false} RequestsAreTraced(active: set<Id>, run: seq<Timed>, pkce: Verifier)
    ensures RequestsTraced(Initial(active), run, pkce)
  {
    if run != [] {
      var s := Initial(active);
      RequestsAreTraced(active, Front(run), pkce);
      AtTheEnd(s, run, pkce);
      var t := After(s, run, pkce);
      forall r | r in t.requests ensures RequestTraced(s, run, pkce, r, WRITE in t.requests[r].scope) {
        NewRequestIsStarted(After(s, Front(run), pkce), Last(run).event, Last(run).at, pkce, r);
        if r in After(s, Front(run), pkce).requests && t.requests[r] == After(s, Front(run), pkce).requests[r] {
          RequestTracedExtends(s, run, pkce, r, WRITE in t.requests[r].scope);
        } else {
          assert Asks(s, run, |run| - 1, pkce, r);
        }
      }
    }
  }

  lemma WriteTracedExtends(s: Tables, run: seq<Timed>, pkce: Verifier, grant: Id)
    requires run != [] && WriteTraced(s, Front(run), pkce, grant)
    ensures WriteTraced(s, run, pkce, grant)
  {
    var i, j :| i < j && AsksToWrite(s, Front(run), i, pkce, DecidedBy(Front(run), j))
      && AllowsToWrite(s, Front(run), j, pkce, grant);
    Extend(s, run, pkce, i);
    Extend(s, run, pkce, j);
    assert DecidedBy(Front(run), j) == DecidedBy(run, j);
    assert AsksToWrite(s, run, i, pkce, DecidedBy(run, j)) && AllowsToWrite(s, run, j, pkce, grant);
  }

  lemma ApprovalDecides(s: Tables, e: Event, now: int, pkce: Verifier, grant: Id)
    requires e.Approve? && e.grant == grant && Step(s, e, now, pkce).1 == Approved(grant)
    ensures
      var t := Step(s, e, now, pkce).0;
      && grant in t.grants && e.request in s.requests && e.request !in t.requests
      && (WRITE in t.grants[grant].scope ==>
            e.allowChanges && e.dataLevel == "detailed" && WRITE in s.requests[e.request].scope)
  {
  }

  /** Every grant that may write traces back to a request that asked to and an approval that allowed it. */
  lemma {:induction false} WriteGrantsAreTraced(active: set<Id>, run: seq<Timed>, pkce: Verifier, grant: Id)
    requires grant in After(Initial(active), run, pkce).grants
    requires WRITE in After(Initial(active), run, pkce).grants[grant].scope
    ensures WriteTraced(Initial(active), run, pkce, grant)
  {
    var s := Initial(active);
    if run != [] {
      var before, last := After(s, Front(run), pkce), Last(run);
      if grant in before.grants {
        StepKeepsGrant(before, last.event, last.at, pkce, grant);
        WriteGrantsAreTraced(active, Front(run), pkce, grant);
        WriteTracedExtends(s, run, pkce, grant);
      } else {
        NewGrantIsApproved(before, last.event, last.at, pkce, grant);
        ApprovalDecides(before, last.event, last.at, pkce, grant);
        AtTheEnd(s, run, pkce);
        RequestsAreTraced(active, Front(run), pkce);
        var request := last.event.request;
        assert RequestTraced(s, Front(run), pkce, request, true);
        var i :| Asks(s, Front(run), i, pkce, request) && AsksToWrite(s, Front(run), i, pkce, request);
        Extend(s, run, pkce, i);
        assert DecidedBy(run, |run| - 1) == request;
        assert AsksToWrite(s, run, i, pkce, DecidedBy(run, |run| - 1)) && AllowsToWrite(s, run, |run| - 1, pkce, grant);
      }
    }
  }

  /** So does every token response and every verified access that may write; and what is issued is what was approved. */
  lemma WriteAccessIsTraced(
    active: set<Id>, run: seq<Timed>, pkce: Verifier, e: Event, now: int, token: Id, resource: string)
    ensures
      var s := After(Initial(active), run, pkce);
      var outcome, access := Step(s, e, now, pkce).1, Verified(s, token, resource, now);
      && (outcome.Issued? && WRITE in outcome.scope ==> WriteTraced(Initial(active), run, pkce, outcome.grant))
      && (access.Some? && WRITE in access.value.scopes ==> WriteTraced(Initial(active), run, pkce, access.value.grant))
  {
    var s := After(Initial(active), run, pkce);
    var outcome, access := Step(s, e, now, pkce).1, Verified(s, token, resource, now);
    if outcome.Issued? && WRITE in outcome.scope {
      IssuedWithTheGrantsScope(s, e, now, pkce);
      WriteGrantsAreTraced(active, run, pkce, outcome.grant);
    }
    if access.Some? && WRITE in access.value.scopes {
      WriteGrantsAreTraced(active, run, pkce, access.value.grant);
    }
  }

  /** One approval per grant. */
  lemma ApprovedOnce(s: Tables, run: seq<Timed>, pkce: Verifier, i: nat, j: nat, grant: Id)
    requires Approves(s, run, i, pkce, grant) && Approves(s, run, j, pkce, grant)
    ensures i == j
  {
    if i < j {
      ApprovalLasts(s, run, pkce, i, j, grant);
    } else if j < i {
      ApprovalLasts(s, run, pkce, j, i, grant);
    }
  }

  lemma ApprovalLasts(s: Tables, run: seq<Timed>, pkce: Verifier, i: nat, j: nat, grant: Id)
    requires i < j <= |run| && Approves(s, run, i, pkce, grant)
    ensures grant in After(s, run[..j], pkce).grants
  {
    assert Front(run[..i + 1]) == run[..i];
    assert grant in After(s, run[..i + 1], pkce).grants;
    GrantsLast(s, run, pkce, i + 1, j, grant);
  }

  lemma {:induction false} GrantsLast(s: Tables, run: seq<Timed>, pkce: Verifier, i: nat, j: nat, grant: Id)
    requires i <= j <= |run| && grant in After(s, run[..i], pkce).grants
    ensures grant in After(s, run[..j], pkce).grants
    decreases j
  {
    hide Step;
    if i < j {
      GrantsLast(s, run, pkce, i, j - 1, grant);
      assert Front(run[..j]) == run[..j - 1];
      StepKeepsGrant(After(s, run[..j - 1], pkce), run[j - 1].event, run[j - 1].at, pkce, grant);
    }
  }

  // ---- each request is decided once -------------------------------------------------------------------------------

  ghost predicate Decides(s: Tables, run: seq<Timed>, i: int, pkce: Verifier, request: Id) {
    0 <= i < |run|
    && ((run[i].event.Approve? && run[i].event.request == request && OutcomeAt(s, run, i, pkce).Approved?)
        || (run[i].event.Deny? && run[i].event.request == request && OutcomeAt(s, run, i, pkce) == Done))
  }

  /** However long the run, no request is approved or denied a second time. */
  lemma DecidedOnce(active: set<Id>, run: seq<Timed>, pkce: Verifier, i: nat, j: nat, request: Id)
    requires FreshRequests(run)
    requires Decides(Initial(active), run, i, pkce, request) && Decides(Initial(active), run, j, pkce, request)
    ensures i == j
  {
    if i < j {
      DecidedStaysGone(active, run, pkce, i, j, request);
    } else if j < i {
      DecidedStaysGone(active, run, pkce, j, i, request);
    }
  }

  /** A decided request was started before, and is gone afterwards. */
  lemma DecisionTakes(active: set<Id>, run: seq<Timed>, pkce: Verifier, i: nat, request: Id) returns (k: nat)
    requires Decides(Initial(active), run, i, pkce, request)
    ensures k < i && run[k].event.Start? && run[k].event.request == request
    ensures request !in After(Initial(active), run[..i + 1], pkce).requests
  {
    var s := Initial(active);
    assert Front(run[..i + 1]) == run[..i];
    RequestsAreTraced(active, run[..i], pkce);
    assert request in After(s, run[..i], pkce).requests;
    assert RequestTraced(s, run[..i], pkce, request, WRITE in After(s, run[..i], pkce).requests[request].scope);
    k :| Asks(s, run[..i], k, pkce, request);
  }

  lemma GoneStaysGone(s: Tables, run: seq<Timed>, pkce: Verifier, n: nat, request: Id)
    requires 0 < n <= |run| && request !in After(s, run[..n - 1], pkce).requests
    requires run[n - 1].event.Start? ==> run[n - 1].event.request != request
    ensures request !in After(s, run[..n], pkce).requests
  {
    assert Front(run[..n]) == run[..n - 1];
    NewRequestIsStarted(After(s, run[..n - 1], pkce), run[n - 1].event, run[n - 1].at, pkce, request);
  }

  lemma {:induction false} DecidedStaysGone(
    active: set<Id>, run: seq<Timed>, pkce: Verifier, i: nat, n: nat, request: Id)
    requires FreshRequests(run) && i < n <= |run| && Decides(Initial(active), run, i, pkce, request)
    ensures request !in After(Initial(active), run[..n], pkce).requests
    decreases n
  {
    var k := DecisionTakes(active, run, pkce, i, request);
    if n - 1 > i {
      DecidedStaysGone(active, run, pkce, i, n - 1, request);
      GoneStaysGone(Initial(active), run, pkce, n, request);
    }
  }
}
