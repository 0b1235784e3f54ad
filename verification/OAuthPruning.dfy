/**
 What pruning expired tokens changes: never the outcome of a transaction or what an access
 token verifies as, until a transaction presents a refresh token whose row has been
 deleted and would, had the row been kept, have revoked a grant that is not yet revoked.
 */
module OAuthPruning {
  import opened Wrappers
  import opened Sequences
  import opened OAuthTables
  import opened OAuthSafety
  import opened OAuthRuns
  import opened OAuthLifetimes

  /** Deleting a grant's long expired tokens changes no answer, at the time or at any later one. */
  lemma PruningNeverShows(s: Tables, grant: Id, now: int, token: Id, resource: string, later: int)
    requires now <= later
    ensures Verified(s.(tokens := Pruned(s.tokens, grant, now)), token, resource, later)
            == Verified(s, token, resource, later)
  {
  }

  // ---- a server that never prunes ---------------------------------------------------------------------------------

  /** The same transaction, with the rows it deletes from the token table kept. */
  function KeepingStep(s: Tables, e: Event, now: int, pkce: Verifier): (Tables, Outcome) {
    var (t, outcome) := Step(s, e, now, pkce);
    (t.(tokens := s.tokens + t.tokens), outcome)
  }

  function KeepingAfter(s: Tables, run: seq<Timed>, pkce: Verifier): Tables {
    if run == [] then s else KeepingStep(KeepingAfter(s, Front(run), pkce), Last(run).event, Last(run).at, pkce).0
  }

  /** A row that both hold; of a revoked grant, one may hold it as revoked and the other not. */
  ghost predicate RowShadows(grants: map<Id, Grant>, row: Token, kept: Token) {
    row == kept
    || (row.grant in grants && grants[row.grant].revoked.Some? && kept == row.(revoked := kept.revoked))
  }

  ghost predicate TokensShadow(grants: map<Id, Grant>, tokens: map<Id, Token>, kept: map<Id, Token>, now: int) {
    && (forall t | t in tokens :: t in kept && RowShadows(grants, tokens[t], kept[t]))
    && (forall t | t in kept && t !in tokens :: kept[t].expires < now - DAY)
  }

  /**
   The tables agree but for deleted tokens, all expired more than a day ago, and marks
   on tokens of revoked grants.
   */
  ghost predicate Shadows(s: Tables, kept: Tables, now: int) {
    s == kept.(tokens := s.tokens) && TokensShadow(s.grants, s.tokens, kept.tokens, now)
  }

  /** Only the server that never prunes still holds this refresh token, and its grant is not revoked. */
  predicate Deleted(s: Tables, kept: Tables, client: Id, token: Id) {
    && token in kept.tokens && token !in s.tokens && kept.tokens[token].kind == Refresh
    && kept.tokens[token].grant in s.grants
    && s.grants[kept.tokens[token].grant].client == client && s.grants[kept.tokens[token].grant].revoked.None?
  }

  /** The deleted row would have revoked a grant: presented again after use, or revoked, by its own client. */
  predicate MissesRevocation(s: Tables, kept: Tables, e: Event) {
    match e
    case Rotate(client, presented, _, words, _, _) =>
      presented.Some? && NormalizedScope(words).Some? && Deleted(s, kept, client, presented.value)
      && kept.tokens[presented.value].used.Some?
    case Revoke(client, token) => Deleted(s, kept, client, token)
    case _ => false
  }

  /** New secrets are unlike any other. */
  predicate FreshTokens(kept: Tables, e: Event) {
    match e
    case Exchange(_, _, _, _, access, refresh) => access !in kept.tokens && refresh !in kept.tokens && access != refresh
    case Rotate(_, _, _, _, access, refresh) => access !in kept.tokens && refresh !in kept.tokens && access != refresh
    case _ => true
  }

  // ---- statements -------------------------------------------------------------------------------------------------

  lemma ShadowsOnward(
    before: map<Id, Grant>, after: map<Id, Grant>, tokens: map<Id, Token>, kept: map<Id, Token>, now: int)
    requires TokensShadow(before, tokens, kept, now)
    requires forall g | g in before && before[g].revoked.Some? :: g in after && after[g].revoked.Some?
    ensures TokensShadow(after, tokens, kept, now)
  {
    forall t | t in tokens ensures RowShadows(after, tokens[t], kept[t]) {
      assert RowShadows(before, tokens[t], kept[t]);
    }
  }

  lemma IssuedShadow(
    grants: map<Id, Grant>, tokens: map<Id, Token>, kept: map<Id, Token>, grant: Id, access: Id, refresh: Id, now: int)
    requires TokensShadow(grants, tokens, kept, now) && access !in kept && refresh !in kept && access != refresh
    ensures
      var one, other := TokensIssued(tokens, grant, access, refresh, now),
        TokensIssued(kept, grant, access, refresh, now);
      one.Ok? && other.Ok? && TokensShadow(grants, one.value, kept + other.value, now)
  {
    var one, other := TokensIssued(tokens, grant, access, refresh, now),
      TokensIssued(kept, grant, access, refresh, now);
    var all := kept + other.value;
    forall t | t in one.value ensures t in all && RowShadows(grants, one.value[t], all[t]) {
      if t != access && t != refresh { assert RowShadows(grants, tokens[t], kept[t]); }
    }
  }

  lemma RevokedRowsShadow(
    before: map<Id, Grant>, after: map<Id, Grant>, tokens: map<Id, Token>, kept: map<Id, Token>, grant: Id, now: int,
    both: bool)
    requires TokensShadow(before, tokens, kept, now) && grant in after && after[grant].revoked.Some?
    requires forall g | g in before && before[g].revoked.Some? :: g in after && after[g].revoked.Some?
    ensures TokensShadow(after, if both then TokensRevoked(tokens, grant, now)
            else tokens, TokensRevoked(kept, grant, now), now)
  {
    forall t | t in tokens ensures RowShadows(before, tokens[t], kept[t]) {}
  }

  lemma GrantRevokedShadows(s: Tables, kept: Tables, grant: Id, now: int)
    requires Shadows(s, kept, now) && grant in s.grants
    ensures
      var t, u := GrantRevoked(s, grant, now), GrantRevoked(kept, grant, now);
      Shadows(t, u, now) && kept.tokens + u.tokens == u.tokens
  {
    RevokedRowsShadow(s.grants, GrantRevoked(s, grant, now).grants, s.tokens, kept.tokens, grant, now, true);
  }

  /** Only the server that never prunes revokes a grant that both hold as revoked. */
  lemma RevokedAgainShadows(s: Tables, kept: Tables, grant: Id, now: int)
    requires Shadows(s, kept, now) && Revoked(s, grant)
    ensures
      var u := GrantRevoked(kept, grant, now);
      Shadows(s, u, now) && kept.tokens + u.tokens == u.tokens
  {
    RevokedRowsShadow(s.grants, s.grants, s.tokens, kept.tokens, grant, now, false);
    assert GrantRevoked(kept, grant, now).grants == kept.grants;
  }

  lemma SameTokens(kept: Tables)
    ensures kept.(tokens := kept.tokens + kept.tokens) == kept
  {
    assert kept.tokens + kept.tokens == kept.tokens;
  }

  // ---- transactions -----------------------------------------------------------------------------------------------

  /** What is to be shown of a transaction on both servers. */
  ghost predicate Agrees(s: Tables, kept: Tables, e: Event, now: int, pkce: Verifier) {
    var (t, outcome) := Step(s, e, now, pkce);
    var (u, other) := KeepingStep(kept, e, now, pkce);
    && outcome == other
    && (if MissesRevocation(s, kept, e) then t.grants != u.grants else Shadows(t, u, now))
  }

  lemma ExchangeAgrees(s: Tables, kept: Tables, e: Event, now: int, pkce: Verifier)
    requires Shadows(s, kept, now) && FreshTokens(kept, e) && e.Exchange?
    ensures Agrees(s, kept, e, now, pkce)
  {
    hide TokensIssued, GrantRevoked, TokensShadow, Refreshed, ApprovedBy, Started, TokenRevoked, AppRevoked,
      ClientsForgotten, Denied;
    SameTokens(kept);
    if e.presented.None? || e.presented.value !in s.codes || s.codes[e.presented.value].grant !in s.grants { return; }
    var row := s.codes[e.presented.value];
    if row.used.Some? {
      GrantRevokedShadows(s, kept, row.grant, now);
    } else {
      IssuedShadow(s.grants, s.tokens, kept.tokens, row.grant, e.access, e.refresh, now);
    }
  }

  lemma MarkedRowIsRestored(
    tokens: map<Id, Token>, token: Id, marked: Token, grant: Id, access: Id, refresh: Id, now: int)
    requires token in tokens && marked.expires > now
    ensures
      var issued := TokensIssued(tokens[token := marked], grant, access, refresh, now);
      issued.Ok? ==> tokens[token := marked] + issued.value == tokens + issued.value
  {
    var issued := TokensIssued(tokens[token := marked], grant, access, refresh, now);
    if issued.Ok? { assert token in issued.value; }
  }

  lemma RotationShadows(s: Tables, kept: Tables, token: Id, access: Id, refresh: Id, now: int)
    requires Shadows(s, kept, now) && token in s.tokens && s.tokens[token].expires > now
             && kept.tokens[token] == s.tokens[token]
    requires access !in kept.tokens && refresh !in kept.tokens && access != refresh
    ensures
      var marked := s.tokens[token].(used := Some(now));
      var one := TokensIssued(s.tokens[token := marked], marked.grant, access, refresh, now);
      var other := TokensIssued(kept.tokens[token := marked], marked.grant, access, refresh, now);
      one.Ok? && other.Ok? && Shadows(s.(tokens := one.value), kept.(tokens := kept.tokens + other.value), now)
  {
    var marked := s.tokens[token].(used := Some(now));
    assert TokensShadow(s.grants, s.tokens[token := marked], kept.tokens[token := marked], now);
    IssuedShadow(s.grants, s.tokens[token := marked], kept.tokens[token := marked], marked.grant, access, refresh, now);
    MarkedRowIsRestored(kept.tokens, token, marked, marked.grant, access, refresh, now);
  }

  /** The presented token is stored, with its grant. */
  predicate PresentsStored(s: Tables, e: Event) {
    e.Rotate? && e.presented.Some? && e.presented.value in s.tokens && s.tokens[e.presented.value].grant in s.grants
  }

  lemma StoredRowShadows(s: Tables, kept: Tables, now: int, token: Id)
    requires Shadows(s, kept, now) && token in s.tokens
    ensures token in kept.tokens && RowShadows(s.grants, s.tokens[token], kept.tokens[token])
  {
  }

  lemma ReuseAgrees(s: Tables, kept: Tables, e: Event, now: int, pkce: Verifier)
    requires Shadows(s, kept, now) && PresentsStored(s, e) && Step(s, e, now, pkce).1.Failed?
    requires s.grants[s.tokens[e.presented.value].grant].revoked.None? && s.tokens[e.presented.value].used.Some?
    ensures Agrees(s, kept, e, now, pkce)
  {
    hide TokensIssued, TokensRevoked, Exchanged, ApprovedBy, Started, TokenRevoked, AppRevoked, ClientsForgotten,
      Denied, GrantRevoked, TokensShadow;
    StoredRowShadows(s, kept, now, e.presented.value);
    SameTokens(kept);
    GrantRevokedShadows(s, kept, s.tokens[e.presented.value].grant, now);
  }

  lemma RotationAgrees(s: Tables, kept: Tables, e: Event, now: int, pkce: Verifier)
    requires Shadows(s, kept, now) && PresentsStored(s, e) && FreshTokens(kept, e) && Step(s, e, now, pkce).1.Issued?
    ensures Agrees(s, kept, e, now, pkce)
  {
    hide TokensIssued, TokensRevoked;
    assert RowShadows(s.grants, s.tokens[e.presented.value], kept.tokens[e.presented.value]);
    RotationShadows(s, kept, e.presented.value, e.access, e.refresh, now);
  }

  lemma RefusalAgrees(s: Tables, kept: Tables, e: Event, now: int, pkce: Verifier)
    requires Shadows(s, kept, now) && PresentsStored(s, e) && FreshTokens(kept, e) && Step(s, e, now, pkce).1.Failed?
    requires s.grants[s.tokens[e.presented.value].grant].revoked.Some? || s.tokens[e.presented.value].used.None?
    ensures Agrees(s, kept, e, now, pkce)
  {
    hide TokensIssued, TokensRevoked, GrantRevoked, Exchanged, ApprovedBy, Started, TokenRevoked, AppRevoked,
      ClientsForgotten, Denied;
    var row := s.tokens[e.presented.value];
    assert RowShadows(s.grants, row, kept.tokens[e.presented.value]);
    SameTokens(kept);
    if row.expires > now && s.grants[row.grant].revoked.None? {
      RotationShadows(s, kept, e.presented.value, e.access, e.refresh, now);
    }
  }

  lemma RotateAgrees(s: Tables, kept: Tables, e: Event, now: int, pkce: Verifier)
    requires Shadows(s, kept, now) && FreshTokens(kept, e) && e.Rotate?
    ensures Agrees(s, kept, e, now, pkce)
  {
    SameTokens(kept);
    if e.presented.Some? && e.presented.value in s.tokens {
      assert RowShadows(s.grants, s.tokens[e.presented.value], kept.tokens[e.presented.value]);
      if s.tokens[e.presented.value].grant in s.grants {
        var row := s.tokens[e.presented.value];
        if Step(s, e, now, pkce).1.Issued? {
          RotationAgrees(s, kept, e, now, pkce);
        } else if row.used.Some? && s.grants[row.grant].revoked.None? {
          ReuseAgrees(s, kept, e, now, pkce);
        } else {
          RefusalAgrees(s, kept, e, now, pkce);
        }
      }
    } else {
      assert Step(s, e, now, pkce).0 == s;
      assert !MissesRevocation(s, kept, e) ==> Step(kept, e, now, pkce).0 == kept;
    }
  }

  lemma RevokeAgrees(s: Tables, kept: Tables, e: Event, now: int, pkce: Verifier)
    requires Shadows(s, kept, now) && e.Revoke?
    ensures Agrees(s, kept, e, now, pkce)
  {
    SameTokens(kept);
    if e.token !in kept.tokens || kept.tokens[e.token].grant !in s.grants
       || s.grants[kept.tokens[e.token].grant].client != e.client {
      assert Step(kept, e, now, pkce).0 == kept;
      assert e.token in s.tokens ==> RowShadows(s.grants, s.tokens[e.token], kept.tokens[e.token]);
      return;
    }
    var row := kept.tokens[e.token];
    if row.kind == Access {
      AccessRevocationAgrees(s, kept, e, now, pkce);
    } else if e.token in s.tokens {
      assert RowShadows(s.grants, s.tokens[e.token], row);
      GrantRevokedShadows(s, kept, row.grant, now);
    } else if s.grants[row.grant].revoked.Some? {
      RevokedAgainShadows(s, kept, row.grant, now);
    }
  }

  function AccessRevoked(tokens: map<Id, Token>, token: Id, now: int): map<Id, Token> {
    if token in tokens then tokens[token := tokens[token].(revoked := OrElse(tokens[token].revoked, now))] else tokens
  }

  lemma AccessRevokedShadows(grants: map<Id, Grant>, tokens: map<Id, Token>, kept: map<Id, Token>, token: Id, now: int)
    requires TokensShadow(grants, tokens, kept, now)
    ensures TokensShadow(grants, AccessRevoked(tokens, token, now), AccessRevoked(kept, token, now), now)
    ensures kept + AccessRevoked(kept, token, now) == AccessRevoked(kept, token, now)
  {
    var after, all := AccessRevoked(tokens, token, now), AccessRevoked(kept, token, now);
    forall x | x in after ensures x in all && RowShadows(grants, after[x], all[x]) {
      assert RowShadows(grants, tokens[x], kept[x]);
    }
  }

  lemma AccessRevocationAgrees(s: Tables, kept: Tables, e: Event, now: int, pkce: Verifier)
    requires Shadows(s, kept, now) && e.Revoke? && e.token in kept.tokens && kept.tokens[e.token].kind == Access
    requires kept.tokens[e.token].grant in s.grants && s.grants[kept.tokens[e.token].grant].client == e.client
    ensures Agrees(s, kept, e, now, pkce)
  {
    hide TokensShadow, GrantRevoked;
    if e.token in s.tokens { StoredRowShadows(s, kept, now, e.token); }
    AccessRevokedShadows(s.grants, s.tokens, kept.tokens, e.token, now);
  }

  /**
   The two servers give a transaction the same outcome.  Afterwards they hold the same
   grants, and shadow each other again, exactly when it misses no revocation.
   */
  lemma StepAgrees(s: Tables, kept: Tables, e: Event, now: int, pkce: Verifier)
    requires Shadows(s, kept, now) && FreshTokens(kept, e)
    ensures Agrees(s, kept, e, now, pkce)
    ensures Step(s, e, now, pkce).0.grants == KeepingStep(kept, e, now, pkce).0.grants
            <==> !MissesRevocation(s, kept, e)
  {
    hide Step, MissesRevocation, FreshTokens;
    match e
    case Exchange(_, _, _, _, _, _) => ExchangeAgrees(s, kept, e, now, pkce);
    case Rotate(_, _, _, _, _, _) => RotateAgrees(s, kept, e, now, pkce);
    case Revoke(_, _) => RevokeAgrees(s, kept, e, now, pkce);
    case RevokeApp(_, _) => RevokeAppAgrees(s, kept, e, now, pkce);
    case Approve(_, _, _, _, _, _) => ApproveAgrees(s, kept, e, now, pkce);
    case _ => OtherAgrees(s, kept, e, now, pkce);
  }

  lemma RevokeAppAgrees(s: Tables, kept: Tables, e: Event, now: int, pkce: Verifier)
    requires Shadows(s, kept, now) && e.RevokeApp?
    ensures Agrees(s, kept, e, now, pkce)
  {
    SameTokens(kept);
    if e.grant in s.grants { GrantRevokedShadows(s, kept, e.grant, now); }
  }

  lemma ApproveAgrees(s: Tables, kept: Tables, e: Event, now: int, pkce: Verifier)
    requires Shadows(s, kept, now) && e.Approve?
    ensures Agrees(s, kept, e, now, pkce)
  {
    hide Replaced, Exchanged, Refreshed, Started, TokenRevoked, AppRevoked, ClientsForgotten, Denied, RowShadows;
    SameTokens(kept);
    forall g | g in s.grants && s.grants[g].revoked.Some?
      ensures g in Step(s, e, now, pkce).0.grants && Step(s, e, now, pkce).0.grants[g].revoked.Some?
    {
      StepKeepsGrant(s, e, now, pkce, g);
    }
    ShadowsOnward(s.grants, Step(s, e, now, pkce).0.grants, s.tokens, kept.tokens, now);
  }

  /** Transactions that leave grants and tokens alone. */
  lemma OtherAgrees(s: Tables, kept: Tables, e: Event, now: int, pkce: Verifier)
    requires Shadows(s, kept, now) && (e.Start? || e.Deny? || e.Activate? || e.Disable? || e.ForgetClients?)
    ensures Agrees(s, kept, e, now, pkce)
  {
    hide RowShadows;
    SameTokens(kept);
  }

  // ---- runs -------------------------------------------------------------------------------------------------------

  /** The clock does not go back and secrets are fresh. */
  ghost predicate Ordinary(s: Tables, run: seq<Timed>, pkce: Verifier) {
    && (forall i, j | 0 <= i < j < |run| :: run[i].at <= run[j].at)
    && (forall i | 0 <= i < |run| :: FreshTokens(KeepingAfter(s, run[..i], pkce), run[i].event))
  }

  ghost predicate MissesAt(s: Tables, run: seq<Timed>, pkce: Verifier, i: nat)
    requires i < |run|
  {
    MissesRevocation(After(s, run[..i], pkce), KeepingAfter(s, run[..i], pkce), run[i].event)
  }

  /** No transaction of a run misses a revocation. */
  ghost predicate NoneMissed(s: Tables, run: seq<Timed>, pkce: Verifier) {
    forall i: nat | i < |run| :: !MissesAt(s, run, pkce, i)
  }

  /** After every transaction of a run the two servers hold the same grants. */
  ghost predicate SameGrants(s: Tables, run: seq<Timed>, pkce: Verifier) {
    forall i: nat | i <= |run| :: GrantsAgreeAt(s, run, pkce, i)
  }

  ghost predicate GrantsAgreeAt(s: Tables, run: seq<Timed>, pkce: Verifier, i: nat)
    requires i <= |run|
  {
    After(s, run[..i], pkce).grants == KeepingAfter(s, run[..i], pkce).grants
  }

  lemma OrdinaryFront(s: Tables, run: seq<Timed>, pkce: Verifier)
    requires run != [] && Ordinary(s, run, pkce)
    ensures Ordinary(s, Front(run), pkce) && FreshTokens(KeepingAfter(s, Front(run), pkce), Last(run).event)
  {
    hide Step, KeepingStep, FreshTokens;
    assert run[..|run| - 1] == Front(run);
    forall i | 0 <= i < |run| - 1 ensures Front(run)[..i] == run[..i] && Front(run)[i] == run[i] {}
  }

  lemma MissedFront(s: Tables, run: seq<Timed>, pkce: Verifier)
    requires run != []
    ensures NoneMissed(s, run, pkce)
       <==> NoneMissed(s, Front(run), pkce)
            && !MissesRevocation(After(s, Front(run), pkce), KeepingAfter(s, Front(run), pkce), Last(run).event)
  {
    hide After, KeepingAfter, MissesRevocation;
    var front, n := Front(run), |run| - 1;
    assert run[..n] == front;
    forall i: nat | i < n ensures MissesAt(s, front, pkce, i) == MissesAt(s, run, pkce, i) {
      assert front[..i] == run[..i] && front[i] == run[i];
    }
    assert NoneMissed(s, run, pkce) ==> !MissesAt(s, run, pkce, n);
  }

  lemma GrantsFront(s: Tables, run: seq<Timed>, pkce: Verifier)
    requires run != []
    ensures SameGrants(s, run, pkce)
       <==> SameGrants(s, Front(run), pkce) && After(s, run, pkce).grants == KeepingAfter(s, run, pkce).grants
  {
    hide After, KeepingAfter;
    var front, n := Front(run), |run| - 1;
    assert run[..|run|] == run;
    forall i: nat | i <= n ensures GrantsAgreeAt(s, front, pkce, i) == GrantsAgreeAt(s, run, pkce, i) {
      assert front[..i] == run[..i];
    }
    assert SameGrants(s, run, pkce) ==> GrantsAgreeAt(s, run, pkce, |run|);
  }

  lemma ShadowsLater(s: Tables, kept: Tables, now: int, later: int)
    requires Shadows(s, kept, now) && now <= later
    ensures Shadows(s, kept, later)
  {
  }

  lemma {:induction false} RunShadows(s: Tables, run: seq<Timed>, pkce: Verifier, now: int)
    requires Ordinary(s, run, pkce) && (run != [] ==> Last(run).at <= now)
    ensures NoneMissed(s, run, pkce) ==> Shadows(After(s, run, pkce), KeepingAfter(s, run, pkce), now)
    ensures NoneMissed(s, run, pkce) <==> SameGrants(s, run, pkce)
    decreases |run|
  {
    if run == [] {
      assert GrantsAgreeAt(s, run, pkce, 0);
    } else {
      OrdinaryFront(s, run, pkce);
      MissedFront(s, run, pkce);
      GrantsFront(s, run, pkce);
      RunShadows(s, Front(run), pkce, Last(run).at);
      if NoneMissed(s, Front(run), pkce) {
        var before, kept := After(s, Front(run), pkce), KeepingAfter(s, Front(run), pkce);
        StepAgrees(before, kept, Last(run).event, Last(run).at, pkce);
        if NoneMissed(s, run, pkce) {
          ShadowsLater(After(s, run, pkce), KeepingAfter(s, run, pkce), Last(run).at, now);
        }
      }
    }
  }

  /**
   Over every ordinary run the server that prunes holds the grants of one that never does
   exactly when no transaction misses a revocation.
   */
  lemma PruningShowsExactlyWhen(s: Tables, run: seq<Timed>, pkce: Verifier)
    requires Ordinary(s, run, pkce)
    ensures SameGrants(s, run, pkce) <==> NoneMissed(s, run, pkce)
  {
    RunShadows(s, run, pkce, if run == [] then 0 else Last(run).at);
  }

  /** And until one does, every transaction has the same outcome and every access token the same answer. */
  lemma PruningIsInvisible(s: Tables, run: seq<Timed>, pkce: Verifier, e: Event, now: int, token: Id, resource: string)
    requires Ordinary(s, run + [Timed(e, now)], pkce) && NoneMissed(s, run, pkce)
    ensures
      var t, kept := After(s, run, pkce), KeepingAfter(s, run, pkce);
      Step(t, e, now, pkce).1 == KeepingStep(kept, e, now, pkce).1
        && Verified(t, token, resource, now) == Verified(kept, token, resource, now)
  {
    var more := run + [Timed(e, now)];
    assert Front(more) == run && Last(more) == Timed(e, now);
    OrdinaryFront(s, more, pkce);
    assert run != [] ==> Last(run) == more[|run| - 1];
    RunShadows(s, run, pkce, now);
    StepAgrees(After(s, run, pkce), KeepingAfter(s, run, pkce), e, now, pkce);
    ShadowsVerify(After(s, run, pkce), KeepingAfter(s, run, pkce), now, token, resource);
  }

  lemma ShadowsVerify(s: Tables, kept: Tables, now: int, token: Id, resource: string)
    requires Shadows(s, kept, now)
    ensures Verified(s, token, resource, now) == Verified(kept, token, resource, now)
  {
    if token in s.tokens { assert RowShadows(s.grants, s.tokens[token], kept.tokens[token]); }
  }

  // ---- what pruning loses -----------------------------------------------------------------------------------------

  /**
   A used refresh token whose row another refresh of its grant has pruned is no longer
   recognised: presenting it changes nothing and the grant's access token still verifies,
   where a server that still held the row would have ended the grant.
   */
  lemma PrunedReuseGoesUnnoticed(
    s: Tables, stale: Id, e: Event, now: int, pkce: Verifier, replay: Event, later: int)
    requires Prunes(s, stale, e, now, pkce) && s.tokens[stale].used.Some?
    requires replay.Rotate? && replay.presented == Some(stale) && NormalizedScope(replay.words).Some?
    requires replay.client == s.grants[s.tokens[stale].grant].client
    ensures
      var t := Step(s, e, now, pkce).0;
      var grant := s.tokens[stale].grant;
      var ended := KeepingStep(KeepingStep(s, e, now, pkce).0, replay, later, pkce).0;
      && Step(t, replay, later, pkce) == (t, Failed(InvalidGrant)) && !Revoked(t, grant) && Revoked(ended, grant)
      && (later < now + HOUR ==>
            Verified(t, e.access, t.grants[grant].resource, later).Some?
            && Verified(ended, e.access, t.grants[grant].resource, later).None?)
  {
    StaleRowIsGone(s, stale, e, now, pkce);
    IssuedAccessVerifies(s, e, now, pkce, [], later);
  }

  /** Revoking with such a token, used or not, is answered as done and ends nothing. */
  lemma PrunedRevocationIsIgnored(
    s: Tables, stale: Id, e: Event, now: int, pkce: Verifier, revoke: Event, later: int)
    requires Prunes(s, stale, e, now, pkce)
    requires revoke == Revoke(s.grants[s.tokens[stale].grant].client, stale)
    ensures
      var t := Step(s, e, now, pkce).0;
      var grant := s.tokens[stale].grant;
      var ended := KeepingStep(KeepingStep(s, e, now, pkce).0, revoke, later, pkce).0;
      && Step(t, revoke, later, pkce) == (t, Done) && !Revoked(t, grant) && Revoked(ended, grant)
      && (later < now + HOUR ==>
            Verified(t, e.access, t.grants[grant].resource, later).Some?
            && Verified(ended, e.access, t.grants[grant].resource, later).None?)
  {
    StaleRowIsGone(s, stale, e, now, pkce);
    IssuedAccessVerifies(s, e, now, pkce, [], later);
  }

  /** A rotation of another refresh token of the same grant, more than a day after this one expired. */
  predicate Prunes(s: Tables, stale: Id, e: Event, now: int, pkce: Verifier) {
    && stale in s.tokens && s.tokens[stale].grant in s.grants && s.tokens[stale].kind == Refresh
    && s.tokens[stale].expires < now - DAY
    && e.Rotate? && Step(s, e, now, pkce).1.Issued? && Step(s, e, now, pkce).1.grant == s.tokens[stale].grant
    && e.access != stale && e.refresh != stale
  }

  lemma StaleRowIsGone(s: Tables, stale: Id, e: Event, now: int, pkce: Verifier)
    requires Prunes(s, stale, e, now, pkce)
    ensures
      var t, kept := Step(s, e, now, pkce).0, KeepingStep(s, e, now, pkce).0;
      && stale !in t.tokens && t.grants == s.grants == kept.grants && s.grants[s.tokens[stale].grant].revoked.None?
      && stale in kept.tokens && kept.tokens[stale] == s.tokens[stale]
  {
  }
}
