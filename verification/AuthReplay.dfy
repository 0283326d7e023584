/** Replays and retries: what happens to a call that presents a token whose row was revoked,
    under any interference, and exactly when the replay is contained or the retry served. */
module AuthReplay {
  import opened Options
  import opened Sessions
  import opened AuthProtocol
  import opened AuthInvariant
  import opened AuthSteps
  import opened AuthTheorems
  import opened AuthCalls

  // ----- One call under interference -----

  /** Client `c` starts a Refresh in `s`; `before` is whatever runs, its own cleanup included,
      until it is about to look its token up. */
  ghost predicate ReachesLookup(s: State, c: nat, token: Token, before: seq<Step>) {
    && Reachable(s) && CallOf(s, c).Idle? && Presentable(s, token)
    && Legal(Do(s, BeginRefresh(c, token)), before)
    && CallOf(AtLookup(s, c, token, before), c) == Finding(token, s.clock)
  }

  ghost function AtLookup(s: State, c: nat, token: Token, before: seq<Step>): State
    requires CallOf(s, c).Idle? && Presentable(s, token) && Legal(Do(s, BeginRefresh(c, token)), before)
  {
    Exec(Do(s, BeginRefresh(c, token)), before)
  }

  /** After its lookup in `u`, other clients run `others` before its next statement. */
  ghost predicate Continues(u: State, c: nat, others: seq<Step>) {
    CallOf(u, c).Finding? && Legal(Do(u, FindSession(c)), others) && ByOthers(others, c)
  }

  ghost function Continued(u: State, c: nat, others: seq<Step>): State
    requires Continues(u, c, others)
  {
    Exec(Do(u, FindSession(c)), others)
  }

  /** What the lookup made of the row stands until the call's next statement. */
  lemma ContinuedCall(u: State, c: nat, others: seq<Step>)
    requires Reachable(u) && Continues(u, c, others)
    ensures Reachable(Continued(u, c, others))
    ensures var call := CallOf(u, c);
            CallOf(Continued(u, c, others), c)
            == if HashOf(call.token) in u.rows then Classify(call.token, call.now, u.rows[HashOf(call.token)])
                else Idle(None)
  {
    var call := CallOf(u, c);
    FindEffect(u, c, call.token, call.now);
    ReachableStep(u, FindSession(c));
    RunStaysReachable(Do(u, FindSession(c)), others);
    OthersKeepCall(Do(u, FindSession(c)), others, c);
  }

  lemma LookupIsReachable(s: State, c: nat, token: Token, before: seq<Step>)
    requires ReachesLookup(s, c, token, before)
    ensures Reachable(AtLookup(s, c, token, before))
  {
    ReachableStep(s, BeginRefresh(c, token));
    RunStaysReachable(Do(s, BeginRefresh(c, token)), before);
  }

  /** What became of a stored row by the time the call looks it up. */
  lemma RowAtLookup(s: State, c: nat, token: Token, before: seq<Step>, h: Hash)
    requires ReachesLookup(s, c, token, before) && h in s.rows
    ensures var u := AtLookup(s, c, token, before);
            && s.rows[h].family in u.chains
            && (h in u.rows ==> RowEvolves(s.rows[h], u.rows[h]))
  {
    var s1 := Do(s, BeginRefresh(c, token));
    ReachableInv(s);
    RowHasLink(s, h);
    StepKeeps(s, BeginRefresh(c, token));
    RunKeeps(s1, before);
    RunEvolves(s1, before, h);
  }

  // ----- Replay -----

  /** A revoked row no grace window covers at `at`. */
  predicate IsReplay(row: Row, at: int) {
    row.revokedAt.Some? && !Servable(row, at)
  }

  lemma StaysReplay(a: Row, b: Row, at: int)
    requires IsReplay(a, at) && RowEvolves(a, b)
    ensures IsReplay(b, at) && b.family == a.family
  {}

  /** The end of a call whose lookup in `u` found a replay or nothing. */
  ghost function ReplayEnd(u: State, c: nat, others: seq<Step>): State
    requires Continues(u, c, others)
  {
    var w := Continued(u, c, others);
    if CallOf(w, c).RevokingReplay? then Do(w, RevokeReplay(c)) else Do(u, FindSession(c))
  }

  /** A family revocation touches only its family. */
  lemma RevocationAlone(w: State, c: nat)
    requires CallOf(w, c).RevokingReplay?
    ensures var t, f := Do(w, RevokeReplay(c)), CallOf(w, c).row.family;
            && t.rows.Keys == w.rows.Keys && (forall g | g in w.rows && w.rows[g].family != f :: t.rows[g] == w.rows[g])
            && CallOf(t, c) == Idle(None) && t.redeemed == w.redeemed
  {}

  /** Containment as seen from the lookup: with any steps of others between the lookup and
      the revocation, the family ends dead if and only if the row was still stored, or what
      was stored of the family was already unusable. */
  lemma ContainedIff(u: State, c: nat, others: seq<Step>, f: nat)
    requires Reachable(u) && Continues(u, c, others) && f in u.chains
    requires var h := HashOf(CallOf(u, c).token);
             h in u.rows ==> IsReplay(u.rows[h], Unix(CallOf(u, c).now)) && u.rows[h].family == f
    ensures Dead(ReplayEnd(u, c, others), f) <==> HashOf(CallOf(u, c).token) in u.rows || Unusable(u.rows, f)
    ensures HashOf(CallOf(u, c).token) !in u.rows ==> ReplayEnd(u, c, others).rows == u.rows
    ensures CallOf(ReplayEnd(u, c, others), c) == Idle(None)
  {
    ContinuedCall(u, c, others);
    FindEffect(u, c, CallOf(u, c).token, CallOf(u, c).now);
    if HashOf(CallOf(u, c).token) in u.rows {
      ReplayRevocationKills(Continued(u, c, others), c);
      RevocationAlone(Continued(u, c, others), c);
    }
  }

  /** Replay containment, under any interference and exactly. A revoked token that no grace
      window covers is presented; whatever other clients do before and after its lookup, the
      family ends dead if and only if the row is still stored at the lookup, or what is then
      stored of the family is unusable anyway. If the row is gone, nothing is revoked. */
  lemma ReplayContainment(s: State, c: nat, token: Token, before: seq<Step>, others: seq<Step>)
    requires ReachesLookup(s, c, token, before) && Continues(AtLookup(s, c, token, before), c, others)
    requires HashOf(token) in s.rows && IsReplay(s.rows[HashOf(token)], Unix(s.clock))
    ensures var u, f := AtLookup(s, c, token, before), s.rows[HashOf(token)].family;
            var end := ReplayEnd(u, c, others);
            && (Dead(end, f) <==> HashOf(token) in u.rows || Unusable(u.rows, f))
            && (HashOf(token) !in u.rows ==> end.rows == u.rows)
            && CallOf(end, c) == Idle(None)
  {
    var u := AtLookup(s, c, token, before);
    LookupIsReachable(s, c, token, before);
    RowAtLookup(s, c, token, before, HashOf(token));
    if HashOf(token) in u.rows { StaysReplay(s.rows[HashOf(token)], u.rows[HashOf(token)], Unix(s.clock)); }
    ContainedIff(u, c, others, s.rows[HashOf(token)].family);
  }

  /** And its revocation touches nothing else: between the lookup and the end of the call the
      rows of other families change only by what others do. */
  lemma ReplayTouchesFamilyOnly(s: State, c: nat, token: Token, before: seq<Step>, others: seq<Step>)
    requires ReachesLookup(s, c, token, before) && Continues(AtLookup(s, c, token, before), c, others)
    requires HashOf(token) in AtLookup(s, c, token, before).rows
    requires HashOf(token) in s.rows && IsReplay(s.rows[HashOf(token)], Unix(s.clock))
    ensures var u, f := AtLookup(s, c, token, before), s.rows[HashOf(token)].family;
            var w, end := Continued(u, c, others), ReplayEnd(u, c, others);
            && end.rows.Keys == w.rows.Keys && end.redeemed == w.redeemed
            && (forall g | g in w.rows && w.rows[g].family != f :: end.rows[g] == w.rows[g])
  {
    var u := AtLookup(s, c, token, before);
    LookupIsReachable(s, c, token, before);
    RowAtLookup(s, c, token, before, HashOf(token));
    StaysReplay(s.rows[HashOf(token)], u.rows[HashOf(token)], Unix(s.clock));
    ContinuedCall(u, c, others);
    RevocationAlone(Continued(u, c, others), c);
  }

  /** The rest of an uninterrupted call. */
  ghost function AfterReplay(s: State, c: nat, token: Token, cleaned: bool): State
    requires CallOf(s, c).Idle? && Presentable(s, token)
  {
    var t := AfterLookup(s, c, token, cleaned);
    if CallOf(t, c).RevokingReplay? then Do(t, RevokeReplay(c)) else t
  }

  /** Rows that have not expired, outside the family, are unchanged, and no row was added. */
  ghost predicate OthersKept(s: State, t: State, f: nat) {
    && t.rows.Keys <= s.rows.Keys
    && (forall g | g in s.rows && s.rows[g].family != f && s.rows[g].expiresAt > Unix(s.clock) ::
          g in t.rows && t.rows[g] == s.rows[g])
  }

  /** A call with nothing in between, judged on the state it starts from: its family dies
      exactly unless the row had expired, the call's own cleanup succeeds, and the family has
      an unexpired row that is usable. */
  lemma ReplayAlone(s: State, c: nat, token: Token, cleaned: bool)
    requires Reachable(s) && CallOf(s, c).Idle? && Presentable(s, token)
    requires HashOf(token) in s.rows && IsReplay(s.rows[HashOf(token)], Unix(s.clock))
    ensures var t, h := AfterReplay(s, c, token, cleaned), HashOf(token); var f := s.rows[h].family;
            && (Dead(t, f) <==>
                  || !cleaned || s.rows[h].expiresAt > Unix(s.clock)
                  || (forall g | g in s.rows && s.rows[g].family == f && s.rows[g].expiresAt > Unix(s.clock) ::
                        s.rows[g].revokedAt.Some? && s.rows[g].graceUntil.None?))
            && OthersKept(s, t, f) && CallOf(t, c) == Idle(None) && t.redeemed == s.redeemed
  {
    var u := AfterLookup(s, c, token, cleaned);
    LookupEffect(s, c, token, cleaned);
    LookupReachable(s, c, token, cleaned);
    HasChain(s, HashOf(token));
    if Survives(s, HashOf(token), cleaned) {
      ReplayRevocationKills(u, c);
      RevocationAlone(u, c);
    } else {
      UnusableAfterCleanup(s.rows, s.rows[HashOf(token)].family, Unix(s.clock));
    }
  }

  lemma UnusableAfterCleanup(rows: Table, f: nat, now: int)
    ensures Unusable(DeleteExpired(rows, now), f) <==>
              forall g | g in rows && rows[g].family == f && rows[g].expiresAt > now :: rows[g].revokedAt.Some?
                  && rows[g].graceUntil.None?
  {
    var kept := DeleteExpired(rows, now);
    assert forall g | g in kept :: g in rows && kept[g] == rows[g];
    assert forall g | g in rows && rows[g].expiresAt > now :: g in kept;
  }

  // ----- Retry -----

  /** What the call returns if its next statement is the one that serves the grace window. */
  ghost function GraceAnswer(w: State, c: nat, opens: bool): Option<Redemption> {
    if CallOf(w, c).ServingGrace? then CallOf(Do(w, ServeGrace(c, opens)), c).result else None
  }

  /** Serving, in full: who is served, and what. */
  lemma ServingIff(w: State, c: nat, opens: bool)
    requires Reachable(w) && CallOf(w, c).ServingGrace?
    ensures var call := CallOf(w, c); var answer := GraceAnswer(w, c, opens);
            && (answer.Some? <==> Usable(w.users, call.row.user) && opens)
            && (answer.Some? ==>
                  && answer.value.presented == call.token && answer.value.at == call.now && answer.value.byGrace
                  && call.row.sealed == Some(SealOf(answer.value.refresh))
                  && answer.value.refreshExpires == call.row.expiresAt * SECOND)
  {
    ReachableInv(w);
    assert CallOk(w, CallOf(w, c));
  }

  /** An open grace window comes with the sealed token of the row's replacement. */
  lemma SealedIsNext(u: State, h: Hash)
    requires Reachable(u) && h in u.rows && u.rows[h].reason == Some(Rotated) && u.rows[h].graceUntil.Some?
    ensures u.rows[h].sealed.Some? && u.rows[h].replacedBy == Some(HashOf(u.rows[h].sealed.value.token))
  {
    ReachableInv(u);
    assert RowOk(u, h);
  }

  lemma StaysServable(a: Row, b: Row, at: int)
    requires Servable(a, at) && RowEvolves(a, b)
    ensures Servable(b, at) <==> b.graceUntil.Some?
    ensures b.revokedAt.Some? && b.replacedBy == a.replacedBy && b.user == a.user && b.expiresAt == a.expiresAt
  {}

  /** The grace promise, under any interference and exactly. A token whose grace window is
      open is presented; the call returns the replacement the rotation produced if and only
      if at its lookup the row is still stored and its window has not been closed by a
      revocation, the user is usable when it is checked again, and the sealed token opens. */
  lemma RetryServed(s: State, c: nat, token: Token, before: seq<Step>, others: seq<Step>, opens: bool)
    requires ReachesLookup(s, c, token, before) && Continues(AtLookup(s, c, token, before), c, others)
    requires HashOf(token) in s.rows && Servable(s.rows[HashOf(token)], Unix(s.clock))
    ensures var u, row := AtLookup(s, c, token, before), s.rows[HashOf(token)];
            var w := Continued(u, c, others); var answer := GraceAnswer(w, c, opens);
            && (answer.Some? <==>
                  && HashOf(token) in u.rows && u.rows[HashOf(token)].graceUntil.Some?
                  && Usable(w.users, row.user) && opens)
            && (answer.Some? ==>
                  && answer.value.presented == token && answer.value.at == s.clock && answer.value.byGrace
                  && Some(HashOf(answer.value.refresh)) == row.replacedBy
                  && answer.value.refreshExpires == row.expiresAt * SECOND)
  {
    var u, h := AtLookup(s, c, token, before), HashOf(token);
    LookupIsReachable(s, c, token, before);
    RowAtLookup(s, c, token, before, h);
    ContinuedCall(u, c, others);
    if h in u.rows {
      StaysServable(s.rows[h], u.rows[h], Unix(s.clock));
      if u.rows[h].graceUntil.Some? {
        SealedIsNext(u, h);
        ServingIff(Continued(u, c, others), c, opens);
      }
    }
  }

  /** A call with nothing in between, judged on the state it starts from. */
  lemma RetryAlone(s: State, c: nat, token: Token, cleaned: bool, opens: bool)
    requires Reachable(s) && CallOf(s, c).Idle? && Presentable(s, token)
    requires HashOf(token) in s.rows && Servable(s.rows[HashOf(token)], Unix(s.clock))
    ensures var row, answer := s.rows[HashOf(token)], GraceAnswer(AfterLookup(s, c, token, cleaned), c, opens);
            && (answer.Some? <==> (cleaned ==> row.expiresAt > Unix(s.clock)) && Usable(s.users, row.user) && opens)
            && (answer.Some? ==>
                  answer.value.presented == token && Some(HashOf(answer.value.refresh)) == row.replacedBy)
  {
    LookupEffect(s, c, token, cleaned);
    LookupReachable(s, c, token, cleaned);
    SealedIsNext(s, HashOf(token));
    if Survives(s, HashOf(token), cleaned) { ServingIff(AfterLookup(s, c, token, cleaned), c, opens); }
  }

  // ----- Runs in which the promises fail -----

  /** A session of 100 seconds opened at 0 and rotated at `at`; the clock then shows `to`. */
  lemma RotatedAt(at: int, to: int) returns (s: State)
    requires 0 <= at < 100 && at <= to
    ensures Reachable(s) && CallOf(s, 3).Idle? && Presentable(s, Minted(0)) && Unix(s.clock) == to && Usable(s.users, 7)
    ensures var h, child := HashOf(Minted(0)), HashOf(Minted(1));
            && h in s.rows && child in s.rows
            && s.rows[h].expiresAt == 100 && s.rows[h].user == 7 && s.rows[h].revokedAt.Some?
            && s.rows[h].replacedBy == Some(child) && (forall x :: Servable(s.rows[h], x) <==> x <= at + 10)
            && (forall x :: Live(s.rows[child], x) <==> x < at + 100) && s.rows[child].family == s.rows[h].family
  {
    var s0 := Initial(100 * SECOND, 0, map[7 := User(true, false)]);
    InitialReachable(100 * SECOND, 0, s0.users);
    var s1 := Logged(s0, 1, 7, 0, 0);
    WholeSeconds(100);
    var s2 := Later(s1, at * SECOND);
    WholeSeconds(at);
    WholeSeconds(at + 100);
    assert CallOf(s2, 2) == CallOf(s1, 2) == CallOf(s0, 2);
    var s3 := Refreshed(s2, 2, Minted(0), 1, false);
    assert Servable(s3.rows[HashOf(Minted(0))], at + 10);
    s := Later(s3, to * SECOND);
    WholeSeconds(to);
    assert CallOf(s, 3) == CallOf(s3, 3) == CallOf(s2, 3) == CallOf(s1, 3) == CallOf(s0, 3);
  }

  /** A replay that escapes: a token rotated long ago is presented once it has expired; the
      call's own cleanup deletes its row, and the successor stays live. */
  lemma ExpiredReplayEscapes() returns (s: State, c: nat, token: Token, successor: Hash)
    ensures Reachable(s) && CallOf(s, c).Idle? && Presentable(s, token)
    ensures HashOf(token) in s.rows && IsReplay(s.rows[HashOf(token)], Unix(s.clock))
    ensures s.rows[HashOf(token)].replacedBy == Some(successor)
    ensures var t := AfterReplay(s, c, token, true);
            successor in t.rows && Live(t.rows[successor], Unix(s.clock))
  {
    s := RotatedAt(50, 100);
    c, token, successor := 3, Minted(0), HashOf(Minted(1));
    assert !Servable(s.rows[HashOf(token)], 100) && Live(s.rows[successor], 100);
    LookupEffect(s, c, token, true);
  }

  /** A retry inside its window that is refused: rotated at 95 seconds, presented again at
      101, its row expired at 100 and the call's own cleanup deletes it. */
  lemma RetryRefused() returns (s: State, c: nat, token: Token)
    ensures Reachable(s) && CallOf(s, c).Idle? && Presentable(s, token)
    ensures HashOf(token) in s.rows && Servable(s.rows[HashOf(token)], Unix(s.clock))
    ensures Usable(s.users, s.rows[HashOf(token)].user)
    ensures CallOf(AfterLookup(s, c, token, true), c) == Idle(None)
  {
    s := RotatedAt(95, 101);
    c, token := 3, Minted(0);
    LookupEffect(s, c, token, true);
  }

  /** A logout that misses: given a token rotated just before, it leaves the successor live. */
  lemma LogoutMissesSuccessor() returns (s: State, token: Token, successor: Hash)
    ensures Reachable(s) && Enabled(s, Step.Logout(token, Unix(s.clock))) && HashOf(token) in s.rows
    ensures s.rows[HashOf(token)].replacedBy == Some(successor)
    ensures var t := Do(s, Step.Logout(token, Unix(s.clock)));
            && successor in t.rows && Live(t.rows[successor], Unix(s.clock))
            && t.rows[successor].family == t.rows[HashOf(token)].family
            && !Ended(t, t.rows[HashOf(token)].family)
  {
    s := RotatedAt(50, 50);
    token, successor := Minted(0), HashOf(Minted(1));
    assert Live(s.rows[successor], 50);
  }

  /** A login under way when its user's sessions are revoked opens one afterwards, although no
      login begins after the revocation. */
  lemma LoginUnderWayOpens() returns (s: State, user: nat, later: seq<Step>, h: Hash)
    ensures Reachable(s) && Enabled(s, RevokeSessionsOf(user, PasswordChange, 0))
    ensures Legal(Do(s, RevokeSessionsOf(user, PasswordChange, 0)), later)
    ensures forall i | 0 <= i < |later| :: !later[i].BeginLogin?
    ensures var u := Exec(Do(s, RevokeSessionsOf(user, PasswordChange, 0)), later);
            h in u.rows && u.rows[h].user == user && Live(u.rows[h], Unix(u.clock))
  {
    var s0 := Initial(100 * SECOND, 0, map[7 := User(true, false)]);
    InitialReachable(100 * SECOND, 0, s0.users);
    user, h := 7, HashOf(Minted(0));
    s := Do(s0, BeginLogin(1, user));
    ReachableStep(s0, BeginLogin(1, user));
    NothingToRevoke(s, user, PasswordChange, 0);
    later := LoginContinues(s0, 1, user, 0, 0);
    LoginEffect(s0, 1, user, 0, 0);
    WholeSeconds(0);
    WholeSeconds(100);
  }

  /** What is left of a login once it has verified the password. */
  lemma LoginContinues(s: State, c: nat, user: nat, mint: nat, family: nat) returns (later: seq<Step>)
    requires CallOf(s, c).Idle? && Usable(s.users, user) && mint !in s.drawn && family !in s.families
    ensures Legal(Do(s, BeginLogin(c, user)), later) && forall i | 0 <= i < |later| :: !later[i].BeginLogin?
    ensures Exec(Do(s, BeginLogin(c, user)), later) == LoginSteps(s, c, user, mint, family)
  {
    later := [StartSession(c), Cleanup(c, false), DrawSession(c, mint, family), CreateSession(c)];
    LoginEnabled(Do(s, BeginLogin(c, user)), c, user, mint, family);
    FourSteps(Do(s, BeginLogin(c, user)), StartSession(c), Cleanup(c, false), DrawSession(c, mint, family),
        CreateSession(c));
  }

  lemma LoginEnabled(s: State, c: nat, user: nat, mint: nat, family: nat)
    requires CallOf(s, c) == LoginVerified(user) && mint !in s.drawn && family !in s.families
    ensures Enabled(s, StartSession(c)) && Enabled(Do(s, StartSession(c)), Cleanup(c, false))
    ensures var t := Do(Do(s, StartSession(c)), Cleanup(c, false));
            && Enabled(t, DrawSession(c, mint, family))
            && Enabled(Do(t, DrawSession(c, mint, family)), CreateSession(c))
  {}

  lemma NothingToRevoke(s: State, user: nat, reason: Reason, at: int)
    requires s.rows == map[] && Enabled(s, RevokeSessionsOf(user, reason, at))
    ensures Do(s, RevokeSessionsOf(user, reason, at)) == s
  {
    assert RevokeUser(s.rows, user, reason, at) == map[];
  }

  lemma FourSteps(s: State, a: Step, b: Step, c: Step, d: Step)
    requires Enabled(s, a) && Enabled(Do(s, a), b) && Enabled(Do(Do(s, a), b), c)
    requires Enabled(Do(Do(Do(s, a), b), c), d)
    ensures Legal(s, [a, b, c, d]) && Exec(s, [a, b, c, d]) == Do(Do(Do(Do(s, a), b), c), d)
  {
    TwoSteps(s, a, b);
    TwoSteps(Do(Do(s, a), b), c, d);
    assert [a, b] + [c, d] == [a, b, c, d];
    LegalJoin(s, [a, b], [c, d]);
  }

  lemma TwoSteps(s: State, a: Step, b: Step)
    requires Enabled(s, a) && Enabled(Do(s, a), b)
    ensures Legal(s, [a, b]) && Exec(s, [a, b]) == Do(Do(s, a), b)
  {
    assert Legal(s, []) && Exec(s, []) == s;
    assert [] + [a] == [a];
    LegalAppend(s, [], a);
    assert [a] + [b] == [a, b];
    LegalAppend(s, [a], b);
  }
}
