/** Whole Refresh calls: what an uninterrupted call does, and who wins a race. */
module AuthCalls {
  import opened Options
  import opened Sessions
  import opened AuthProtocol
  import opened AuthSteps
  import opened AuthTheorems

  /** The call of client `c` up to and including its lookup, with nothing in between. */
  ghost function AfterLookup(s: State, c: nat, token: Token, cleaned: bool): State
    requires CallOf(s, c).Idle? && Presentable(s, token)
  {
    Do(Do(Do(s, BeginRefresh(c, token)), Cleanup(c, cleaned)), FindSession(c))
  }

  /** The rows a call finds after its own cleanup. */
  function Left(rows: Table, now: int, cleaned: bool): Table {
    if cleaned then DeleteExpired(rows, now) else rows
  }

  /** The row of `token` is still there after the call's own cleanup. */
  predicate Survives(s: State, h: Hash, cleaned: bool) {
    h in s.rows && (cleaned ==> s.rows[h].expiresAt > Unix(s.clock))
  }

  lemma LookupEffect(s: State, c: nat, token: Token, cleaned: bool)
    requires CallOf(s, c).Idle? && Presentable(s, token)
    ensures var t := AfterLookup(s, c, token, cleaned);
            && t.rows == Left(s.rows, Unix(s.clock), cleaned)
            && t.users == s.users && t.redeemed == s.redeemed && t.clock == s.clock && t.chains == s.chains
            && t.ledger == s.ledger && t.drawn == s.drawn && t.ttl == s.ttl
            && (forall d | d != c :: CallOf(t, d) == CallOf(s, d))
            && CallOf(t, c) == (if Survives(s, HashOf(token), cleaned) then
                  Classify(token, s.clock, s.rows[HashOf(token)]) else Idle(None))
  {
    CleanupEffect(s, c, token, cleaned);
    FindEffect(Do(Do(s, BeginRefresh(c, token)), Cleanup(c, cleaned)), c, token, s.clock);
  }

  /** The call up to its lookup: only its own program counter, and the expired rows. */
  lemma CleanupEffect(s: State, c: nat, token: Token, cleaned: bool)
    requires CallOf(s, c).Idle? && Presentable(s, token)
    ensures Do(Do(s, BeginRefresh(c, token)), Cleanup(c, cleaned))
            == WithCall(s, c, Finding(token, s.clock)).(rows := Left(s.rows, Unix(s.clock), cleaned))
  {
    Overwrites(s, c, Cleaning(token, s.clock), Finding(token, s.clock));
  }

  lemma FindEffect(s: State, c: nat, token: Token, now: int)
    requires CallOf(s, c) == Finding(token, now)
    ensures Do(s, FindSession(c))
            == WithCall(s, c, if HashOf(token) in s.rows then Classify(token, now, s.rows[HashOf(token)])
                else Idle(None))
  {}

  lemma LookupReachable(s: State, c: nat, token: Token, cleaned: bool)
    requires Reachable(s) && CallOf(s, c).Idle? && Presentable(s, token)
    ensures Reachable(AfterLookup(s, c, token, cleaned))
  {
    var s1 := Do(s, BeginRefresh(c, token));
    var s2 := Do(s1, Cleanup(c, cleaned));
    ReachableStep(s, BeginRefresh(c, token));
    ReachableStep(s1, Cleanup(c, cleaned));
    ReachableStep(s2, FindSession(c));
  }

  lemma WholeSeconds(k: int)
    ensures Unix(k * SECOND) == k
  {
  }

  lemma InitialReachable(ttl: int, clock: int, users: map<nat, User>)
    ensures Reachable(Initial(ttl, clock, users))
  {
    assert Legal(Initial(ttl, clock, users), []);
    assert Exec(Initial(ttl, clock, users), []) == Initial(ttl, clock, users);
  }

  // ----- Login -----

  lemma Later(s: State, to: int) returns (t: State)
    requires Reachable(s) && s.clock <= to
    ensures Reachable(t) && t == s.(clock := to)
    ensures forall d :: CallOf(t, d) == CallOf(s, d)
  {
    t := Do(s, Tick(to));
    ReachableStep(s, Tick(to));
  }

  /** The steps of an uninterrupted login whose cleanup fails. */
  ghost function LoginSteps(s: State, c: nat, user: nat, mint: nat, family: nat): State
    requires CallOf(s, c).Idle? && Usable(s.users, user) && mint !in s.drawn && family !in s.families
  {
    Do(Do(Do(Do(Do(s, BeginLogin(c, user)), StartSession(c)), Cleanup(c, false)), DrawSession(c, mint, family)),
        CreateSession(c))
  }

  lemma LoginReachable(s: State, c: nat, user: nat, mint: nat, family: nat)
    requires Reachable(s) && CallOf(s, c).Idle? && Usable(s.users, user) && mint !in s.drawn && family !in s.families
    ensures Reachable(LoginSteps(s, c, user, mint, family))
  {
    var s1 := Do(s, BeginLogin(c, user));
    var s2 := Do(s1, StartSession(c));
    var s3 := Do(s2, Cleanup(c, false));
    var s4 := Do(s3, DrawSession(c, mint, family));
    ReachableStep(s, BeginLogin(c, user));
    ReachableStep(s1, StartSession(c));
    ReachableStep(s2, Cleanup(c, false));
    ReachableStep(s3, DrawSession(c, mint, family));
    ReachableStep(s4, CreateSession(c));
  }

  lemma LoginEffect(s: State, c: nat, user: nat, mint: nat, family: nat)
    requires CallOf(s, c).Idle? && Usable(s.users, user) && mint !in s.drawn && family !in s.families
    requires HashOf(Minted(mint)) !in s.rows
    ensures var t := LoginSteps(s, c, user, mint, family);
            && CallOf(t, c).Idle?
            && t.rows == s.rows[HashOf(Minted(mint)) := NewRow(user, family, Unix(s.clock + s.ttl), Unix(s.clock))]
            && t.clock == s.clock && t.ttl == s.ttl && t.users == s.users && t.drawn == s.drawn + {mint}
            && HashOf(Minted(mint)) in t.ledger && t.redeemed == s.redeemed
            && (forall d | d != c :: CallOf(t, d) == CallOf(s, d))
  {
    LoginDraws(s, c, user);
    var s3 := WithCall(s, c, LoginDrawing(user, s.clock));
    var s4 := WithCall(s, c, Creating(user, s.clock, mint, family)).(
      drawn := s.drawn + {mint}, families := s.families + {family});
    assert Do(s3, DrawSession(c, mint, family)) == s4 by { Overwrites(s, c, s3.calls[c], s4.calls[c]); }
  }

  /** A login up to its draws: only its own program counter moves. */
  lemma LoginDraws(s: State, c: nat, user: nat)
    requires CallOf(s, c).Idle? && Usable(s.users, user)
    ensures Do(Do(Do(s, BeginLogin(c, user)), StartSession(c)), Cleanup(c, false))
              == WithCall(s, c, LoginDrawing(user, s.clock))
  {
    var s1 := WithCall(s, c, LoginVerified(user));
    var s2 := WithCall(s, c, LoginCleaning(user, s.clock));
    assert Do(s, BeginLogin(c, user)) == s1;
    assert Do(s1, StartSession(c)) == s2 by { Overwrites(s, c, s1.calls[c], s2.calls[c]); }
    Overwrites(s, c, s2.calls[c], LoginDrawing(user, s.clock));
  }

  lemma Overwrites(s: State, c: nat, a: Call, b: Call)
    ensures WithCall(WithCall(s, c, a), c, b) == WithCall(s, c, b)
  {
    assert s.calls[c := a][c := b] == s.calls[c := b];
  }

  /** Drawn values are new to the table. */
  lemma MintUnused(s: State, mint: nat)
    requires Reachable(s) && mint !in s.drawn
    ensures HashOf(Minted(mint)) !in s.rows
  {
    ReachableInv(s);
    LedgerDrawn(s);
    RowsIssued(s);
  }

  /** An uninterrupted login inserts one live row in a family of its own. */
  lemma Logged(s: State, c: nat, user: nat, mint: nat, family: nat) returns (t: State)
    requires Reachable(s) && CallOf(s, c).Idle? && Usable(s.users, user)
    requires mint !in s.drawn && family !in s.families
    ensures Reachable(t) && CallOf(t, c).Idle?
    ensures t.rows == s.rows[HashOf(Minted(mint)) := NewRow(user, family, Unix(s.clock + s.ttl), Unix(s.clock))]
    ensures t.clock == s.clock && t.ttl == s.ttl && t.users == s.users && t.drawn == s.drawn + {mint}
    ensures HashOf(Minted(mint)) in t.ledger && t.redeemed == s.redeemed
    ensures forall d | d != c :: CallOf(t, d) == CallOf(s, d)
  {
    MintUnused(s, mint);
    LoginEffect(s, c, user, mint, family);
    t := LoginSteps(s, c, user, mint, family);
    LoginReachable(s, c, user, mint, family);
  }

  // ----- Rotation -----

  /** The steps of an uninterrupted Refresh of a live session. */
  ghost function RefreshSteps(s: State, c: nat, token: Token, mint: nat, cleaned: bool): State
    requires CallOf(s, c).Idle? && Presentable(s, token)
    requires HashOf(token) in s.rows && Live(s.rows[HashOf(token)], Unix(s.clock))
    requires Usable(s.users, s.rows[HashOf(token)].user) && mint !in s.drawn
  {
    LookupEffect(s, c, token, cleaned);
    Do(Do(AfterLookup(s, c, token, cleaned), CheckUser(c, mint)), RotateSession(c))
  }

  lemma RefreshEffect(s: State, c: nat, token: Token, mint: nat, cleaned: bool)
    requires CallOf(s, c).Idle? && Presentable(s, token)
    requires HashOf(token) in s.rows && Live(s.rows[HashOf(token)], Unix(s.clock))
    requires Usable(s.users, s.rows[HashOf(token)].user) && mint !in s.drawn && HashOf(Minted(mint)) !in s.rows
    ensures var t, h, next := RefreshSteps(s, c, token, mint, cleaned), HashOf(token),
              Replacement(s.ttl, s.clock, mint);
            && CallOf(t, c) == Idle(Some(Redemption(token, s.clock, Minted(mint), s.clock + s.ttl, false)))
            && t.clock == s.clock && t.ttl == s.ttl && t.users == s.users && t.drawn == s.drawn + {mint}
            && t.rows == Left(s.rows, Unix(s.clock), cleaned)
                           [h := RotatedRow(s.rows[h], next, Unix(s.clock))]
                           [next.hash := NewRow(s.rows[h].user, s.rows[h].family, next.expiresAt, next.createdAt)]
            && s.ledger.Keys <= t.ledger.Keys
            && (forall d | d != c :: CallOf(t, d) == CallOf(s, d))
  {
    LookupEffect(s, c, token, cleaned);
    RotationEffect(AfterLookup(s, c, token, cleaned), c, mint);
  }

  lemma RefreshReachable(s: State, c: nat, token: Token, mint: nat, cleaned: bool)
    requires Reachable(s) && CallOf(s, c).Idle? && Presentable(s, token)
    requires HashOf(token) in s.rows && Live(s.rows[HashOf(token)], Unix(s.clock))
    requires Usable(s.users, s.rows[HashOf(token)].user) && mint !in s.drawn
    ensures Reachable(RefreshSteps(s, c, token, mint, cleaned))
  {
    LookupEffect(s, c, token, cleaned);
    LookupReachable(s, c, token, cleaned);
    var s1 := AfterLookup(s, c, token, cleaned);
    ReachableStep(s1, CheckUser(c, mint));
    ReachableStep(Do(s1, CheckUser(c, mint)), RotateSession(c));
  }

  /** The rotation a call commits right after its user check. */
  lemma RotationEffect(s: State, c: nat, mint: nat)
    requires CallOf(s, c).CheckingUser? && Usable(s.users, CallOf(s, c).row.user) && mint !in s.drawn
    requires HashOf(CallOf(s, c).token) in s.rows && Live(s.rows[HashOf(CallOf(s, c).token)], Unix(CallOf(s, c).now))
    requires HashOf(Minted(mint)) !in s.rows
    ensures var call, t := CallOf(s, c), Do(Do(s, CheckUser(c, mint)), RotateSession(c));
            var h, next := HashOf(call.token), Replacement(s.ttl, call.now, mint);
            && CallOf(t, c) == Idle(Some(Redemption(call.token, call.now, Minted(mint), call.now + s.ttl, false)))
            && t.clock == s.clock && t.ttl == s.ttl && t.users == s.users && t.drawn == s.drawn + {mint}
            && t.rows == s.rows[h := RotatedRow(s.rows[h], next, Unix(call.now))]
                               [next.hash := NewRow(s.rows[h].user, s.rows[h].family, next.expiresAt, next.createdAt)]
            && s.ledger.Keys <= t.ledger.Keys
            && (forall d | d != c :: CallOf(t, d) == CallOf(s, d))
  {
  }

  /** An uninterrupted Refresh of a live session returns a new token: the old row is rotated
      into it and stays servable for exactly ten more seconds, the expired rows go if the
      call's cleanup succeeds, and every other row is as it was. */
  lemma Refreshed(s: State, c: nat, token: Token, mint: nat, cleaned: bool) returns (t: State)
    requires Reachable(s) && CallOf(s, c).Idle? && Presentable(s, token)
    requires HashOf(token) in s.rows && Live(s.rows[HashOf(token)], Unix(s.clock))
    requires Usable(s.users, s.rows[HashOf(token)].user) && mint !in s.drawn
    ensures Reachable(t) && CallOf(t, c) == Idle(Some(Redemption(token, s.clock, Minted(mint), s.clock + s.ttl, false)))
    ensures var h, child := HashOf(token), HashOf(Minted(mint));
            && child !in s.rows && child in t.rows && h in t.rows
            && (forall g | g != child :: g in t.rows <==>
                  g in s.rows && (cleaned ==> s.rows[g].expiresAt > Unix(s.clock)))
            && t.rows[h].replacedBy == Some(child) && t.rows[h].expiresAt == s.rows[h].expiresAt
            && t.rows[h].createdAt == s.rows[h].createdAt
            && t.rows[h].revokedAt == Some(Unix(s.clock)) && t.rows[h].reason == Some(Rotated)
            && t.rows[child].createdAt == Unix(s.clock)
            && (forall x :: Servable(t.rows[h], x) <==> x <= Unix(s.clock) + 10)
            && (forall x :: Live(t.rows[child], x) <==> x < Unix(s.clock + s.ttl))
            && t.rows[h].user == t.rows[child].user == s.rows[h].user
            && t.rows[h].family == t.rows[child].family == s.rows[h].family
            && (forall g | g in t.rows && g != h && g != child :: t.rows[g] == s.rows[g])
    ensures t.clock == s.clock && t.ttl == s.ttl && t.users == s.users && t.drawn == s.drawn + {mint}
    ensures s.ledger.Keys <= t.ledger.Keys
    ensures forall d | d != c :: CallOf(t, d) == CallOf(s, d)
  {
    MintUnused(s, mint);
    RefreshEffect(s, c, token, mint, cleaned);
    RefreshReachable(s, c, token, mint, cleaned);
    t := RefreshSteps(s, c, token, mint, cleaned);
    RotatedRows(Left(s.rows, Unix(s.clock), cleaned), t.rows, HashOf(token), Replacement(s.ttl, s.clock, mint),
        s.clock);
  }

  /** What a rotation leaves of the old row: the deadline is ten seconds on, inclusive. */
  lemma RotatedShape(row: Row, next: Next, now: int)
    requires next.graceUntil == Unix(now + GRACE_WINDOW)
    ensures forall x :: Servable(RotatedRow(row, next, Unix(now)), x) <==> x <= Unix(now) + 10
    ensures RotatedRow(row, next, Unix(now)).replacedBy == Some(next.hash)
    ensures RotatedRow(row, next, Unix(now)).expiresAt == row.expiresAt
  {
    GraceDeadline(now);
  }

  lemma RotatedRows(before: Table, after: Table, h: Hash, next: Next, now: int)
    requires h in before && next.hash !in before && next.graceUntil == Unix(now + GRACE_WINDOW)
    requires after == before[h := RotatedRow(before[h], next, Unix(now))]
                            [next.hash := NewRow(before[h].user, before[h].family, next.expiresAt, next.createdAt)]
    ensures after.Keys == before.Keys + {next.hash}
    ensures after[h].replacedBy == Some(next.hash) && after[h].expiresAt == before[h].expiresAt
    ensures forall x :: Servable(after[h], x) <==> x <= Unix(now) + 10
    ensures forall x :: Live(after[next.hash], x) <==> x < next.expiresAt
    ensures after[next.hash].family == after[h].family == before[h].family
    ensures after[next.hash].user == after[h].user == before[h].user
    ensures after[h].createdAt == before[h].createdAt && after[next.hash].createdAt == next.createdAt
    ensures after[h].revokedAt == Some(Unix(now)) && after[h].reason == Some(Rotated)
    ensures forall g | g in before && g != h :: after[g] == before[g]
  {
    RotatedShape(before[h], next, now);
  }

  /** A race has one winner: once a rotation of a token commits, no call that is about to
      rotate the same token, now or later, finds its row live. */
  lemma SingleWinner(s: State, c: nat, later: seq<Step>, d: nat)
    requires Reachable(s) && Wins(s, c) && Legal(Do(s, RotateSession(c)), later)
    requires CallOf(Exec(Do(s, RotateSession(c)), later), d).Rotating?
    requires CallOf(Exec(Do(s, RotateSession(c)), later), d).token == CallOf(s, c).token
    ensures !Wins(Exec(Do(s, RotateSession(c)), later), d)
  {
    ReachableInv(s);
    var t := Do(s, RotateSession(c));
    RotationStart(s, c);
    StepKeeps(s, RotateSession(c));
    RunEvolves(t, later, HashOf(CallOf(s, c).token));
  }
}
