/** Login, Refresh and Logout as concurrent programs over the refresh_sessions table.

    Every use-case call is a client with a program counter and its own copies of what it
    read; every SQL statement or transaction is one step; steps of different clients
    interleave freely. */
module AuthProtocol {
  import opened Options
  import opened Sessions

  const SECOND := 1_000_000_000

  /** refreshGraceWindow, in nanoseconds. */
  const GRACE_WINDOW := 10 * SECOND

  /** time.Time.Unix for an instant in nanoseconds: rounds down to whole seconds. */
  function Unix(instant: int): int {
    instant / SECOND
  }

  datatype User = User(active: bool, deleted: bool)

  predicate Usable(users: map<nat, User>, id: nat) {
    id in users && users[id].active && !users[id].deleted
  }

  /** Where one client is inside a use-case call, with its local variables. An idle client
      remembers what its last Refresh returned. */
  datatype Call =
    | Idle(result: Option<Redemption>)
    | Cleaning(token: Token, now: int)
    | Finding(token: Token, now: int)
    | ServingGrace(token: Token, now: int, row: Row)
    | RevokingReplay(token: Token, now: int, row: Row)
    | CheckingUser(token: Token, now: int, row: Row)
    | Rotating(token: Token, now: int, row: Row, mint: nat)
    | LoginVerified(user: nat)
    | LoginCleaning(user: nat, now: int)
    | LoginDrawing(user: nat, now: int)
    | Creating(user: nat, now: int, mint: nat, family: nat)

  /** History: what a token hash was issued as. `minted` is the instant its expiry was
      computed from and `index` its place in its family's chain. */
  datatype Issue = Issue(user: nat, family: nat, expiresAt: int, minted: int, index: nat)

  /** History: one successful Refresh. Instants are in nanoseconds. */
  datatype Redemption = Redemption(presented: Token, at: int, refresh: Token, refreshExpires: int, byGrace: bool)

  /** `rows` and `users` are the database, `drawn` and `families` the values the random
      generators have produced, `calls` the running clients. `ledger`, `chains` and
      `redeemed` are history: no step's guard on the database reads them. */
  datatype State = State(
    ttl: int,
    clock: int,
    rows: Table,
    users: map<nat, User>,
    calls: map<nat, Call>,
    drawn: set<nat>,
    families: set<nat>,
    ledger: map<Hash, Issue>,
    chains: map<nat, seq<Hash>>,
    redeemed: set<Redemption>)

  function CallOf(s: State, c: nat): Call {
    if c in s.calls then s.calls[c] else Idle(None)
  }

  function WithCall(s: State, c: nat, call: Call): State {
    s.(calls := s.calls[c := call])
  }

  function Initial(ttl: int, clock: int, users: map<nat, User>): State {
    State(ttl, clock, map[], users, map[], {}, {}, map[], map[], {})
  }

  datatype Step =
    | Tick(to: int)
    | SetUser(id: nat, becomes: User)
    | RevokeSessionsOf(user: nat, reason: Reason, at: int)
    | Logout(token: Token, at: int)
    | BeginRefresh(c: nat, token: Token)
    | Cleanup(c: nat, succeeds: bool)
    | FindSession(c: nat)
    | RevokeReplay(c: nat)
    | ServeGrace(c: nat, opens: bool)
    | CheckUser(c: nat, mint: nat)
    | RotateSession(c: nat)
    | BeginLogin(c: nat, user: nat)
    | StartSession(c: nat)
    | DrawSession(c: nat, mint: nat, family: nat)
    | CreateSession(c: nat)
    | Abort(c: nat)

  /** The client whose program counter a step moves. */
  function Actor(step: Step): Option<nat> {
    match step
    case Tick(_) => None
    case SetUser(_, _) => None
    case RevokeSessionsOf(_, _, _) => None
    case Logout(_, _) => None
    case _ => Some(step.c)
  }

  /** A client can only present a string nobody generated or a token whose row was committed. */
  predicate Presentable(s: State, token: Token) {
    token.Foreign? || HashOf(token) in s.ledger
  }

  predicate Enabled(s: State, step: Step) {
    match step
    case Tick(to) => to >= s.clock
    case SetUser(_, _) => true
    case RevokeSessionsOf(_, reason, at) => reason in {PasswordChange, AdminReset, Deactivated} && at <= Unix(s.clock)
    case Logout(token, at) => Presentable(s, token) && at <= Unix(s.clock)
    case BeginRefresh(c, token) => CallOf(s, c).Idle? && Presentable(s, token)
    case Cleanup(c, _) => CallOf(s, c).Cleaning? || CallOf(s, c).LoginCleaning?
    case FindSession(c) => CallOf(s, c).Finding?
    case RevokeReplay(c) => CallOf(s, c).RevokingReplay?
    case ServeGrace(c, _) => CallOf(s, c).ServingGrace?
    case CheckUser(c, mint) => CallOf(s, c).CheckingUser? && mint !in s.drawn
    case RotateSession(c) => CallOf(s, c).Rotating?
    case BeginLogin(c, user) => CallOf(s, c).Idle? && Usable(s.users, user)
    case StartSession(c) => CallOf(s, c).LoginVerified?
    case DrawSession(c, mint, family) => CallOf(s, c).LoginDrawing? && mint !in s.drawn && family !in s.families
    case CreateSession(c) => CallOf(s, c).Creating?
    case Abort(_) => true
  }

  /** What Refresh does with the row it found: the branches on revoked_at, the grace
      window and expiry, all on the instant captured when the call began. */
  function Classify(token: Token, now: int, row: Row): Call {
    if row.revokedAt.Some? then
      if Servable(row, Unix(now)) then ServingGrace(token, now, row)
      else RevokingReplay(token, now, row)
    else if row.expiresAt <= Unix(now) then Idle(None)
    else CheckingUser(token, now, row)
  }

  /** The replacement session Refresh hands to the rotation. */
  function Replacement(ttl: int, now: int, mint: nat): Next {
    Next(HashOf(Minted(mint)), Unix(now + ttl), Unix(now), Unix(now + GRACE_WINDOW), SealOf(Minted(mint)))
  }

  function DoFind(s: State, c: nat, token: Token, now: int): State {
    if HashOf(token) in s.rows then WithCall(s, c, Classify(token, now, s.rows[HashOf(token)]))
    else WithCall(s, c, Idle(None))
  }

  /** Grace: re-check the user, open the sealed replacement, return it with the expiry of
      the presented session. */
  function DoServe(s: State, c: nat, token: Token, now: int, row: Row, opens: bool): State {
    if Usable(s.users, row.user) && opens && row.sealed.Some? then
      var r := Redemption(token, now, row.sealed.value.token, row.expiresAt * SECOND, true);
      WithCall(s, c, Idle(Some(r))).(redeemed := s.redeemed + {r})
    else WithCall(s, c, Idle(None))
  }

  function DoRotate(s: State, c: nat, token: Token, now: int, mint: nat): State {
    var next := Replacement(s.ttl, now, mint);
    match Rotate(s.rows, HashOf(token), next, Unix(now))
    case Err(_) => WithCall(s, c, Idle(None))
    case Ok(rows) =>
      var parent := s.rows[HashOf(token)];
      var chain := if parent.family in s.chains then s.chains[parent.family] else [];
      var r := Redemption(token, now, Minted(mint), now + s.ttl, false);
      WithCall(s, c, Idle(Some(r))).(
        rows := rows,
        ledger := s.ledger[next.hash := Issue(parent.user, parent.family, next.expiresAt, now, |chain|)],
        chains := s.chains[parent.family := chain + [next.hash]],
        redeemed := s.redeemed + {r})
  }

  function DoCreate(s: State, c: nat, user: nat, now: int, mint: nat, family: nat): State {
    var hash := HashOf(Minted(mint));
    match Create(s.rows, hash, NewRow(user, family, Unix(now + s.ttl), Unix(now)))
    case Err(_) => WithCall(s, c, Idle(None))
    case Ok(rows) =>
      WithCall(s, c, Idle(None)).(
        rows := rows,
        ledger := s.ledger[hash := Issue(user, family, Unix(now + s.ttl), now, 0)],
        chains := s.chains[family := [hash]])
  }

  function Do(s: State, step: Step): State
    requires Enabled(s, step)
  {
    match step
    case Tick(to) => s.(clock := to)
    case SetUser(id, user) => s.(users := s.users[id := user])
    case RevokeSessionsOf(user, reason, at) => s.(rows := RevokeUser(s.rows, user, reason, at))
    case Logout(token, at) => s.(rows := RevokeOne(s.rows, HashOf(token), Reason.Logout, at))
    case BeginRefresh(c, token) => WithCall(s, c, Cleaning(token, s.clock))
    case Cleanup(c, succeeds) =>
      var call := CallOf(s, c);
      var moved := WithCall(s, c, if call.Cleaning? then Finding(call.token, call.now)
                                  else LoginDrawing(call.user, call.now));
      if succeeds then moved.(rows := DeleteExpired(s.rows, Unix(call.now))) else moved
    case FindSession(c) => DoFind(s, c, CallOf(s, c).token, CallOf(s, c).now)
    case RevokeReplay(c) =>
      var call := CallOf(s, c);
      WithCall(s, c, Idle(None)).(rows := RevokeFamily(s.rows, call.row.family, Replay, Unix(call.now)))
    case ServeGrace(c, opens) => DoServe(s, c, CallOf(s, c).token, CallOf(s, c).now, CallOf(s, c).row, opens)
    case CheckUser(c, mint) =>
      var call := CallOf(s, c);
      if Usable(s.users, call.row.user) then
        WithCall(s, c, Rotating(call.token, call.now, call.row, mint)).(drawn := s.drawn + {mint})
      else WithCall(s, c, Idle(None))
    case RotateSession(c) => DoRotate(s, c, CallOf(s, c).token, CallOf(s, c).now, CallOf(s, c).mint)
    case BeginLogin(c, user) => WithCall(s, c, LoginVerified(user))
    case StartSession(c) => WithCall(s, c, LoginCleaning(CallOf(s, c).user, s.clock))
    case DrawSession(c, mint, family) =>
      var call := CallOf(s, c);
      WithCall(s, c, Creating(call.user, call.now, mint, family)).(
        drawn := s.drawn + {mint}, families := s.families + {family})
    case CreateSession(c) =>
      var call := CallOf(s, c);
      DoCreate(s, c, call.user, call.now, call.mint, call.family)
    case Abort(c) => WithCall(s, c, Idle(None))
  }

  /** `steps` is a schedule that can run from `s`. */
  ghost predicate Legal(s: State, steps: seq<Step>)
    decreases |steps|, 0
  {
    steps == [] || (Legal(s, steps[..|steps| - 1]) && Enabled(Exec(s, steps[..|steps| - 1]), steps[|steps| - 1]))
  }

  ghost function Exec(s: State, steps: seq<Step>): State
    requires Legal(s, steps)
    decreases |steps|, 1
  {
    if steps == [] then s
    else Do(Exec(s, steps[..|steps| - 1]), steps[|steps| - 1])
  }

  /** A state some schedule reaches from an empty table. */
  ghost predicate Reachable(s: State) {
    exists ttl, clock, users, steps :: Legal(Initial(ttl, clock, users), steps)
        && s == Exec(Initial(ttl, clock, users), steps)
  }

  lemma LegalAppend(s: State, steps: seq<Step>, step: Step)
    requires Legal(s, steps) && Enabled(Exec(s, steps), step)
    ensures Legal(s, steps + [step]) && Exec(s, steps + [step]) == Do(Exec(s, steps), step)
  {
    assert (steps + [step])[..|steps|] == steps;
  }

  lemma {:induction false} LegalJoin(s: State, first: seq<Step>, second: seq<Step>)
    requires Legal(s, first) && Legal(Exec(s, first), second)
    ensures Legal(s, first + second) && Exec(s, first + second) == Exec(Exec(s, first), second)
  {
    if second == [] {
      assert first + second == first;
    } else {
      var n := |second| - 1;
      LegalJoin(s, first, second[..n]);
      assert (first + second)[..|first| + n] == first + second[..n];
      assert (first + second)[|first| + n] == second[n];
    }
  }

  lemma {:induction false} LegalSplit(s: State, first: seq<Step>, second: seq<Step>)
    requires Legal(s, first + second)
    ensures Legal(s, first) && Legal(Exec(s, first), second)
    ensures Exec(s, first + second) == Exec(Exec(s, first), second)
  {
    if second == [] {
      assert first + second == first;
    } else {
      var n := |second| - 1;
      assert (first + second)[..|first| + n] == first + second[..n];
      assert (first + second)[|first| + n] == second[n];
      LegalSplit(s, first, second[..n]);
    }
  }

  lemma RunStaysReachable(s: State, steps: seq<Step>)
    requires Reachable(s) && Legal(s, steps)
    ensures Reachable(Exec(s, steps))
  {
    var ttl, clock, users, before :|
        Legal(Initial(ttl, clock, users), before) && s == Exec(Initial(ttl, clock, users), before);
    LegalJoin(Initial(ttl, clock, users), before, steps);
  }

  lemma ReachableStep(s: State, step: Step)
    requires Reachable(s) && Enabled(s, step)
    ensures Reachable(Do(s, step))
  {
    var ttl, clock, users, steps :|
        Legal(Initial(ttl, clock, users), steps) && s == Exec(Initial(ttl, clock, users), steps);
    LegalAppend(Initial(ttl, clock, users), steps, step);
  }

  // ----- Steps of other clients -----

  ghost predicate ByOthers(steps: seq<Step>, c: nat) {
    forall i | 0 <= i < |steps| :: Actor(steps[i]) != Some(c)
  }

  lemma OtherStepKeepsCall(s: State, step: Step, c: nat)
    requires Enabled(s, step) && Actor(step) != Some(c)
    ensures CallOf(Do(s, step), c) == CallOf(s, c)
  {
  }

  /** Steps of others leave a client's program counter where it is. */
  lemma {:induction false} OthersKeepCall(s: State, steps: seq<Step>, c: nat)
    requires Legal(s, steps) && ByOthers(steps, c)
    ensures CallOf(Exec(s, steps), c) == CallOf(s, c)
  {
    if steps != [] {
      var n := |steps| - 1;
      assert ByOthers(steps[..n], c);
      OthersKeepCall(s, steps[..n], c);
      OtherStepKeepsCall(Exec(s, steps[..n]), steps[n], c);
    }
  }
}
