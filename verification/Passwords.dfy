/** Passwords under concurrency: ChangePassword verifies the stored bcrypt hash, hashes the
    new password and then swaps the stored hash only if it is still the one it verified;
    ResetPassword overwrites unconditionally. Every SQL statement is one step and steps of
    different calls interleave freely. */
module Passwords {
  import opened Options
  import opened Sessions

  const MIN_PASSWORD_LENGTH := 8
  const MAX_PASSWORD_LENGTH := 72

  /** A bcrypt hash: a random salt, never drawn twice, and the password it was made from. */
  datatype Digest = Digest(salt: nat, secret: string)

  predicate Opens(digest: Digest, password: string) {
    digest.secret == password
  }

  predicate Acceptable(password: string) {
    MIN_PASSWORD_LENGTH <= |password| <= MAX_PASSWORD_LENGTH
  }

  datatype Account = Account(password: Digest, active: bool, deleted: bool)

  type Users = map<nat, Account>

  predicate Stored(users: Users, id: nat) {
    id in users && !users[id].deleted
  }

  /** UPDATE users SET password WHERE the hash is still `current`: the new table and whether
      a row was affected. */
  function Swap(users: Users, id: nat, current: Digest, next: Digest): (Users, bool) {
    if Stored(users, id) && users[id].password == current then (users[id := users[id].(password := next)], true)
    else (users, false)
  }

  function Overwrite(users: Users, id: nat, next: Digest): (Users, bool) {
    if Stored(users, id) then (users[id := users[id].(password := next)], true) else (users, false)
  }

  function Activate(users: Users, id: nat, active: bool): (Users, bool) {
    if Stored(users, id) then (users[id := users[id].(active := active)], true) else (users, false)
  }

  // ----- History -----

  /** How a stored hash got there. */
  datatype Writer = ByRegistration | ByReset | ByChange(verified: Digest, shown: string)

  datatype Version = Version(digest: Digest, writer: Writer)

  datatype Outcome = Missing | Wrong | Changed(version: nat) | Reset(version: nat) | Switched

  /** Where a client is in ChangePassword or ResetPassword. `seen` is history: how
      many hashes the user had had when the last of them was verified. */
  datatype Call =
    | Idle(outcome: Option<Outcome>)
    | Changing(user: nat, current: string, wanted: string)
    | Hashing(user: nat, current: string, verified: Digest, seen: nat, wanted: string)
    | Swapping(user: nat, current: string, verified: Digest, seen: nat, next: Digest)
    | Resetting(user: nat, wanted: string)
    | ResetHashing(user: nat, wanted: string)
    | Overwriting(user: nat, next: Digest)
    | Flagged(user: nat, becomes: bool)
    | Revoking(user: nat, done: Outcome)

  /** `users` and `rows` are the accounts and their sessions, `versions` every hash each user ever had, newest last. */
  datatype State = State(
    users: Users,
    rows: Table,
    salts: set<nat>,
    calls: map<nat, Call>,
    versions: map<nat, seq<Version>>)

  const EMPTY := State(map[], map[], {}, map[], map[])

  datatype Step =
    | Register(id: nat, salt: nat, password: string)
    | SetActive(c: nat, id: nat, becomes: bool)
    | ReadBack(c: nat)
    | Delete(id: nat)
    | BeginChange(c: nat, user: nat, current: string, wanted: string)
    | Verify(c: nat)
    | BeginReset(c: nat, user: nat, wanted: string)
    | FindForReset(c: nat)
    | DrawHash(c: nat, salt: nat)
    | CompareAndSet(c: nat)
    | ResetHash(c: nat)
    | RevokeSessions(c: nat, at: int)
    | MoveSessions(rows: Table)
    | Abort(c: nat)

  function Actor(step: Step): Option<nat> {
    if step.Register? || step.Delete? || step.MoveSessions? then None else Some(step.c)
  }

  function CallOf(s: State, c: nat): Call {
    if c in s.calls then s.calls[c] else Idle(None)
  }

  function WithCall(s: State, c: nat, call: Call): State {
    s.(calls := s.calls[c := call])
  }

  predicate Enabled(s: State, step: Step) {
    match step
    case Register(id, salt, _) => id !in s.users && salt !in s.salts
    case SetActive(c, _, _) => CallOf(s, c).Idle?
    case ReadBack(c) => CallOf(s, c).Flagged?
    case Delete(_) => true
    case BeginChange(c, _, _, wanted) => CallOf(s, c).Idle? && Acceptable(wanted)
    case Verify(c) => CallOf(s, c).Changing?
    case BeginReset(c, _, wanted) => CallOf(s, c).Idle? && Acceptable(wanted)
    case FindForReset(c) => CallOf(s, c).Resetting?
    case DrawHash(c, salt) => (CallOf(s, c).Hashing? || CallOf(s, c).ResetHashing?) && salt !in s.salts
    case CompareAndSet(c) => CallOf(s, c).Swapping?
    case ResetHash(c) => CallOf(s, c).Overwriting?
    case RevokeSessions(c, _) => CallOf(s, c).Revoking?
    case MoveSessions(_) => true
    case Abort(_) => true
  }

  function Versions(s: State, id: nat): seq<Version> {
    if id in s.versions then s.versions[id] else []
  }

  /** The history after a statement that may have stored `next`. */
  function Logged(s: State, id: nat, written: (Users, bool), version: Version): State {
    if written.1 then s.(users := written.0, versions := s.versions[id := Versions(s, id) + [version]])
    else s
  }

  function DoVerify(s: State, c: nat, user: nat, current: string, wanted: string): State {
    if !Stored(s.users, user) then WithCall(s, c, Idle(Some(Missing)))
    else if !Opens(s.users[user].password, current) then WithCall(s, c, Idle(Some(Wrong)))
    else WithCall(s, c, Hashing(user, current, s.users[user].password, |Versions(s, user)|, wanted))
  }

  function DoSwap(s: State, c: nat, user: nat, current: string, verified: Digest, next: Digest): State {
    var written := Swap(s.users, user, verified, next);
    WithCall(Logged(s, user, written, Version(next, ByChange(verified, current))), c,
             if written.1 then Revoking(user, Changed(|Versions(s, user)|)) else Idle(Some(Wrong)))
  }

  function DoOverwrite(s: State, c: nat, user: nat, next: Digest): State {
    var written := Overwrite(s.users, user, next);
    WithCall(Logged(s, user, written, Version(next, ByReset)), c,
             if written.1 then Revoking(user, Reset(|Versions(s, user)|)) else Idle(Some(Missing)))
  }

  /** Why a finished call ends the user's sessions. */
  function ReasonFor(done: Outcome): Reason {
    if done.Reset? then AdminReset else if done.Switched? then Deactivated else PasswordChange
  }

  function DoSetActive(s: State, c: nat, id: nat, becomes: bool): State {
    var written := Activate(s.users, id, becomes);
    WithCall(s.(users := written.0), c, if written.1 then Flagged(id, becomes) else Idle(Some(Missing)))
  }

  function Do(s: State, step: Step): State
    requires Enabled(s, step)
  {
    match step
    case Register(id, salt, password) =>
      s.(users := s.users[id := Account(Digest(salt, password), true, false)], salts := s.salts + {salt},
         versions := s.versions[id := [Version(Digest(salt, password), ByRegistration)]])
    case SetActive(c, id, becomes) => DoSetActive(s, c, id, becomes)
    case ReadBack(c) =>
      var call := CallOf(s, c);
      WithCall(s, c, if !Stored(s.users, call.user) then Idle(Some(Missing))
                     else if call.becomes then Idle(Some(Switched)) else Revoking(call.user, Switched))
    case Delete(id) => if id in s.users then s.(users := s.users[id := s.users[id].(deleted := true)]) else s
    case BeginChange(c, user, current, wanted) => WithCall(s, c, Changing(user, current, wanted))
    case Verify(c) => DoVerify(s, c, CallOf(s, c).user, CallOf(s, c).current, CallOf(s, c).wanted)
    case BeginReset(c, user, wanted) => WithCall(s, c, Resetting(user, wanted))
    case FindForReset(c) =>
      WithCall(s, c, if Stored(s.users, CallOf(s, c).user) then ResetHashing(CallOf(s, c).user, CallOf(s, c).wanted)
                     else Idle(Some(Missing)))
    case DrawHash(c, salt) =>
      var next := Digest(salt, CallOf(s, c).wanted);
      WithCall(s, c, match CallOf(s, c)
                     case Hashing(user, current, verified, seen, _) => Swapping(user, current, verified, seen, next)
                     case call => Overwriting(call.user, next)).(salts := s.salts + {salt})
    case CompareAndSet(c) => DoSwap(s, c, CallOf(s, c).user, CallOf(s, c).current, CallOf(s, c).verified,
        CallOf(s, c).next)
    case ResetHash(c) => DoOverwrite(s, c, CallOf(s, c).user, CallOf(s, c).next)
    case RevokeSessions(c, at) =>
      var call := CallOf(s, c);
      WithCall(s, c, Idle(Some(call.done))).(rows := RevokeUser(s.rows, call.user, ReasonFor(call.done), at))
    case MoveSessions(rows) => s.(rows := rows)
    case Abort(c) => WithCall(s, c, Idle(None))
  }

  ghost predicate Legal(s: State, steps: seq<Step>)
    decreases |steps|, 0
  {
    steps == [] || (Legal(s, steps[..|steps| - 1]) && Enabled(Exec(s, steps[..|steps| - 1]), steps[|steps| - 1]))
  }

  ghost function Exec(s: State, steps: seq<Step>): State
    requires Legal(s, steps)
    decreases |steps|, 1
  {
    if steps == [] then s else Do(Exec(s, steps[..|steps| - 1]), steps[|steps| - 1])
  }

  ghost predicate Reachable(s: State) {
    exists steps :: Legal(EMPTY, steps) && s == Exec(EMPTY, steps)
  }

  lemma {:induction false} LegalJoin(s: State, first: seq<Step>, second: seq<Step>)
    requires Legal(s, first) && Legal(Exec(s, first), second)
    ensures Legal(s, first + second) && Exec(s, first + second) == Exec(Exec(s, first), second)
  {
    if second == [] {
      assert first + second == first;
    } else {
      var n := |second| - 1;
      LegalJoin(s, first, second[..n]);
      assert (first + second)[..|first| + n] == first + second[..n];
    }
  }

  lemma {:induction false} LegalSplit(s: State, first: seq<Step>, second: seq<Step>)
    requires Legal(s, first + second)
    ensures Legal(s, first) && Legal(Exec(s, first), second)
    ensures Exec(s, first + second) == Exec(Exec(s, first), second)
  {
    if second == [] {
      assert first + second == first;
    } else {
      var n := |second| - 1;
      assert (first + second)[..|first| + n] == first + second[..n];
      assert (first + second)[|first| + n] == second[n];
      LegalSplit(s, first, second[..n]);
    }
  }

  // ----- What every step keeps -----

  /** One user's history: no hash twice, each change right after the hash it verified. */
  ghost predicate HistoryOk(history: seq<Version>, salts: set<nat>) {
    && history != []
    && (forall i | 0 <= i < |history| :: history[i].digest.salt in salts)
    && (forall i, j | 0 <= i < j < |history| :: history[i].digest != history[j].digest)
    && (forall i | 0 <= i < |history| && history[i].writer.ByChange? :: Follows(history, i))
  }

  ghost predicate Follows(history: seq<Version>, i: nat)
    requires i < |history| && history[i].writer.ByChange?
  {
    i > 0 && history[i - 1].digest == history[i].writer.verified
        && Opens(history[i].writer.verified, history[i].writer.shown)
  }

  ghost predicate Unstored(s: State, salt: nat) {
    && salt in s.salts
    && (forall id, i | id in s.versions && 0 <= i < |s.versions[id]| :: s.versions[id][i].digest.salt != salt)
  }

  ghost predicate Verified(s: State, user: nat, current: string, verified: Digest, seen: nat) {
    Opens(verified, current) && user in s.versions && 0 < seen <= |s.versions[user]|
        && s.versions[user][seen - 1].digest == verified
  }

  ghost predicate CallOk(s: State, call: Call) {
    match call
    case Hashing(user, current, verified, seen, _) => Verified(s, user, current, verified, seen)
    case Swapping(user, current, verified, seen, next) =>
      Verified(s, user, current, verified, seen) && Unstored(s, next.salt)
    case ResetHashing(user, _) => user in s.versions
    case Overwriting(user, next) => user in s.versions && Unstored(s, next.salt)
    case Revoking(user, done) => OutcomeOk(s, user, done)
    case _ => true
  }

  ghost predicate OutcomeOk(s: State, user: nat, outcome: Outcome) {
    match outcome
    case Missing => true
    case Wrong => true
    case Switched => true
    case Changed(version) =>
      user in s.versions && version < |s.versions[user]| && s.versions[user][version].writer.ByChange?
    case Reset(version) =>
      user in s.versions && version < |s.versions[user]| && s.versions[user][version].writer.ByReset?
  }

  /** The hash a call is about to store. */
  function Pending(call: Call): Option<nat> {
    match call
    case Swapping(_, _, _, _, next) => Some(next.salt)
    case Overwriting(_, next) => Some(next.salt)
    case _ => None
  }

  ghost predicate UsersOk(s: State) {
    && s.users.Keys == s.versions.Keys
    && (forall id | id in s.users :: HistoryOk(s.versions[id], s.salts))
    && (forall id | id in s.users :: s.users[id].password == s.versions[id][|s.versions[id]| - 1].digest)
  }

  ghost predicate CallsOk(s: State) {
    && (forall c | c in s.calls :: CallOk(s, s.calls[c]))
    && (forall c, d | c in s.calls && d in s.calls && c != d && Pending(s.calls[c]).Some? ::
          Pending(s.calls[c]) != Pending(s.calls[d]))
  }

  ghost predicate Inv(s: State) {
    UsersOk(s) && CallsOk(s)
  }

  // Statements on the history: how it grows.

  lemma HistoryGrows(history: seq<Version>, salts: set<nat>, version: Version)
    requires HistoryOk(history, salts) && version.digest.salt in salts
    requires forall i | 0 <= i < |history| :: history[i].digest.salt != version.digest.salt
    requires version.writer.ByChange? ==>
               history[|history| - 1].digest == version.writer.verified
                   && Opens(version.writer.verified, version.writer.shown)
    ensures HistoryOk(history + [version], salts)
  {
    var longer := history + [version];
    forall i | 0 <= i < |longer| && longer[i].writer.ByChange? ensures Follows(longer, i) {
      if i < |history| { assert Follows(history, i); }
    }
  }

  /** What a step that stores nothing leaves alone. */
  ghost predicate SameHistory(s: State, t: State) {
    t.versions == s.versions && s.salts <= t.salts
  }

  lemma CallOkKept(s: State, t: State, call: Call)
    requires CallOk(s, call) && SameHistory(s, t)
    ensures CallOk(t, call)
  {}

  /** Storing a hash that no other call is about to store. */
  lemma CallOkGrows(s: State, t: State, call: Call, id: nat, version: Version)
    requires CallOk(s, call) && t.salts == s.salts
    requires t.versions == s.versions[id := Versions(s, id) + [version]]
    requires Pending(call) != Some(version.digest.salt)
    ensures CallOk(t, call)
  {}

  /** Moving one client to a call that fits. */
  lemma CallMoves(s: State, t: State, c: nat)
    requires CallsOk(s) && c in t.calls && t.calls == s.calls[c := t.calls[c]]
    requires forall d | d in s.calls && d != c :: CallOk(t, s.calls[d])
    requires CallOk(t, t.calls[c])
    requires forall d | d in s.calls && d != c && Pending(t.calls[c]).Some? ::
              Pending(s.calls[d]) != Pending(t.calls[c])
    ensures CallsOk(t)
  {}

  lemma QuietStep(s: State, t: State, c: nat)
    requires Inv(s) && SameHistory(s, t) && c in t.calls
    requires t.users == s.users && t == s.(calls := s.calls[c := t.calls[c]], salts := t.salts, rows := t.rows)
    requires CallOk(t, t.calls[c])
    requires Pending(t.calls[c]).Some? ==> Pending(t.calls[c]).value !in s.salts
    ensures Inv(t)
  {
    forall d | d in s.calls && d != c ensures CallOk(t, s.calls[d]) { CallOkKept(s, t, s.calls[d]); }
    forall d | d in s.calls && d != c && Pending(t.calls[c]).Some? ensures Pending(s.calls[d]) != Pending(t.calls[c]) {
      assert CallOk(s, s.calls[d]);
    }
    CallMoves(s, t, c);
    forall id | id in t.users ensures HistoryOk(t.versions[id], t.salts) { assert HistoryOk(s.versions[id], s.salts); }
  }

  /** The step that stores a pending hash. */
  lemma StoringStep(s: State, t: State, c: nat, id: nat, version: Version, users: Users)
    requires Inv(s) && c in s.calls && Pending(s.calls[c]) == Some(version.digest.salt)
    requires id in s.users && users == s.users[id := s.users[id].(password := version.digest)]
    requires version.writer.ByChange? ==>
               s.users[id].password == version.writer.verified && Opens(version.writer.verified, version.writer.shown)
    requires c in t.calls && t == WithCall(Logged(s, id, (users, true), version), c, t.calls[c])
    requires t.calls[c].Revoking? && CallOk(t, t.calls[c])
    ensures Inv(t)
  {
    assert CallOk(s, s.calls[c]);
    StoringUsers(s, t, id, version);
    forall d | d in s.calls && d != c ensures CallOk(t, s.calls[d]) {
      CallOkGrows(s, t, s.calls[d], id, version);
    }
    CallMoves(s, t, c);
  }

  lemma StoringUsers(s: State, t: State, id: nat, version: Version)
    requires UsersOk(s) && id in s.users && Unstored(s, version.digest.salt)
    requires t.users == s.users[id := s.users[id].(password := version.digest)] && t.salts == s.salts
    requires t.versions == s.versions[id := Versions(s, id) + [version]]
    requires version.writer.ByChange? ==>
               s.users[id].password == version.writer.verified && Opens(version.writer.verified, version.writer.shown)
    ensures UsersOk(t)
  {
    HistoryGrows(s.versions[id], s.salts, version);
    forall other | other in t.users ensures HistoryOk(t.versions[other], t.salts) {
      if other != id { assert HistoryOk(s.versions[other], s.salts); }
    }
  }

  lemma RegisterStep(s: State, id: nat, salt: nat, password: string)
    requires Inv(s) && Enabled(s, Register(id, salt, password))
    ensures Inv(Do(s, Register(id, salt, password)))
  {
    var t := Do(s, Register(id, salt, password));
    forall c | c in s.calls ensures CallOk(t, t.calls[c]) {
      assert CallOk(s, s.calls[c]);
    }
    forall other | other in t.users ensures HistoryOk(t.versions[other], t.salts) {
      assert other in s.users ==> HistoryOk(s.versions[other], s.salts);
    }
  }

  /** Deletion, activation and session statements leave every password as it is. */
  lemma DeleteStep(s: State, step: Step)
    requires Inv(s) && (step.Delete? || step.MoveSessions?)
    ensures Inv(Do(s, step))
  {
    var t := Do(s, step);
    assert t.versions == s.versions && t.calls == s.calls;
    forall c | c in s.calls ensures CallOk(t, t.calls[c]) { CallOkKept(s, t, s.calls[c]); }
  }

  lemma SetActiveStep(s: State, c: nat, id: nat, becomes: bool)
    requires Inv(s) && CallOf(s, c).Idle?
    ensures Inv(Do(s, SetActive(c, id, becomes)))
  {
    var t := Do(s, SetActive(c, id, becomes));
    assert t.versions == s.versions;
    forall d | d in s.calls && d != c ensures CallOk(t, s.calls[d]) { CallOkKept(s, t, s.calls[d]); }
    CallMoves(s, t, c);
  }

  lemma SwapStep(s: State, c: nat)
    requires Inv(s) && CallOf(s, c).Swapping?
    ensures Inv(Do(s, CompareAndSet(c)))
  {
    var call := CallOf(s, c);
    var written := Swap(s.users, call.user, call.verified, call.next);
    assert c in s.calls ==> CallOk(s, call);
    if written.1 {
      StoringStep(s, Do(s, CompareAndSet(c)), c, call.user, Version(call.next, ByChange(call.verified, call.current)),
          written.0);
    } else {
      QuietStep(s, Do(s, CompareAndSet(c)), c);
    }
  }

  lemma OverwriteStep(s: State, c: nat)
    requires Inv(s) && CallOf(s, c).Overwriting?
    ensures Inv(Do(s, ResetHash(c)))
  {
    var call := CallOf(s, c);
    var written := Overwrite(s.users, call.user, call.next);
    if written.1 {
      StoringStep(s, Do(s, ResetHash(c)), c, call.user, Version(call.next, ByReset), written.0);
    } else {
      QuietStep(s, Do(s, ResetHash(c)), c);
    }
  }

  lemma DrawStep(s: State, c: nat, salt: nat)
    requires Inv(s) && Enabled(s, DrawHash(c, salt))
    ensures Inv(Do(s, DrawHash(c, salt)))
  {
    assert CallOk(s, CallOf(s, c));
    var t := Do(s, DrawHash(c, salt));
    forall id, i | id in s.versions && 0 <= i < |s.versions[id]| ensures s.versions[id][i].digest.salt != salt {
      assert HistoryOk(s.versions[id], s.salts);
    }
    QuietStep(s, t, c);
  }

  lemma VerifyStep(s: State, c: nat)
    requires Inv(s) && CallOf(s, c).Changing?
    ensures Inv(Do(s, Verify(c)))
  {
    QuietStep(s, Do(s, Verify(c)), c);
  }

  lemma MoveStep(s: State, step: Step)
    requires Inv(s) && Enabled(s, step)
    requires step.BeginChange? || step.BeginReset? || step.RevokeSessions? || step.Abort?
    ensures Inv(Do(s, step))
  {
    QuietStep(s, Do(s, step), step.c);
  }

  lemma StepKeeps(s: State, step: Step)
    requires Inv(s) && Enabled(s, step)
    ensures Inv(Do(s, step))
  {
    match step
    case Register(id, salt, password) => RegisterStep(s, id, salt, password);
    case SetActive(c, id, becomes) => SetActiveStep(s, c, id, becomes);
    case Delete(_) => DeleteStep(s, step);
    case MoveSessions(_) => DeleteStep(s, step);
    case CompareAndSet(c) => SwapStep(s, c);
    case ResetHash(c) => OverwriteStep(s, c);
    case DrawHash(c, salt) => DrawStep(s, c, salt);
    case Verify(c) => VerifyStep(s, c);
    case FindForReset(c) => QuietStep(s, Do(s, step), c);
    case ReadBack(c) => QuietStep(s, Do(s, step), c);
    case _ => MoveStep(s, step);
  }

  lemma {:induction false} RunKeeps(steps: seq<Step>)
    requires Legal(EMPTY, steps)
    ensures Inv(Exec(EMPTY, steps))
  {
    if steps != [] {
      RunKeeps(steps[..|steps| - 1]);
      StepKeeps(Exec(EMPTY, steps[..|steps| - 1]), steps[|steps| - 1]);
    }
  }

  lemma ReachableInv(s: State)
    requires Reachable(s)
    ensures Inv(s)
  {
    var steps :| Legal(EMPTY, steps) && s == Exec(EMPTY, steps);
    RunKeeps(steps);
  }

  // ----- Theorems -----

  /** Compare-and-set, exactly: the swap stores the new hash if and only if the account is
      not deleted and no password of that user was stored since this call verified one. */
  lemma SwapSucceedsIff(s: State, c: nat)
    requires Reachable(s) && CallOf(s, c).Swapping?
    ensures var call, t := CallOf(s, c), Do(s, CompareAndSet(c));
            if Stored(s.users, call.user) && |Versions(s, call.user)| == call.seen then
              && t.users == s.users[call.user := s.users[call.user].(password := call.next)]
              && t.versions == s.versions[call.user :=
                    Versions(s, call.user) + [Version(call.next, ByChange(call.verified, call.current))]]
              && CallOf(t, c) == Revoking(call.user, Changed(call.seen))
            else
              t.users == s.users && t.versions == s.versions && CallOf(t, c) == Idle(Some(Wrong))
  {
    ReachableInv(s);
    var call := CallOf(s, c);
    assert CallOk(s, call);
    var history := s.versions[call.user];
    assert HistoryOk(history, s.salts);
  }

  /** Over every interleaving: a change sits right after the hash it verified, which the
      caller's current password opens, and no two changes replaced the same hash. */
  lemma OneChangePerHash(s: State, user: nat, i: nat, j: nat)
    requires Reachable(s) && user in s.versions && i < |s.versions[user]| && j < |s.versions[user]|
    requires s.versions[user][i].writer.ByChange?
    ensures var history := s.versions[user];
            && i > 0 && history[i - 1].digest == history[i].writer.verified
            && Opens(history[i - 1].digest, history[i].writer.shown)
            && (history[j].writer.ByChange? && history[j].writer.verified == history[i].writer.verified ==> i == j)
  {
    ReachableInv(s);
    var history := s.versions[user];
    assert HistoryOk(history, s.salts);
    assert Follows(history, i);
    if history[j].writer.ByChange? { assert Follows(history, j); }
  }

  ghost predicate Extends(s: State, t: State) {
    forall id | id in s.versions :: id in t.versions && s.versions[id] <= t.versions[id]
  }

  lemma StepExtends(s: State, step: Step)
    requires Inv(s) && Enabled(s, step)
    ensures Extends(s, Do(s, step))
  {
    if step.CompareAndSet? || step.ResetHash? { StoringExtends(s, step); }
    else if step.Register? { RegisteringExtends(s, step); }
    else { assert Do(s, step).versions == s.versions; }
  }

  lemma StoringExtends(s: State, step: Step)
    requires Enabled(s, step) && (step.CompareAndSet? || step.ResetHash?)
    ensures Extends(s, Do(s, step))
  {}

  lemma RegisteringExtends(s: State, step: Step)
    requires UsersOk(s) && Enabled(s, step) && step.Register?
    ensures Extends(s, Do(s, step))
  {}

  /** Stored passwords are never rewritten, only followed by newer ones. */
  lemma {:induction false} RunExtends(s: State, steps: seq<Step>)
    requires Inv(s) && Legal(s, steps)
    ensures Inv(Exec(s, steps)) && Extends(s, Exec(s, steps))
  {
    if steps != [] {
      var before := Exec(s, steps[..|steps| - 1]);
      RunExtends(s, steps[..|steps| - 1]);
      StepKeeps(before, steps[|steps| - 1]);
      StepExtends(before, steps[|steps| - 1]);
    }
  }

  lemma RunStaysReachable(s: State, steps: seq<Step>)
    requires Reachable(s) && Legal(s, steps)
    ensures Reachable(Exec(s, steps))
  {
    var before :| Legal(EMPTY, before) && s == Exec(EMPTY, before);
    LegalJoin(EMPTY, before, steps);
  }

  lemma StepStaysReachable(s: State, step: Step)
    requires Reachable(s) && Enabled(s, step)
    ensures Reachable(Do(s, step))
  {
    assert [step][..|[step]| - 1] == [];
    assert Legal(s, []) && Exec(s, []) == s;
    RunStaysReachable(s, [step]);
  }

  lemma SeenIsPast(s: State, c: nat)
    requires Reachable(s) && (CallOf(s, c).Swapping? || CallOf(s, c).Hashing?)
    ensures CallOf(s, c).seen <= |Versions(s, CallOf(s, c).user)|
  {
    ReachableInv(s);
    assert CallOk(s, CallOf(s, c));
  }

  lemma NoFewerVersions(s: State, steps: seq<Step>, id: nat)
    requires Reachable(s) && Legal(s, steps)
    ensures |Versions(Exec(s, steps), id)| >= |Versions(s, id)|
  {
    ReachableInv(s);
    RunExtends(s, steps);
  }

  /** The user's version `version` was put by a change that was shown `current`, which
      opens the hash it replaced, and opens with `wanted`. */
  ghost predicate ChangeStands(s: State, user: nat, version: nat, current: string, wanted: string) {
    var history := Versions(s, user);
    && 0 < version < |history|
    && history[version].writer == ByChange(history[version - 1].digest, current)
    && history[version - 1].digest.secret == current
    && history[version].digest.secret == wanted
  }

  lemma ChangeStillStands(s: State, t: State, user: nat, version: nat, current: string, wanted: string)
    requires ChangeStands(s, user, version, current, wanted) && Extends(s, t)
    ensures ChangeStands(t, user, version, current, wanted)
  {}

  /** A swap that goes through leaves such a version. */
  lemma ChangeTakesHold(s: State, c: nat)
    requires Reachable(s) && CallOf(s, c).Swapping?
    ensures var call, t := CallOf(s, c), Do(s, CompareAndSet(c));
            CallOf(t, c).Revoking? ==>
              && CallOf(t, c) == Revoking(call.user, Changed(call.seen))
              && ChangeStands(t, call.user, call.seen, call.current, call.next.secret)
  {
    SwapSucceedsIff(s, c);
    ReachableInv(s);
    assert CallOk(s, CallOf(s, c));
  }

  ghost predicate ResetStands(s: State, user: nat, version: nat, wanted: string) {
    && version < |Versions(s, user)| && Versions(s, user)[version].writer == ByReset
    && Versions(s, user)[version].digest.secret == wanted
  }

  /** No lost update: once any password of the user was stored after client `c` verified
      (a reset, or the change of a rival that verified the same hash), whatever runs next,
      the swap of `c` is refused and changes no account. */
  lemma OvertakenIsRefused(s: State, c: nat, rival: Step, steps: seq<Step>)
    requires Reachable(s) && (CallOf(s, c).Swapping? || CallOf(s, c).Hashing?) && Enabled(s, rival)
    requires |Versions(Do(s, rival), CallOf(s, c).user)| > |Versions(s, CallOf(s, c).user)|
    requires Legal(Do(s, rival), steps)
    requires var late := CallOf(Exec(Do(s, rival), steps), c);
             late.Swapping? && late.user == CallOf(s, c).user && late.seen == CallOf(s, c).seen
    ensures var t := Exec(Do(s, rival), steps);
            && Do(t, CompareAndSet(c)).users == t.users
            && CallOf(Do(t, CompareAndSet(c)), c) == Idle(Some(Wrong))
  {
    SeenIsPast(s, c);
    StepStaysReachable(s, rival);
    NoFewerVersions(Do(s, rival), steps, CallOf(s, c).user);
    RunStaysReachable(Do(s, rival), steps);
    SwapSucceedsIff(Exec(Do(s, rival), steps), c);
  }

  lemma ResetStillStands(s: State, t: State, user: nat, version: nat, wanted: string)
    requires ResetStands(s, user, version, wanted) && Extends(s, t)
    ensures ResetStands(t, user, version, wanted)
  {}

  // ----- What the statements do, column by column -----

  /** No other account, and of this one neither the password nor whether it is deleted. */
  ghost predicate OnlyFlag(before: Users, after: Users, id: nat) {
    && after.Keys == before.Keys
    && (forall other | other in before && other != id :: after[other] == before[other])
    && (id in before ==> after[id].password == before[id].password && after[id].deleted == before[id].deleted)
  }

  ghost predicate OnlyPassword(before: Users, after: Users, id: nat) {
    && after.Keys == before.Keys
    && (forall other | other in before && other != id :: after[other] == before[other])
    && (id in before ==> after[id].active == before[id].active && after[id].deleted == before[id].deleted)
  }

  /** Setting the status writes the flag it was given, for an account that is not deleted;
      for any other it writes nothing and the call ends as not found. */
  lemma SetActiveWrites(s: State, c: nat, id: nat, becomes: bool)
    requires Enabled(s, SetActive(c, id, becomes))
    ensures var t := Do(s, SetActive(c, id, becomes));
            && OnlyFlag(s.users, t.users, id) && t.rows == s.rows && t.versions == s.versions
            && (if id in s.users && !s.users[id].deleted then
                  t.users[id].active == becomes && CallOf(t, c) == Flagged(id, becomes)
                else t.users == s.users && CallOf(t, c) == Idle(Some(Missing)))
  {}

  /** A reset stores the new hash for any account that is not deleted, and nothing else. */
  lemma ResetWrites(s: State, c: nat)
    requires CallOf(s, c).Overwriting?
    ensures var call, t := CallOf(s, c), Do(s, ResetHash(c));
            && OnlyPassword(s.users, t.users, call.user) && t.rows == s.rows
            && (if call.user in s.users && !s.users[call.user].deleted then
                  t.users[call.user].password == call.next && CallOf(t, c).Revoking?
                else t.users == s.users && CallOf(t, c) == Idle(Some(Missing)))
  {}

  /** Verification lets a call on exactly if the account is not deleted and its hash was made
      from the password shown. */
  lemma VerifyChecks(s: State, c: nat)
    requires CallOf(s, c).Changing?
    ensures var call, t := CallOf(s, c), Do(s, Verify(c));
            && t.users == s.users && t.rows == s.rows && t.versions == s.versions
            && (if call.user !in s.users || s.users[call.user].deleted then CallOf(t, c) == Idle(Some(Missing))
                else if s.users[call.user].password.secret != call.current then CallOf(t, c) == Idle(Some(Wrong))
                else CallOf(t, c).Hashing? && CallOf(t, c).user == call.user && CallOf(t, c).wanted == call.wanted
                     && CallOf(t, c).verified == s.users[call.user].password)
  {}

  /** Of all the steps only the last one of a successful call, and other session statements,
      touch the sessions; the former ends exactly the user's, for the reason of the call. */
  lemma SessionsEndOnlyOnSuccess(s: State, step: Step)
    requires Enabled(s, step) && Do(s, step).rows != s.rows
    ensures step.MoveSessions? || (step.RevokeSessions? && CallOf(s, step.c).Revoking?)
    ensures step.RevokeSessions? ==>
              var user := CallOf(s, step.c).user;
              Revokes(s.rows, Do(s, step).rows, (set h | h in s.rows && s.rows[h].user == user),
                      if CallOf(s, step.c).done.Reset? then AdminReset
                      else if CallOf(s, step.c).done.Switched? then Deactivated else PasswordChange, step.at)
  {
    if step.RevokeSessions? {
      RevokeUserMeans(s.rows, CallOf(s, step.c).user, ReasonFor(CallOf(s, step.c).done), step.at);
    }
  }
}
