/** The user use case as imperative code: ChangePassword, ResetPassword and UpdateStatus run
    their statements against the users and refresh_sessions tables while other calls
    interleave. The ghost `trail` records the password actions as steps of the password
    protocol; what was returned is the outcome that protocol gives the call. */
module Accounts {
  import opened Options
  import opened Sessions
  import opened Passwords
  import opened Randomness

  datatype UserError = BadRequest | UserNotFound | InvalidCredentials | Internal

  ghost predicate ByOthers(steps: seq<Step>, c: nat) {
    forall i | 0 <= i < |steps| :: Passwords.Actor(steps[i]) != Some(c)
  }

  lemma OtherStepKeepsCall(s: State, step: Step, c: nat)
    requires Enabled(s, step) && Passwords.Actor(step) != Some(c)
    ensures CallOf(Do(s, step), c) == CallOf(s, c)
  {}

  lemma {:induction false} OthersKeepCall(s: State, steps: seq<Step>, c: nat)
    requires Legal(s, steps) && ByOthers(steps, c)
    ensures CallOf(Exec(s, steps), c) == CallOf(s, c)
  {
    if steps != [] {
      OthersKeepCall(s, steps[..|steps| - 1], c);
      OtherStepKeepsCall(Exec(s, steps[..|steps| - 1]), steps[|steps| - 1], c);
    }
  }

  /** Between two moments client `c` revoked no sessions. */
  ghost predicate RevokesNothing(before: seq<Step>, after: seq<Step>, c: nat) {
    before <= after && forall i | |before| <= i < |after| :: !(after[i].RevokeSessions? && after[i].c == c)
  }

  lemma NothingMeanwhile(a: seq<Step>, b: seq<Step>, d: seq<Step>, c: nat)
    requires RevokesNothing(a, b, c) && RevokesNothing(b, d, c)
    ensures RevokesNothing(a, d, c)
  {}

  /** The last step of the trail is client `c`'s revocation of the user's sessions: each row of
      the user ended revoked and without a grace window, those nothing had revoked before for
      this reason and at this time, and no other row changed. */
  ghost predicate EndedSessions(trail: seq<Step>, c: nat, rows: Table, user: nat, reason: Reason, at: int) {
    && trail != [] && trail[|trail| - 1] == RevokeSessions(c, at) && Legal(EMPTY, trail[..|trail| - 1])
    && var before := Exec(EMPTY, trail[..|trail| - 1]).rows;
       Revokes(before, rows, (set h | h in before && before[h].user == user), reason, at)
  }

  /** Step `k` of the trail wrote the flag of the account, if it was not deleted, and nothing
      else of any account. */
  ghost predicate WroteFlag(trail: seq<Step>, k: nat, user: nat, becomes: bool) {
    && k < |trail| && Legal(EMPTY, trail[..k]) && Legal(EMPTY, trail[..k + 1])
    && var before, after := Exec(EMPTY, trail[..k]).users, Exec(EMPTY, trail[..k + 1]).users;
    && OnlyFlag(before, after, user)
    && (if user in before && !before[user].deleted then after[user].active == becomes else after == before)
  }

  lemma FlagStands(a: seq<Step>, b: seq<Step>, k: nat, user: nat, becomes: bool)
    requires WroteFlag(a, k, user, becomes) && a <= b
    ensures WroteFlag(b, k, user, becomes)
  {
    assert a[..k] == b[..k] && a[..k + 1] == b[..k + 1];
  }

  /** Where the answer of UpdateStatus leaves the call. */
  function StatusOutcome(error: Option<UserError>): Call {
    match error
    case None => Idle(Some(Switched))
    case Some(UserNotFound) => Idle(Some(Missing))
    case _ => Idle(None)
  }

  class AccountService {
    const sessions: SessionTable
    var users: Users
    var salts: set<nat>
    var clock: int
    ghost var trail: seq<Step>

    ghost function World(): State
      requires Legal(EMPTY, trail)
      reads this
    {
      Exec(EMPTY, trail)
    }

    ghost predicate Mirrors(s: State)
      reads this, sessions
    {
      s.users == users && s.salts == salts && s.rows == sessions.rows
    }

    ghost predicate Valid()
      reads this, sessions
    {
      Legal(EMPTY, trail) && Mirrors(World())
    }

    lemma ValidIsReachable()
      requires Valid()
      ensures Reachable(World())
    {}

    constructor (clock: int)
      ensures Valid() && users == map[] && trail == [] && fresh(sessions) && sessions.rows == map[]
    {
      sessions := new SessionTable();
      users := map[];
      salts := {};
      this.clock := clock;
      trail := [];
    }

    /** Appends a step whose effect on the tables has just been carried out. */
    ghost method Record(c: nat, step: Step)
      requires Legal(EMPTY, trail) && Enabled(World(), step) && Mirrors(Do(World(), step))
      requires Passwords.Actor(step) == Some(c)
      modifies this`trail
      ensures Valid() && trail == old(trail) + [step] && World() == Do(old(World()), step)
    {
      assert (trail + [step])[..|trail|] == trail;
      trail := trail + [step];
    }

    /** Whatever other calls do, to accounts and sessions, between two statements of `c`. */
    method Yield(ghost c: nat)
      requires Valid()
      modifies this, sessions
      ensures Valid() && old(trail) <= trail && ByOthers(trail[|old(trail)|..], c)
    {}

    method Interleave(ghost c: nat)
      requires Valid()
      modifies this, sessions
      ensures Valid() && old(trail) <= trail && CallOf(World(), c) == old(CallOf(World(), c))
      ensures Extends(old(World()), World())
      ensures RevokesNothing(old(trail), trail, c)
    {
      ghost var before := trail;
      Yield(c);
      ghost var gained := trail[|before|..];
      assert trail == before + gained;
      LegalSplit(EMPTY, before, gained);
      OthersKeepCall(Exec(EMPTY, before), gained, c);
      RunKeeps(before);
      RunExtends(Exec(EMPTY, before), gained);
    }

    /** The use case's ChangePassword. It succeeds exactly when its compare-and-set does and
        the sessions could be revoked; then the password it stored replaced one that the
        given current password opens, and no session of the user is left usable. */
    method ChangePassword(ghost c: nat, user: nat, current: string, wanted: string, revokes: bool)
      returns (error: Option<UserError>)
      requires Valid() && CallOf(World(), c).Idle?
      modifies this, sessions
      ensures Valid() && old(trail) <= trail
      ensures error == Some(BadRequest) <==> !(8 <= |wanted| <= 72)
      ensures error == Some(BadRequest) ==>
                trail == old(trail) && users == old(users) && sessions.rows == old(sessions.rows)
      ensures error != Some(BadRequest) ==> ChangeReturned(CallOf(World(), c), user, current, wanted, error)
      ensures error == Some(Internal) ==> !revokes
      ensures error == None ==> EndedSessions(trail, c, sessions.rows, user, PasswordChange, clock)
      ensures error != None ==> RevokesNothing(old(trail), trail, c)
    {
      if !Acceptable(wanted) {
        return Some(BadRequest);
      }
      Record(c, BeginChange(c, user, current, wanted));
      ghost var begun := trail;
      error := VerifyAndReplace(c, user, current, wanted);
      NothingMeanwhile(old(trail), begun, trail, c);
      if error != None {
        return;
      }
      ghost var swapped := trail;
      ghost var stored, version := World(), CallOf(World(), c).done.version;
      error := EndSessions(c, user, PasswordChange, revokes);
      ChangeStillStands(stored, World(), user, version, current, wanted);
      if error != None { NothingMeanwhile(old(trail), swapped, trail, c); }
    }

    method VerifyAndReplace(ghost c: nat, user: nat, current: string, wanted: string) returns (error: Option<UserError>)
      requires Valid() && CallOf(World(), c) == Changing(user, current, wanted)
      modifies this, sessions
      ensures Valid() && old(trail) <= trail && error in {None, Some(UserNotFound), Some(InvalidCredentials)}
      ensures error != None ==> CallOf(World(), c) == Idle(Some(if error == Some(UserNotFound) then Missing else Wrong))
      ensures error == None ==> Stands(CallOf(World(), c), user, current, wanted)
      ensures RevokesNothing(old(trail), trail, c)
    {
      Interleave(c);
      ghost var before := trail;
      var verified;
      error, verified := VerifyCurrent(c, user, current, wanted);
      NothingMeanwhile(old(trail), before, trail, c);
      if error == None {
        before := trail;
        error := Replace(c, user, current, verified, wanted);
        NothingMeanwhile(old(trail), before, trail, c);
      }
    }

    method EndSessions(ghost c: nat, user: nat, reason: Reason, revokes: bool) returns (error: Option<UserError>)
      requires Valid() && CallOf(World(), c).Revoking? && CallOf(World(), c).user == user
      requires ReasonFor(CallOf(World(), c).done) == reason
      modifies this, sessions
      ensures Valid() && old(trail) <= trail && Extends(old(World()), World())
      ensures error == if revokes then None else Some(Internal)
      ensures CallOf(World(), c) == Idle(if revokes then Some(old(CallOf(World(), c)).done) else None)
      ensures !revokes ==> RevokesNothing(old(trail), trail, c)
      ensures revokes ==> EndedSessions(trail, c, sessions.rows, user, reason, clock)
    {
      Interleave(c);
      ghost var before := trail;
      error := RevokeUserSessions(c, user, reason, revokes);
      if !revokes { NothingMeanwhile(old(trail), before, trail, c); }
    }

    /** Hashes the new password and swaps it in. */
    method Replace(ghost c: nat, user: nat, ghost current: string, verified: Digest, wanted: string)
      returns (error: Option<UserError>)
      requires Valid() && CallOf(World(), c).Hashing?
      requires CallOf(World(), c) == Hashing(user, current, verified, CallOf(World(), c).seen, wanted)
      modifies this, sessions
      ensures Valid() && old(trail) <= trail && error in {None, Some(InvalidCredentials)}
      ensures error != None ==> CallOf(World(), c) == Idle(Some(Wrong))
      ensures error == None ==> Stands(CallOf(World(), c), user, current, wanted)
      ensures RevokesNothing(old(trail), trail, c)
    {
      var next := HashMeanwhile(c, wanted);
      ghost var before := trail;
      error := SwapStored(c, user, verified, next);
      NothingMeanwhile(old(trail), before, trail, c);
    }

    /** Hashes the password; others may act before and after. */
    method HashMeanwhile(ghost c: nat, wanted: string) returns (next: Digest)
      requires Valid() && (CallOf(World(), c).Hashing? || CallOf(World(), c).ResetHashing?)
      requires CallOf(World(), c).wanted == wanted
      modifies this, sessions
      ensures Valid() && old(trail) <= trail && next.secret == wanted && RevokesNothing(old(trail), trail, c)
      ensures CallOf(World(), c) == match old(CallOf(World(), c))
                                    case Hashing(user, current, verified, seen, _) =>
                                      Swapping(user, current, verified, seen, next)
                                    case call => Overwriting(call.user, next)
    {
      Interleave(c);
      ghost var before := trail;
      next := HashPassword(c, wanted);
      NothingMeanwhile(old(trail), before, trail, c);
      before := trail;
      Interleave(c);
      NothingMeanwhile(old(trail), before, trail, c);
    }

    ghost predicate Stands(call: Call, user: nat, current: string, wanted: string)
      requires Legal(EMPTY, trail)
      reads this
    {
      && call.Revoking? && call.user == user && call.done.Changed?
      && ChangeStands(World(), user, call.done.version, current, wanted)
    }

    /** What ChangePassword's answer says about the outcome the protocol recorded. */
    ghost predicate ChangeReturned(call: Call, user: nat, current: string, wanted: string, error: Option<UserError>)
      requires Legal(EMPTY, trail)
      reads this
    {
      && call.Idle?
      && (error == None ==>
            && call.outcome.Some? && call.outcome.value.Changed?
            && ChangeStands(World(), user, call.outcome.value.version, current, wanted))
      && (error == Some(UserNotFound) <==> call.outcome == Some(Missing))
      && (error == Some(InvalidCredentials) <==> call.outcome == Some(Wrong))
      && (error == Some(Internal) <==> call.outcome == None)
    }

    method VerifyCurrent(ghost c: nat, user: nat, current: string, ghost wanted: string)
      returns (error: Option<UserError>, verified: Digest)
      requires Valid() && CallOf(World(), c) == Changing(user, current, wanted)
      modifies this`trail
      ensures Valid() && old(trail) <= trail
      ensures error == if user !in users || users[user].deleted then Some(UserNotFound)
                       else if users[user].password.secret != current then Some(InvalidCredentials) else None
      ensures trail == old(trail) + [Verify(c)]
      ensures error != None ==> CallOf(World(), c) == Idle(Some(if error == Some(UserNotFound) then Missing else Wrong))
      ensures error == None ==>
                && verified == users[user].password
                && CallOf(World(), c) == Hashing(user, current, verified, |Versions(World(), user)|, wanted)
    {
      Record(c, Verify(c));
      verified := Digest(0, "");
      if user !in users || users[user].deleted {
        return Some(UserNotFound), verified;
      }
      verified := users[user].password;
      if !Opens(verified, current) {
        return Some(InvalidCredentials), verified;
      }
      error := None;
    }

    method HashPassword(ghost c: nat, wanted: string) returns (next: Digest)
      requires Valid() && (CallOf(World(), c).Hashing? || CallOf(World(), c).ResetHashing?)
      requires CallOf(World(), c).wanted == wanted
      modifies this`trail, this`salts
      ensures Valid() && old(trail) <= trail && next.secret == wanted && RevokesNothing(old(trail), trail, c)
      ensures CallOf(World(), c) == match old(CallOf(World(), c))
                                    case Hashing(user, current, verified, seen, _) =>
                                      Swapping(user, current, verified, seen, next)
                                    case call => Overwriting(call.user, next)
    {
      var salt := Draw(salts);
      next := Digest(salt, wanted);
      salts := salts + {salt};
      Record(c, DrawHash(c, salt));
    }

    /** The guarded UPDATE. */
    method SwapStored(ghost c: nat, user: nat, verified: Digest, next: Digest) returns (error: Option<UserError>)
      requires Valid() && CallOf(World(), c).Swapping?
      requires CallOf(World(), c).user == user && CallOf(World(), c).verified == verified
                && CallOf(World(), c).next == next
      modifies this`trail, this`users
      ensures Valid() && old(trail) <= trail
      ensures OnlyPassword(old(users), users, user) && trail == old(trail) + [CompareAndSet(c)]
      ensures error == None <==>
                user in old(users) && !old(users)[user].deleted && old(users)[user].password == verified
      ensures error == None ==> users[user].password == next
      ensures error != None ==> users == old(users)
      ensures error in {None, Some(InvalidCredentials)}
      ensures error != None ==> CallOf(World(), c) == Idle(Some(Wrong))
      ensures error == None ==> Stands(CallOf(World(), c), user, old(CallOf(World(), c)).current, next.secret)
    {
      ValidIsReachable();
      ghost var before := World();
      var affected := user in users && users[user].password == verified && !users[user].deleted;
      if affected {
        users := users[user := users[user].(password := next)];
      }
      ChangeTakesHold(before, c);
      Record(c, CompareAndSet(c));
      error := if affected then None else Some(InvalidCredentials);
    }

    /** revokeUserSessions, the last statement of a password change or reset. */
    method RevokeUserSessions(ghost c: nat, user: nat, reason: Reason, revokes: bool) returns (error: Option<UserError>)
      requires Valid() && CallOf(World(), c).Revoking? && CallOf(World(), c).user == user
      requires ReasonFor(CallOf(World(), c).done) == reason
      modifies this`trail, sessions
      ensures Valid() && old(trail) <= trail && Extends(old(World()), World())
      ensures error == if revokes then None else Some(Internal)
      ensures CallOf(World(), c) == Idle(if revokes then Some(old(CallOf(World(), c)).done) else None)
      ensures !revokes ==> RevokesNothing(old(trail), trail, c)
      ensures revokes ==> EndedSessions(trail, c, sessions.rows, user, reason, clock)
      ensures !revokes ==> sessions.rows == old(sessions.rows)
    {
      if !revokes {
        Record(c, Abort(c));
        return Some(Internal);
      }
      ghost var before := trail;
      sessions.RevokeUserRefreshSessions(user, reason, clock);
      Record(c, RevokeSessions(c, clock));
      assert trail[..|trail| - 1] == before;
      return None;
    }

    /** The use case's ResetPassword: no verification, an unconditional overwrite, then the
        sessions. */
    method ResetPassword(ghost c: nat, user: nat, wanted: string, revokes: bool) returns (error: Option<UserError>)
      requires Valid() && CallOf(World(), c).Idle?
      modifies this, sessions
      ensures Valid() && old(trail) <= trail
      ensures error == Some(BadRequest) <==> !(8 <= |wanted| <= 72)
      ensures error == Some(BadRequest) ==>
                trail == old(trail) && users == old(users) && sessions.rows == old(sessions.rows)
      ensures error != Some(BadRequest) ==> ResetReturned(CallOf(World(), c), user, wanted, error)
      ensures error == Some(Internal) ==> !revokes
      ensures error == None ==> EndedSessions(trail, c, sessions.rows, user, AdminReset, clock)
      ensures error != None ==> RevokesNothing(old(trail), trail, c)
    {
      if !Acceptable(wanted) {
        return Some(BadRequest);
      }
      Record(c, BeginReset(c, user, wanted));
      ghost var begun := trail;
      error := FindAndRenew(c, user, wanted);
      NothingMeanwhile(old(trail), begun, trail, c);
      if error != None {
        return;
      }
      ghost var renewed := trail;
      ghost var stored, version := World(), CallOf(World(), c).done.version;
      error := EndSessions(c, user, AdminReset, revokes);
      ResetStillStands(stored, World(), user, version, wanted);
      if error != None { NothingMeanwhile(old(trail), renewed, trail, c); }
    }

    ghost predicate ResetReturned(call: Call, user: nat, wanted: string, error: Option<UserError>)
      requires Legal(EMPTY, trail)
      reads this
    {
      && call.Idle?
      && (error == None ==>
            && call.outcome.Some? && call.outcome.value.Reset?
            && ResetStands(World(), user, call.outcome.value.version, wanted))
      && (error == Some(UserNotFound) <==> call.outcome == Some(Missing))
      && (error == Some(Internal) <==> call.outcome == None)
    }

    method FindAndRenew(ghost c: nat, user: nat, wanted: string) returns (error: Option<UserError>)
      requires Valid() && CallOf(World(), c) == Resetting(user, wanted)
      modifies this, sessions
      ensures Valid() && old(trail) <= trail && error in {None, Some(UserNotFound)}
      ensures error != None ==> CallOf(World(), c) == Idle(Some(Missing))
      ensures error == None ==>
                && CallOf(World(), c).Revoking? && CallOf(World(), c).user == user && CallOf(World(), c).done.Reset?
                && ResetStands(World(), user, CallOf(World(), c).done.version, wanted)
      ensures RevokesNothing(old(trail), trail, c)
    {
      Interleave(c);
      ghost var before := trail;
      error := FindForResetting(c, user, wanted);
      NothingMeanwhile(old(trail), before, trail, c);
      if error == None {
        before := trail;
        error := Renew(c, user, wanted);
        NothingMeanwhile(old(trail), before, trail, c);
      }
    }

    method FindForResetting(ghost c: nat, user: nat, ghost wanted: string) returns (error: Option<UserError>)
      requires Valid() && CallOf(World(), c) == Resetting(user, wanted)
      modifies this`trail
      ensures Valid() && trail == old(trail) + [FindForReset(c)]
      ensures error == if user in users && !users[user].deleted then None else Some(UserNotFound)
      ensures CallOf(World(), c) == if error == None then ResetHashing(user, wanted) else Idle(Some(Missing))
    {
      Record(c, FindForReset(c));
      error := if user in users && !users[user].deleted then None else Some(UserNotFound);
    }

    /** Hashes the new password and overwrites the stored one. */
    method Renew(ghost c: nat, user: nat, wanted: string) returns (error: Option<UserError>)
      requires Valid() && CallOf(World(), c) == ResetHashing(user, wanted)
      modifies this, sessions
      ensures Valid() && old(trail) <= trail && error in {None, Some(UserNotFound)}
      ensures error != None ==> CallOf(World(), c) == Idle(Some(Missing))
      ensures error == None ==>
                && CallOf(World(), c).Revoking? && CallOf(World(), c).user == user && CallOf(World(), c).done.Reset?
                && ResetStands(World(), user, CallOf(World(), c).done.version, wanted)
      ensures RevokesNothing(old(trail), trail, c)
    {
      var next := HashMeanwhile(c, wanted);
      ghost var before := trail;
      error := OverwriteStored(c, user, next);
      NothingMeanwhile(old(trail), before, trail, c);
    }

    method OverwriteStored(ghost c: nat, user: nat, next: Digest) returns (error: Option<UserError>)
      requires Valid() && CallOf(World(), c) == Overwriting(user, next)
      modifies this`trail, this`users
      ensures Valid() && trail == old(trail) + [ResetHash(c)] && error in {None, Some(UserNotFound)}
      ensures OnlyPassword(old(users), users, user)
      ensures error == None <==> user in old(users) && !old(users)[user].deleted
      ensures error == None ==> users[user].password == next
      ensures error != None ==> users == old(users)
      ensures error != None ==> CallOf(World(), c) == Idle(Some(Missing))
      ensures error == None ==>
                && CallOf(World(), c).Revoking? && CallOf(World(), c).user == user && CallOf(World(), c).done.Reset?
                && ResetStands(World(), user, CallOf(World(), c).done.version, next.secret)
    {
      var affected := user in users && !users[user].deleted;
      if affected {
        users := users[user := users[user].(password := next)];
      }
      Record(c, ResetHash(c));
      error := if affected then None else Some(UserNotFound);
    }

    /** The use case's UpdateStatus: the UPDATE, the read of the updated user, and on
        deactivation the sessions. A user deleted between the first two is reported missing,
        and this call then revokes nothing. */
    method UpdateStatus(ghost c: nat, user: nat, becomes: bool, revokes: bool) returns (error: Option<UserError>)
      requires Valid() && CallOf(World(), c).Idle?
      modifies this, sessions
      ensures Valid() && old(trail) + [SetActive(c, user, becomes)] <= trail
      ensures CallOf(World(), c) == StatusOutcome(error)
      ensures error in {None, Some(UserNotFound), Some(Internal)}
      ensures WroteFlag(trail, |old(trail)|, user, becomes)
      ensures user !in old(users) || old(users)[user].deleted ==>
                error == Some(UserNotFound) && users == old(users) && sessions.rows == old(sessions.rows)
      ensures error == Some(Internal) ==> !becomes && !revokes
      ensures error == None && !becomes ==> EndedSessions(trail, c, sessions.rows, user, Deactivated, clock)
      ensures error != None || becomes ==> RevokesNothing(old(trail), trail, c)
    {
      var affected := WriteFlag(c, user, becomes);
      if !affected {
        return Some(UserNotFound);
      }
      ghost var before := trail;
      error := ConcludeStatus(c, user, becomes, revokes);
      FlagStands(before, trail, |old(trail)|, user, becomes);
      if error != None || becomes { NothingMeanwhile(old(trail), before, trail, c); }
    }

    /** The UPDATE of the flag. */
    method WriteFlag(ghost c: nat, user: nat, becomes: bool) returns (affected: bool)
      requires Valid() && CallOf(World(), c).Idle?
      modifies this`trail, this`users
      ensures Valid() && trail == old(trail) + [SetActive(c, user, becomes)]
                && WroteFlag(trail, |old(trail)|, user, becomes)
      ensures affected <==> user in old(users) && !old(users)[user].deleted
      ensures CallOf(World(), c) == if affected then Flagged(user, becomes) else Idle(Some(Missing))
      ensures OnlyFlag(old(users), users, user)
      ensures if affected then users[user].active == becomes else users == old(users)
    {
      ghost var before := trail;
      SetActiveWrites(World(), c, user, becomes);
      affected := user in users && !users[user].deleted;
      if affected {
        users := users[user := users[user].(active := becomes)];
      }
      Record(c, SetActive(c, user, becomes));
      assert trail[..|before|] == before && trail[..|before| + 1] == trail;
    }

    /** The read that follows the UPDATE, and on deactivation the sessions. */
    method ConcludeStatus(ghost c: nat, user: nat, becomes: bool, revokes: bool) returns (error: Option<UserError>)
      requires Valid() && CallOf(World(), c) == Flagged(user, becomes)
      modifies this, sessions
      ensures Valid() && old(trail) <= trail
      ensures CallOf(World(), c) == StatusOutcome(error)
      ensures error in {None, Some(UserNotFound), Some(Internal)}
      ensures error == Some(Internal) ==> !becomes && !revokes
      ensures error == None && !becomes ==> EndedSessions(trail, c, sessions.rows, user, Deactivated, clock)
      ensures error != None || becomes ==> RevokesNothing(old(trail), trail, c)
    {
      Interleave(c);
      ghost var before := trail;
      error := Reread(c, user, becomes);
      NothingMeanwhile(old(trail), before, trail, c);
      if error == None && !becomes {
        before := trail;
        error := EndSessions(c, user, Deactivated, revokes);
        if error != None { NothingMeanwhile(old(trail), before, trail, c); }
      }
    }

    /** The read of the updated user decides what is left to do. */
    method Reread(ghost c: nat, user: nat, ghost becomes: bool) returns (error: Option<UserError>)
      requires Valid() && CallOf(World(), c) == Flagged(user, becomes)
      modifies this`trail
      ensures Valid() && trail == old(trail) + [ReadBack(c)]
      ensures error == if user in users && !users[user].deleted then None else Some(UserNotFound)
      ensures CallOf(World(), c) == if error != None then Idle(Some(Missing))
                                    else if becomes then Idle(Some(Switched)) else Revoking(user, Switched)
    {
      Record(c, ReadBack(c));
      error := if user in users && !users[user].deleted then None else Some(UserNotFound);
    }
  }
}
