/** What the checks and statements of the session protocol do, column by column and account
    by account, and that no call gets past the user check with an account that is missing,
    inactive or deleted. */
module AuthMeaning {
  import opened Options
  import opened Sessions
  import opened AuthProtocol
  import opened AuthInvariant
  import opened AuthSteps
  import opened AuthTheorems

  /** Unix seconds: the last whole second at or before an instant. */
  lemma UnixRoundsDown(instant: int)
    ensures Unix(instant) * 1_000_000_000 <= instant < (Unix(instant) + 1) * 1_000_000_000
  {}

  /** A rotation goes on exactly for a user that is stored, active and not deleted; any other
      user ends the call without a trace. */
  lemma RotationChecksUser(s: State, c: nat, mint: nat)
    requires Enabled(s, CheckUser(c, mint))
    ensures var call, t := CallOf(s, c), Do(s, CheckUser(c, mint)); var id := call.row.user;
            && t.rows == s.rows && t.redeemed == s.redeemed && t.users == s.users
            && CallOf(t, c)
               == if id in s.users && s.users[id].active && !s.users[id].deleted
                  then Rotating(call.token, call.now, call.row, mint) else Idle(None)
  {}

  /** The grace window is served exactly for such a user, when the sealed token opens: the
      answer is that token with the expiry of the presented session, and nothing is written. */
  lemma GraceChecksUser(s: State, c: nat, opens: bool)
    requires Enabled(s, ServeGrace(c, opens))
    ensures var call, t := CallOf(s, c), Do(s, ServeGrace(c, opens)); var id := call.row.user;
            && t.rows == s.rows && t.users == s.users
            && (if id in s.users && s.users[id].active && !s.users[id].deleted && opens && call.row.sealed.Some? then
                  var r := Redemption(call.token, call.now, call.row.sealed.value.token,
                                      call.row.expiresAt * 1_000_000_000, true);
                  CallOf(t, c) == Idle(Some(r)) && t.redeemed == s.redeemed + {r}
                else CallOf(t, c) == Idle(None) && t.redeemed == s.redeemed)
  {}

  /** A login gets past verification exactly for such a user. */
  lemma LoginChecksUser(s: State, c: nat, id: nat)
    ensures Enabled(s, BeginLogin(c, id)) <==>
              CallOf(s, c).Idle? && id in s.users && s.users[id].active && !s.users[id].deleted
  {}

  /** The rows of a family that were unrevoked end revoked as a replay at the call's instant. */
  lemma ReplayWrites(s: State, c: nat)
    requires CallOf(s, c).RevokingReplay?
    ensures var f, t := CallOf(s, c).row.family, Do(s, RevokeReplay(c));
            Revokes(s.rows, t.rows, (set h | h in s.rows && s.rows[h].family == f), Replay, Unix(CallOf(s, c).now))
  {
    RevokeFamilyMeans(s.rows, CallOf(s, c).row.family, Replay, Unix(CallOf(s, c).now));
  }

  // ----- Over whole runs -----

  /** The account of the user that client `c`'s call is about to check is usable. */
  predicate MeetsActive(s: State, c: nat) {
    && (CallOf(s, c).CheckingUser? || CallOf(s, c).ServingGrace?)
    && CallOf(s, c).row.user in s.users
    && s.users[CallOf(s, c).row.user].active && !s.users[CallOf(s, c).row.user].deleted
  }

  /** Step `k` of the run checks the user of client `c`'s call and finds a usable account. */
  ghost predicate ChecksActive(s: State, steps: seq<Step>, k: int, c: nat) {
    && 0 <= k < |steps| && Legal(s, steps[..k])
    && (steps[k].CheckUser? || steps[k].ServeGrace?) && steps[k].c == c
    && MeetsActive(Exec(s, steps[..k]), c)
  }

  /** The call is past its user check, or has redeemed a token. */
  predicate PastCheck(call: Call) {
    call.Rotating? || (call.Idle? && call.result.Some?)
  }

  /** Only a passed user check gets a call there. */
  lemma StepPastCheck(s: State, step: Step, c: nat)
    requires Enabled(s, step) && PastCheck(CallOf(Do(s, step), c)) && !PastCheck(CallOf(s, c))
    ensures (step.CheckUser? || step.ServeGrace?) && step.c == c
    ensures MeetsActive(s, c)
  {
    if Actor(step) != Some(c) { OtherStepKeepsCall(s, step, c); }
  }

  /** Whatever runs, a call that was not past the check and ends with a redemption, or is
      about to rotate, met an active and undeleted account at a check of its own. */
  lemma {:induction false} RedeemingNeedsActive(s: State, steps: seq<Step>, c: nat) returns (k: nat)
    requires Legal(s, steps) && !PastCheck(CallOf(s, c)) && PastCheck(CallOf(Exec(s, steps), c))
    ensures ChecksActive(s, steps, k, c)
  {
    var n := |steps| - 1;
    var prefix := steps[..n];
    if PastCheck(CallOf(Exec(s, prefix), c)) {
      k := RedeemingNeedsActive(s, prefix, c);
      assert prefix[..k] == steps[..k];
    } else {
      StepPastCheck(Exec(s, prefix), steps[n], c);
      k := n;
    }
  }

  /** The same from the `b`-th step of a run on. */
  lemma RedeemedSince(s: State, steps: seq<Step>, b: nat, c: nat) returns (k: nat)
    requires Legal(s, steps) && b <= |steps| && Legal(s, steps[..b])
    requires !PastCheck(CallOf(Exec(s, steps[..b]), c)) && PastCheck(CallOf(Exec(s, steps), c))
    ensures b <= k && ChecksActive(s, steps, k, c)
  {
    var first, rest := steps[..b], steps[b..];
    assert steps == first + rest;
    LegalSplit(s, first, rest);
    var j := RedeemingNeedsActive(Exec(s, first), rest, c);
    k := b + j;
    assert steps[..k] == first + rest[..j];
    LegalJoin(s, first, rest[..j]);
  }

  /** A usable account was met by client `c` after the first `b` steps. */
  ghost predicate MetActiveSince(s: State, steps: seq<Step>, b: nat, c: nat) {
    exists k :: b <= k && ChecksActive(s, steps, k, c)
  }
}
