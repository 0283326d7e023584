/** The auth use case as imperative code: Login, Refresh and Logout run their statements
    against the session table while other calls interleave between any two of them. The
    ghost `trail` records every atomic action as a step of the protocol, so each call is
    shown to be a legal part of a protocol run, and the protocol's theorems apply to it. */
module AuthServer {
  import opened Options
  import opened Sessions
  import opened AuthProtocol
  import opened AuthInvariant
  import opened AuthSteps
  import opened AuthMeaning
  import opened Randomness

  datatype AuthTokens = AuthTokens(refreshToken: Token, accessExpiresAt: int, refreshExpiresAt: int)

  datatype AuthError = InvalidCredentials | InvalidRefreshToken | Internal

  /** Which outcomes a call meets: whether its cleanup, session lookup, user lookup, signing
      and generating of tokens, writing statement, family revocation and opening of a sealed
      token succeed. */
  datatype Weather =
    Weather(cleans: bool, finds: bool, readsUser: bool, signs: bool, writes: bool, revokes: bool, opens: bool)

  function RowOf(rows: Table, h: Hash): Option<Row> {
    if h in rows then Some(rows[h]) else None
  }

  /** Step `at` of the trail is the lookup of client `c`, with the row the table then held. */
  ghost predicate Saw(start: State, trail: seq<Step>, at: nat, c: nat, token: Token, now: int, found: Option<Row>) {
    && at < |trail| && trail[at] == FindSession(c) && Legal(start, trail[..at])
    && CallOf(Exec(start, trail[..at]), c) == Finding(token, now)
    && found == RowOf(Exec(start, trail[..at]).rows, HashOf(token))
  }

  lemma SawStays(start: State, a: seq<Step>, b: seq<Step>, at: nat, c: nat, token: Token, now: int, found: Option<Row>)
    requires Saw(start, a, at, c, token, now, found) && a <= b
    ensures Saw(start, b, at, c, token, now, found)
  {
    assert a[..at] == b[..at];
  }

  /** Step `at` of the trail captures the instant of client `c`'s login from the clock. */
  ghost predicate Captured(start: State, trail: seq<Step>, at: nat, c: nat, now: int) {
    && at < |trail| && trail[at] == StartSession(c) && Legal(start, trail[..at])
    && now == Exec(start, trail[..at]).clock
  }

  lemma CapturedStays(start: State, a: seq<Step>, b: seq<Step>, at: nat, c: nat, now: int)
    requires Captured(start, a, at, c, now) && a <= b
    ensures Captured(start, b, at, c, now)
  {
    assert a[..at] == b[..at];
  }

  /** What a call does and answers after its lookup, by the branches on the row it found. */
  ghost predicate Follows(rest: seq<Step>, c: nat, found: Option<Row>, now: int, w: Weather,
                          r: Result<AuthTokens, AuthError>) {
    match found
    case None => rest == [] && r == Err(InvalidRefreshToken)
    case Some(row) =>
      if row.revokedAt.Some? then
        if Servable(row, Unix(now)) then
          || (rest == [ServeGrace(c, w.opens)] && (r.Ok? || r == Err(InvalidRefreshToken)))
          || (rest == [Abort(c)] && r == Err(Internal) && !(w.readsUser && w.signs))
        else rest == [if w.revokes then RevokeReplay(c) else Abort(c)] && r == Err(InvalidRefreshToken)
      else if row.expiresAt <= Unix(now) then rest == [] && r == Err(InvalidRefreshToken)
      else LiveFollows(rest, c, w, r)
  }

  /** The same for a live row: the user check, and then the rotation. */
  ghost predicate LiveFollows(rest: seq<Step>, c: nat, w: Weather, r: Result<AuthTokens, AuthError>) {
    || (rest == [Abort(c)] && r == Err(Internal) && !w.readsUser)
    || (|rest| > 0 && rest[0].CheckUser? && rest[0].c == c
        && (|| (rest[1..] == [] && r == Err(InvalidRefreshToken))
            || (rest[1..] == [Abort(c)] && r == Err(Internal) && !(w.signs && w.writes))
            || (rest[1..] == [RotateSession(c)] && (r.Ok? || r == Err(InvalidRefreshToken)))))
  }

  /** The steps of client `c` on a trail, in order. */
  ghost function Own(trail: seq<Step>, c: nat): seq<Step> {
    if trail == [] then []
    else
      var n := |trail| - 1;
      Own(trail[..n], c) + (if Actor(trail[n]) == Some(c) then [trail[n]] else [])
  }

  lemma {:induction false} OthersKeepOwn(before: seq<Step>, gained: seq<Step>, c: nat)
    requires ByOthers(gained, c)
    ensures Own(before + gained, c) == Own(before, c)
  {
    if gained == [] {
      assert before + gained == before;
    } else {
      var n := |gained| - 1;
      assert (before + gained)[..|before| + n] == before + gained[..n];
      OthersKeepOwn(before, gained[..n], c);
    }
  }

  class Server {
    const refreshTTL: int
    const accessTTL: int
    const sessions: SessionTable
    var users: map<nat, User>
    var clock: int
    var drawn: set<nat>
    var families: set<nat>
    ghost const start: State
    ghost var trail: seq<Step>

    /** The protocol state this server is in. */
    ghost function World(): State
      requires Legal(start, trail)
      reads this
    {
      Exec(start, trail)
    }

    ghost predicate Mirrors(s: State)
      reads this, sessions
    {
      && s.rows == sessions.rows && s.users == users && s.clock == clock
      && s.drawn == drawn && s.families == families && s.ttl == refreshTTL
    }

    ghost predicate Valid()
      reads this, sessions
    {
      && start == Initial(refreshTTL, start.clock, start.users)
      && Legal(start, trail)
      && Mirrors(World())
    }

    lemma ValidInv()
      requires Valid()
      ensures Inv(World()) && Reachable(World())
    {
      RunKeeps(start, trail);
    }

    /** What a call is about to insert collides with nothing stored. */
    lemma ReadyToStore(c: nat)
      requires Valid() && (CallOf(World(), c).Rotating? || CallOf(World(), c).Creating?)
      ensures HashOf(Minted(CallOf(World(), c).mint)) !in sessions.rows
      ensures CallOf(World(), c).Creating? ==>
                forall h | h in sessions.rows :: sessions.rows[h].family != CallOf(World(), c).family
    {
      ValidInv();
      MintUnstored(World(), c);
      if CallOf(World(), c).Creating? { FamilyUnused(World(), c); }
    }

    constructor (refreshTTL: int, accessTTL: int, users: map<nat, User>, clock: int)
      ensures Valid() && trail == [] && fresh(sessions)
      ensures this.refreshTTL == refreshTTL && this.users == users && this.clock == clock && sessions.rows == map[]
    {
      this.refreshTTL := refreshTTL;
      this.accessTTL := accessTTL;
      this.users := users;
      this.clock := clock;
      drawn := {};
      families := {};
      sessions := new SessionTable();
      start := Initial(refreshTTL, clock, users);
      trail := [];
    }

    /** Appends a step whose effect on the database has just been carried out. */
    ghost method Record(c: nat, step: Step)
      requires start == Initial(refreshTTL, start.clock, start.users)
      requires Legal(start, trail) && Enabled(World(), step) && Mirrors(Do(World(), step)) && Actor(step) == Some(c)
      modifies this`trail
      ensures Valid() && trail == old(trail) + [step] && Own(trail, c) == old(Own(trail, c)) + [step]
      ensures World() == Do(old(World()), step)
    {
      LegalAppend(start, trail, step);
      trail := trail + [step];
    }

    /** Whatever other calls do between two statements of client `c`. Callers know only this
        contract: any number of protocol steps of other clients may have been taken. */
    method Yield(ghost c: nat)
      requires Valid()
      modifies this, sessions
      ensures Valid() && old(trail) <= trail && ByOthers(trail[|old(trail)|..], c)
    {
    }

    method Interleave(ghost c: nat)
      requires Valid()
      modifies this, sessions
      ensures Valid() && old(trail) <= trail && Own(trail, c) == old(Own(trail, c))
      ensures CallOf(World(), c) == old(CallOf(World(), c))
    {
      ghost var before := trail;
      Yield(c);
      ghost var gained := trail[|before|..];
      assert trail == before + gained;
      LegalSplit(start, before, gained);
      OthersKeepCall(Exec(start, before), gained, c);
      OthersKeepOwn(before, gained, c);
    }

    /** Refresh. Its own actions are, in order, the capture of the instant, the cleanup, the
        lookup, and then those that the row found by the lookup prescribes; an internal error
        is answered only where a lookup, a signing or a write failed. The result is the one
        the protocol assigns to the call. */
    method Refresh(ghost c: nat, token: Token, weather: Weather)
      returns (r: Result<AuthTokens, AuthError>, ghost now: int, ghost found: Option<Row>, ghost at: nat,
          ghost rest: seq<Step>)
      requires Valid() && CallOf(World(), c).Idle? && Presentable(World(), token)
      modifies this, sessions
      ensures Valid() && old(trail) <= trail
      ensures token == Foreign("") ==> r == Err(InvalidRefreshToken) && trail == old(trail)
      ensures token != Foreign("") ==> Returned(CallOf(World(), c), token, r)
      ensures r.Ok? ==> MetActiveSince(start, trail, |old(trail)|, c)
      ensures token != Foreign("") && !weather.finds ==>
                && Own(trail, c) == old(Own(trail, c)) + [BeginRefresh(c, token), Cleanup(c, weather.cleans), Abort(c)]
                && r == Err(Internal)
      ensures token != Foreign("") && weather.finds ==>
                && Own(trail, c) == old(Own(trail, c)) + [BeginRefresh(c, token), Cleanup(c, weather.cleans),
                      FindSession(c)] + rest
                && Saw(start, trail, at, c, token, now, found)
                && Follows(rest, c, found, now, weather, r)
    {
      now, found, at, rest := 0, None, 0, [];
      if token == Foreign("") {
        return Err(InvalidRefreshToken), now, found, at, rest;
      }
      r, now, found, at, rest := RefreshPresented(c, token, weather);
    }

    method RefreshPresented(ghost c: nat, token: Token, weather: Weather)
      returns (r: Result<AuthTokens, AuthError>, ghost now: int, ghost found: Option<Row>, ghost at: nat,
          ghost rest: seq<Step>)
      requires Valid() && CallOf(World(), c).Idle? && Presentable(World(), token)
      modifies this, sessions
      ensures Valid() && old(trail) <= trail
      ensures Returned(CallOf(World(), c), token, r)
      ensures r.Ok? ==> MetActiveSince(start, trail, |old(trail)|, c)
      ensures !weather.finds ==>
                && Own(trail, c) == old(Own(trail, c)) + [BeginRefresh(c, token), Cleanup(c, weather.cleans), Abort(c)]
                && r == Err(Internal)
      ensures weather.finds ==>
                && Own(trail, c) == old(Own(trail, c)) + [BeginRefresh(c, token), Cleanup(c, weather.cleans),
                      FindSession(c)] + rest
                && Saw(start, trail, at, c, token, now, found)
                && Follows(rest, c, found, now, weather, r)
    {
      var instant := Prepare(c, token, weather.cleans);
      now := instant;
      if !weather.finds {
        Record(c, Abort(c));
        return Err(Internal), now, None, 0, [];
      }
      r, found, at, rest := FindAndDecide(c, token, instant, weather);
    }

    /** The lookup and what follows it. */
    method FindAndDecide(ghost c: nat, token: Token, now: int, weather: Weather)
      returns (r: Result<AuthTokens, AuthError>, ghost found: Option<Row>, ghost at: nat, ghost rest: seq<Step>)
      requires Valid() && CallOf(World(), c) == Finding(token, now)
      modifies this, sessions
      ensures Valid() && old(trail) <= trail && Own(trail, c) == old(Own(trail, c)) + [FindSession(c)] + rest
      ensures Returned(CallOf(World(), c), token, r)
      ensures Saw(start, trail, at, c, token, now, found)
      ensures Follows(rest, c, found, now, weather, r)
      ensures r.Ok? ==> MetActiveSince(start, trail, |old(trail)|, c)
    {
      at, rest := |trail|, [];
      ghost var before := trail;
      var row := LookUp(c, token, now);
      found := row;
      if row.None? {
        return Err(InvalidRefreshToken), found, at, rest;
      }
      ghost var looked := trail;
      r, rest := Decide(c, token, row.value, now, weather);
      SawStays(start, looked, trail, at, c, token, now, found);
      if r.Ok? {
        assert trail[..|before|] == before;
        ghost var k := RedeemedSince(start, trail, |before|, c);
      }
    }

    /** Captures the instant and cleans up; others may act before the lookup. */
    method Prepare(ghost c: nat, token: Token, cleans: bool) returns (now: int)
      requires Valid() && CallOf(World(), c).Idle? && Presentable(World(), token)
      modifies this, sessions
      ensures Valid() && old(trail) <= trail
      ensures Own(trail, c) == old(Own(trail, c)) + [BeginRefresh(c, token), Cleanup(c, cleans)]
      ensures CallOf(World(), c) == Finding(token, now)
    {
      now := Begin(c, token);
      Interleave(c);
      CleanUp(c, now, cleans);
      Interleave(c);
    }

    /** The branches on the row that was found. */
    method Decide(ghost c: nat, token: Token, row: Row, now: int, weather: Weather)
      returns (r: Result<AuthTokens, AuthError>, ghost rest: seq<Step>)
      requires Valid() && CallOf(World(), c) == Classify(token, now, row)
      modifies this, sessions
      ensures Valid() && old(trail) <= trail && Own(trail, c) == old(Own(trail, c)) + rest
      ensures Returned(CallOf(World(), c), token, r)
      ensures Follows(rest, c, Some(row), now, weather, r)
    {
      Interleave(c);
      if row.revokedAt.Some? {
        if row.reason == Some(Rotated) && row.graceUntil.Some? && row.graceUntil.value >= Unix(now) {
          r, rest := ServeGraceWindow(c, token, row, now, weather);
          return;
        }
        RevokeFamilyOf(c, token, row, now, weather);
        return Err(InvalidRefreshToken), [if weather.revokes then RevokeReplay(c) else Abort(c)];
      }
      if row.expiresAt <= Unix(now) {
        return Err(InvalidRefreshToken), [];
      }
      r, rest := RotateLive(c, token, row, now, weather);
    }

    /** A live session: check the user, sign and generate, rotate. */
    method RotateLive(ghost c: nat, token: Token, row: Row, now: int, weather: Weather)
      returns (r: Result<AuthTokens, AuthError>, ghost rest: seq<Step>)
      requires Valid() && CallOf(World(), c) == CheckingUser(token, now, row)
      modifies this, sessions
      ensures Valid() && old(trail) <= trail && Own(trail, c) == old(Own(trail, c)) + rest
      ensures Returned(CallOf(World(), c), token, r)
      ensures LiveFollows(rest, c, weather, r)
    {
      if !weather.readsUser {
        Record(c, Abort(c));
        return Err(Internal), [Abort(c)];
      }
      var mint := Draw(drawn);
      var usable := ReadUser(c, token, row, now, mint);
      if !usable {
        return Err(InvalidRefreshToken), [CheckUser(c, mint)];
      }
      Interleave(c);
      r := SignAndRotate(c, token, row, now, mint, weather);
      rest := [CheckUser(c, mint)] + [if weather.signs && weather.writes then RotateSession(c) else Abort(c)];
    }

    method SignAndRotate(ghost c: nat, token: Token, ghost row: Row, now: int, mint: nat, weather: Weather)
      returns (r: Result<AuthTokens, AuthError>)
      requires Valid() && CallOf(World(), c) == Rotating(token, now, row, mint)
      modifies this`trail, sessions
      ensures Valid() && old(trail) <= trail && Returned(CallOf(World(), c), token, r)
      ensures Own(trail, c) == old(Own(trail, c)) + [if weather.signs && weather.writes then RotateSession(c)
                else Abort(c)]
      ensures if weather.signs && weather.writes then r.Ok? || r == Err(InvalidRefreshToken) else r == Err(Internal)
    {
      if !weather.signs || !weather.writes {
        Record(c, Abort(c));
        return Err(Internal);
      }
      r := RotateOnce(c, token, row, now, mint);
    }

    method Begin(ghost c: nat, token: Token) returns (now: int)
      requires Valid() && CallOf(World(), c).Idle? && Presentable(World(), token)
      modifies this`trail
      ensures Valid() && old(trail) <= trail && Own(trail, c) == old(Own(trail, c)) + [BeginRefresh(c, token)]
      ensures CallOf(World(), c) == Cleaning(token, now) && now == clock
    {
      now := clock;
      Record(c, BeginRefresh(c, token));
    }

    method CleanUp(ghost c: nat, now: int, cleans: bool)
      requires Valid()
      requires CallOf(World(), c).Cleaning? || CallOf(World(), c).LoginCleaning?
      requires CallOf(World(), c).now == now
      modifies this`trail, sessions
      ensures Valid() && old(trail) <= trail && Own(trail, c) == old(Own(trail, c)) + [Cleanup(c, cleans)]
      ensures CallOf(World(), c) == if old(CallOf(World(), c)).Cleaning? then
                Finding(old(CallOf(World(), c)).token, now)
                                    else LoginDrawing(old(CallOf(World(), c)).user, now)
    {
      if cleans {
        sessions.DeleteExpiredRefreshSessions(Unix(now));
      }
      Record(c, Cleanup(c, cleans));
    }

    method LookUp(ghost c: nat, token: Token, now: int) returns (found: Option<Row>)
      requires Valid() && CallOf(World(), c) == Finding(token, now)
      modifies this`trail
      ensures Valid() && old(trail) <= trail && Own(trail, c) == old(Own(trail, c)) + [FindSession(c)]
      ensures CallOf(World(), c) == if found.Some? then Classify(token, now, found.value) else Idle(None)
      ensures Saw(start, trail, |old(trail)|, c, token, now, found)
    {
      found := sessions.FindRefreshSession(HashOf(token));
      ghost var before := trail;
      Record(c, FindSession(c));
      assert trail[..|before|] == before;
    }

    method RevokeFamilyOf(ghost c: nat, ghost token: Token, row: Row, now: int, weather: Weather)
      requires Valid() && CallOf(World(), c) == RevokingReplay(token, now, row)
      modifies this`trail, sessions
      ensures Valid() && old(trail) <= trail && CallOf(World(), c) == Idle(None)
      ensures Own(trail, c) == old(Own(trail, c)) + [if weather.revokes then RevokeReplay(c) else Abort(c)]
    {
      if weather.revokes {
        sessions.RevokeRefreshSessionFamily(row.family, Replay, Unix(now));
        Record(c, RevokeReplay(c));
      } else {
        Record(c, Abort(c));
      }
    }

    method ReadUser(ghost c: nat, ghost token: Token, row: Row, ghost now: int, mint: nat) returns (usable: bool)
      requires Valid() && CallOf(World(), c) == CheckingUser(token, now, row) && mint !in drawn
      modifies this
      ensures Valid() && old(trail) <= trail && Own(trail, c) == old(Own(trail, c)) + [CheckUser(c, mint)]
      ensures usable <==> row.user in old(users) && old(users)[row.user].active && !old(users)[row.user].deleted
      ensures CallOf(World(), c) == if usable then Rotating(token, now, row, mint) else Idle(None)
    {
      usable := Usable(users, row.user);
      if usable {
        drawn := drawn + {mint};
      }
      Record(c, CheckUser(c, mint));
    }

    method RotateOnce(ghost c: nat, token: Token, ghost row: Row, now: int, mint: nat)
      returns (r: Result<AuthTokens, AuthError>)
      requires Valid() && CallOf(World(), c) == Rotating(token, now, row, mint)
      modifies this`trail, sessions
      ensures Valid() && old(trail) <= trail && Own(trail, c) == old(Own(trail, c)) + [RotateSession(c)]
      ensures Returned(CallOf(World(), c), token, r)
      ensures r.Ok? <==> Rotate(old(sessions.rows), HashOf(token), Replacement(refreshTTL, now, mint), Unix(now)).Ok?
      ensures r.Err? ==> r.error == InvalidRefreshToken
    {
      ReadyToStore(c);
      var error := sessions.RotateRefreshSession(HashOf(token), Replacement(refreshTTL, now, mint), Unix(now));
      Record(c, RotateSession(c));
      if error == Some(SessionNotFound) {
        return Err(InvalidRefreshToken);
      }
      if error != None {
        return Err(Internal);
      }
      return Ok(AuthTokens(Minted(mint), now + accessTTL, now + refreshTTL));
    }

    /** What a finished call hands back, in terms of the protocol's record of it. */
    ghost predicate Returned(call: Call, token: Token, r: Result<AuthTokens, AuthError>) {
      && call.Idle?
      && (r.Ok? <==> call.result.Some?)
      && (r.Ok? ==>
            && call.result.value.presented == token
            && call.result.value.refresh == r.value.refreshToken
            && call.result.value.refreshExpires == r.value.refreshExpiresAt
            && call.result.value.at + accessTTL == r.value.accessExpiresAt)
    }

    method ServeGraceWindow(ghost c: nat, token: Token, row: Row, now: int, weather: Weather)
      returns (r: Result<AuthTokens, AuthError>, ghost rest: seq<Step>)
      requires Valid() && CallOf(World(), c) == ServingGrace(token, now, row)
      modifies this`trail
      ensures Valid() && old(trail) <= trail && Own(trail, c) == old(Own(trail, c)) + rest
      ensures Returned(CallOf(World(), c), token, r)
      ensures || (rest == [ServeGrace(c, weather.opens)]
                  && r == if row.user in users && users[row.user].active && !users[row.user].deleted
                             && weather.opens && row.sealed.Some?
                          then Ok(AuthTokens(row.sealed.value.token, now + accessTTL, row.expiresAt * SECOND))
                          else Err(InvalidRefreshToken))
              || (rest == [Abort(c)] && r == Err(Internal) && !(weather.readsUser && weather.signs))
    {
      if !weather.readsUser {
        Record(c, Abort(c));
        return Err(Internal), [Abort(c)];
      }
      if !Usable(users, row.user) || !weather.opens || row.sealed.None? {
        Record(c, ServeGrace(c, weather.opens));
        return Err(InvalidRefreshToken), [ServeGrace(c, weather.opens)];
      }
      if !weather.signs {
        Record(c, Abort(c));
        return Err(Internal), [Abort(c)];
      }
      Record(c, ServeGrace(c, true));
      return Ok(AuthTokens(row.sealed.value.token, now + accessTTL, row.expiresAt * SECOND)), [ServeGrace(c, true)];
    }

    /** Login. `filled` says that e-mail and password are not empty, `user` is the account of
        the e-mail and `verified` whether the password opens its hash. On success the
        returned token's row is the only one of a family of its own, and both expiries count
        from the instant `now` that the call's step `at` captured from the clock. */
    method Login(ghost c: nat, filled: bool, user: nat, verified: bool, weather: Weather)
      returns (r: Result<AuthTokens, AuthError>, ghost now: int, ghost at: nat)
      requires Valid() && CallOf(World(), c).Idle?
      modifies this, sessions
      ensures Valid() && old(trail) <= trail && CallOf(World(), c).Idle?
      ensures r == Err(InvalidCredentials) <==>
                !filled || (weather.readsUser && !(old(MayLogIn(user)) && verified))
      ensures r == Err(Internal) <==>
                filled && (!weather.readsUser
                    || (old(MayLogIn(user)) && verified && !(weather.signs && weather.writes)))
      ensures r != Err(InvalidRefreshToken)
      ensures r == Err(InvalidCredentials) ==> trail == old(trail)
      ensures r.Ok? ==>
                && |old(trail)| <= at && Captured(start, trail, at, c, now)
                && r.value.accessExpiresAt == now + accessTTL && r.value.refreshExpiresAt == now + refreshTTL
                && NewLogin(r.value.refreshToken, user, now)
    {
      now, at := 0, 0;
      if !filled {
        return Err(InvalidCredentials), now, at;
      }
      if !weather.readsUser {
        return Err(Internal), now, at;
      }
      if !Usable(users, user) || !verified {
        return Err(InvalidCredentials), now, at;
      }
      r, now, at := IssueTokens(c, user, weather);
    }

    /** The account is stored, active and not deleted. */
    predicate MayLogIn(user: nat)
      reads this
    {
      user in users && users[user].active && !users[user].deleted
    }

    /** issueTokens, for a verified user. */
    method IssueTokens(ghost c: nat, user: nat, weather: Weather)
      returns (r: Result<AuthTokens, AuthError>, ghost now: int, ghost at: nat)
      requires Valid() && CallOf(World(), c).Idle? && Usable(users, user)
      modifies this, sessions
      ensures Valid() && old(trail) <= trail && CallOf(World(), c).Idle?
      ensures if weather.signs && weather.writes then r.Ok? else r == Err(Internal)
      ensures |old(trail)| <= at && Captured(start, trail, at, c, now)
      ensures r.Ok? ==>
                && r.value.accessExpiresAt == now + accessTTL && r.value.refreshExpiresAt == now + refreshTTL
                && NewLogin(r.value.refreshToken, user, now)
    {
      var instant;
      instant, at := StartLogin(c, user, weather.cleans);
      now := instant;
      ghost var before := trail;
      r := CompleteLogin(c, user, instant, weather);
      CapturedStays(start, before, trail, at, c, now);
    }

    /** The rest of issueTokens: sign, generate, insert. */
    method CompleteLogin(ghost c: nat, user: nat, now: int, weather: Weather) returns (r: Result<AuthTokens, AuthError>)
      requires Valid() && CallOf(World(), c) == LoginDrawing(user, now)
      modifies this, sessions
      ensures Valid() && old(trail) <= trail && CallOf(World(), c).Idle?
      ensures if weather.signs && weather.writes then r.Ok? else r == Err(Internal)
      ensures r.Ok? ==>
                && r.value.accessExpiresAt == now + accessTTL && r.value.refreshExpiresAt == now + refreshTTL
                && NewLogin(r.value.refreshToken, user, now)
    {
      if !weather.signs {
        Record(c, Abort(c));
        return Err(Internal);
      }
      var mint, family := DrawIdentifiers(c, user, now);
      Interleave(c);
      if !weather.writes {
        Record(c, Abort(c));
        return Err(Internal);
      }
      r := Insert(c, user, now, mint, family);
    }

    /** The start of issueTokens: the instant and the cleanup. */
    method StartLogin(ghost c: nat, user: nat, cleans: bool) returns (now: int, ghost at: nat)
      requires Valid() && CallOf(World(), c).Idle? && Usable(users, user)
      modifies this, sessions
      ensures Valid() && old(trail) <= trail && CallOf(World(), c) == LoginDrawing(user, now)
      ensures |old(trail)| <= at && Captured(start, trail, at, c, now)
    {
      Record(c, BeginLogin(c, user));
      Interleave(c);
      at := |trail|;
      now := CaptureInstant(c, user);
      ghost var captured := trail;
      CleanUpForLogin(c, user, now, cleans);
      CapturedStays(start, captured, trail, at, c, now);
    }

    method CleanUpForLogin(ghost c: nat, ghost user: nat, now: int, cleans: bool)
      requires Valid() && CallOf(World(), c) == LoginCleaning(user, now)
      modifies this, sessions
      ensures Valid() && old(trail) <= trail && CallOf(World(), c) == LoginDrawing(user, now)
    {
      Interleave(c);
      CleanUp(c, now, cleans);
      Interleave(c);
    }

    method CaptureInstant(ghost c: nat, ghost user: nat) returns (now: int)
      requires Valid() && CallOf(World(), c) == LoginVerified(user)
      modifies this`trail
      ensures Valid() && old(trail) <= trail && CallOf(World(), c) == LoginCleaning(user, now) && now == clock
      ensures Captured(start, trail, |old(trail)|, c, now)
    {
      now := clock;
      ghost var before := trail;
      Record(c, StartSession(c));
      assert trail[..|before|] == before;
    }

    /** `token` has an unrevoked row for `user`, counted from `now` and alone in its family. */
    ghost predicate NewLogin(token: Token, user: nat, now: int)
      reads sessions
    {
      && HashOf(token) in sessions.rows
      && var row := sessions.rows[HashOf(token)];
      && row.user == user && row.revokedAt.None? && row.graceUntil.None?
      && row.createdAt == Unix(now) && row.expiresAt == Unix(now + refreshTTL)
      && (forall h | h in sessions.rows && sessions.rows[h].family == row.family :: h == HashOf(token))
    }

    method DrawIdentifiers(ghost c: nat, ghost user: nat, ghost now: int) returns (mint: nat, family: nat)
      requires Valid() && CallOf(World(), c) == LoginDrawing(user, now)
      modifies this
      ensures Valid() && old(trail) <= trail && CallOf(World(), c) == Creating(user, now, mint, family)
    {
      mint := Draw(drawn);
      family := Draw(families);
      drawn := drawn + {mint};
      families := families + {family};
      Record(c, DrawSession(c, mint, family));
    }

    method Insert(ghost c: nat, user: nat, now: int, mint: nat, family: nat) returns (r: Result<AuthTokens, AuthError>)
      requires Valid() && CallOf(World(), c) == Creating(user, now, mint, family)
      modifies this`trail, sessions
      ensures Valid() && old(trail) <= trail && CallOf(World(), c).Idle?
      ensures r == Ok(AuthTokens(Minted(mint), now + accessTTL, now + refreshTTL)) && NewLogin(Minted(mint), user, now)
    {
      ReadyToStore(c);
      var row := NewRow(user, family, Unix(now + refreshTTL), Unix(now));
      var error := sessions.CreateRefreshSession(HashOf(Minted(mint)), row);
      Record(c, CreateSession(c));
      if error != None {
        return Err(Internal);
      }
      return Ok(AuthTokens(Minted(mint), now + accessTTL, now + refreshTTL));
    }

    /** Logout: one statement; an empty token is a no-op. */
    method Logout(token: Token)
      requires Valid() && Presentable(World(), token)
      modifies this, sessions
      ensures Valid()
      ensures token == Foreign("") ==> trail == old(trail) && sessions.rows == old(sessions.rows)
      ensures token != Foreign("") ==>
                && trail == old(trail) + [Step.Logout(token, Unix(clock))]
                && sessions.rows == RevokeOne(old(sessions.rows), HashOf(token), Reason.Logout, Unix(clock))
    {
      if token == Foreign("") {
        return;
      }
      ghost var step := Step.Logout(token, Unix(clock));
      sessions.RevokeRefreshSession(HashOf(token), Reason.Logout, Unix(clock));
      LegalAppend(start, trail, step);
      trail := trail + [step];
    }
  }

  /** The token a call is about to store is not in the table. */
  lemma MintUnstored(s: State, c: nat)
    requires Inv(s) && (CallOf(s, c).Rotating? || CallOf(s, c).Creating?)
    ensures HashOf(Minted(CallOf(s, c).mint)) !in s.rows
  {
    assert CallOk(s, CallOf(s, c));
    RowsIssued(s);
  }

  /** No stored row has the family a login is about to use. */
  lemma FamilyUnused(s: State, c: nat)
    requires Inv(s) && CallOf(s, c).Creating?
    ensures forall h | h in s.rows :: s.rows[h].family != CallOf(s, c).family
  {
    assert CallOk(s, CallOf(s, c));
    forall h | h in s.rows ensures s.rows[h].family != CallOf(s, c).family {
      assert RowOk(s, h) && IssueOk(s, h);
    }
  }
}
