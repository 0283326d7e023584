/** Every step keeps the invariant, so every reachable state has it. */
module AuthSteps {
  import opened Options
  import opened Sessions
  import opened AuthProtocol
  import opened AuthInvariant

  /** Ten seconds past an instant is exactly ten Unix seconds later. */
  lemma GraceDeadline(now: int)
    ensures Unix(now + GRACE_WINDOW) == Unix(now) + 10
  {
  }

  /** A row that was never revoked is the tail of its family's chain. */
  lemma UnrevokedIsTail(s: State, h: Hash)
    requires RowsOk(s) && h in s.rows && s.rows[h].revokedAt.None?
    ensures IsTail(s, h) && s.rows[h].replacedBy.None? && s.rows[h].sealed.None? && s.rows[h].graceUntil.None?
    ensures s.rows[h].family == s.ledger[h].family && s.rows[h].user == s.ledger[h].user
    ensures s.rows[h].expiresAt == s.ledger[h].expiresAt
  {
    assert RowOk(s, h);
  }

  lemma RowsIssued(s: State)
    requires RowsOk(s)
    ensures s.rows.Keys <= s.ledger.Keys
  {
    forall h | h in s.rows ensures h in s.ledger { assert RowOk(s, h); }
  }

  lemma LedgerDrawn(s: State)
    requires HistoryOk(s)
    ensures forall h | h in s.ledger :: h.token.Minted? && h.token.id in s.drawn
  {
    forall h | h in s.ledger ensures h.token.Minted? && h.token.id in s.drawn { assert IssueOk(s, h); }
  }

  /** The state after `child` was issued in family `f`, continuing the chain. */
  ghost predicate Issued(s: State, t: State, child: Hash, issue: Issue) {
    && t.ttl == s.ttl && t.clock == s.clock && t.drawn == s.drawn && t.families == s.families
    && child !in s.ledger && child.token.Minted? && child.token.id in s.drawn
    && issue.family in s.families
    && issue.minted <= s.clock && issue.expiresAt == Unix(issue.minted + s.ttl)
    && t.ledger == s.ledger[child := issue]
    && (if issue.family in s.chains then
          && 0 < issue.index == |s.chains[issue.family]|
          && t.chains == s.chains[issue.family := s.chains[issue.family] + [child]]
          && s.chains[issue.family][issue.index - 1] in s.ledger
          && s.ledger[s.chains[issue.family][issue.index - 1]].minted <= issue.minted
          && s.ledger[s.chains[issue.family][issue.index - 1]].user == issue.user
        else
          && issue.index == 0
          && t.chains == s.chains[issue.family := [child]])
    && s.redeemed <= t.redeemed
  }

  lemma IssuedLinks(s: State, t: State, child: Hash, issue: Issue, j: int, k: int)
    requires HistoryOk(s) && (issue.family in s.chains ==> |s.chains[issue.family]| > 0) && Issued(s, t, child, issue)
    requires 0 <= j <= k < |t.chains[issue.family]|
    ensures OrderedLinks(t, issue.family, j, k)
  {
    var f := issue.family;
    if f in s.chains {
      var last := issue.index - 1;
      assert OrderedLinks(s, f, last, last);
      if k <= last {
        assert OrderedLinks(s, f, j, k);
      } else if j <= last {
        assert OrderedLinks(s, f, j, last);
      }
    }
  }

  lemma HistoryIssued(s: State, t: State, child: Hash, issue: Issue)
    requires HistoryOk(s) && (issue.family in s.chains ==> |s.chains[issue.family]| > 0) && Issued(s, t, child, issue)
    ensures HistoryOk(t) && Extends(s, t)
  {
    forall h | h in t.ledger ensures IssueOk(t, h) {
      if h != child { assert IssueOk(s, h); }
    }
    forall f, j, k | f in t.chains && 0 <= j <= k < |t.chains[f]| ensures OrderedLinks(t, f, j, k) {
      if f == issue.family { IssuedLinks(s, t, child, issue, j, k); }
      else { assert OrderedLinks(s, f, j, k); }
    }
  }

  lemma CallsIssued(s: State, t: State, c: nat)
    requires CallsOk(s) && c in s.calls && Writing(s.calls[c])
    requires Extends(s, t) && c in t.calls && t.calls == s.calls[c := t.calls[c]]
    requires CallOk(t, t.calls[c]) && !Writing(t.calls[c])
    requires t.ledger.Keys == s.ledger.Keys + {HashOf(Minted(s.calls[c].mint))}
    requires t.chains.Keys <= s.chains.Keys + (if s.calls[c].Creating? then {s.calls[c].family} else {})
    ensures CallsOk(t)
  {
    forall d | d in t.calls ensures CallOk(t, t.calls[d]) {
      if d != c {
        assert CallOk(s, s.calls[d]) && Apart(s.calls[c], s.calls[d]);
        CallFrame(s, t, s.calls[d]);
      }
    }
  }

  /** What a login issues: the first link of a new family. */
  lemma CreateIssues(s: State, c: nat)
    requires Inv(s) && CallOf(s, c).Creating?
    ensures var call, t := CallOf(s, c), Do(s, CreateSession(c)); var child := HashOf(Minted(call.mint));
            && child in t.ledger && t.ledger[child].family == call.family && call.family !in s.chains
            && Issued(s, t, child, t.ledger[child])
            && t.rows == s.rows[child := NewRow(call.user, call.family, Unix(call.now + s.ttl), Unix(call.now))]
            && RowOk(t, child)
  {
    assert CallOk(s, CallOf(s, c));
    RowsIssued(s);
  }

  lemma CreateRowsOk(s: State, t: State, child: Hash)
    requires RowsOk(s) && Extends(s, t) && child in t.ledger && Issued(s, t, child, t.ledger[child])
    requires child in t.rows && t.rows == s.rows[child := t.rows[child]] && RowOk(t, child)
    requires t.ledger[child].family !in s.chains
    ensures RowsOk(t)
  {
    forall h | h in t.rows ensures RowOk(t, h) {
      if h != child {
        assert RowOk(s, h);
        RowCarried(s, t, h, t.ledger[child].family);
      }
    }
  }

  lemma CreateKeeps(s: State, c: nat)
    requires Inv(s) && CallOf(s, c).Creating?
    ensures Inv(Do(s, CreateSession(c))) && Extends(s, Do(s, CreateSession(c)))
  {
    var call := CallOf(s, c);
    var child := HashOf(Minted(call.mint));
    var t := Do(s, CreateSession(c));
    CreateIssues(s, c);
    HistoryIssued(s, t, child, t.ledger[child]);
    CreateRowsOk(s, t, child);
    CreateCallsOk(s, c);
    RedeemedUntouched(s, t);
  }

  lemma CreateCallsOk(s: State, c: nat)
    requires CallsOk(s) && CallOf(s, c).Creating? && Extends(s, Do(s, CreateSession(c)))
    requires HashOf(Minted(CallOf(s, c).mint)) !in s.rows
    ensures CallsOk(Do(s, CreateSession(c)))
  {
    CallsIssued(s, Do(s, CreateSession(c)), c);
  }

  /** A row outside the family that grew keeps its claims. */
  lemma RowCarried(s: State, t: State, h: Hash, grown: nat)
    requires h in s.rows && RowOk(s, h) && Extends(s, t) && s.rows.Keys <= t.rows.Keys && t.rows[h] == s.rows[h]
    requires s.rows[h].family != grown || s.rows[h].replacedBy.Some?
    requires forall f | f in s.chains && f != grown :: t.chains[f] == s.chains[f]
    ensures RowOk(t, h)
  {
    GraceExtends(s, t, h, s.rows[h]);
    if s.rows[h].replacedBy.Some? { SucceedsFrame(s, t, h, s.rows[h].replacedBy.value); }
  }

  /** The pending rotation of client `c` finds its row live. */
  predicate Wins(s: State, c: nat) {
    var call := CallOf(s, c);
    && call.Rotating?
    && Rotate(s.rows, HashOf(call.token), Replacement(s.ttl, call.now, call.mint), Unix(call.now)).Ok?
  }

  /** A family has one tail. */
  lemma TailUnique(s: State, g: Hash, h: Hash)
    requires g in s.ledger && h in s.ledger && IssueOk(s, g) && IssueOk(s, h)
    requires IsTail(s, g) && IsTail(s, h) && s.ledger[g].family == s.ledger[h].family
    ensures g == h
  {
  }

  /** What a successful rotation starts from. */
  lemma RotationStart(s: State, c: nat)
    requires Inv(s) && Wins(s, c)
    ensures var call := CallOf(s, c); var h := HashOf(call.token);
            && h in s.rows && IsTail(s, h) && s.rows[h].family in s.chains
            && IssueOk(s, h) && RowOk(s, h)
            && s.rows[h].replacedBy.None? && s.rows[h].sealed.None?
            && s.ledger[h].minted <= call.now <= s.clock && Unix(call.now) < s.rows[h].expiresAt
            && Unissued(s, call.mint)
            && Issued(s, Do(s, RotateSession(c)), HashOf(Minted(call.mint)),
                      Issue(s.rows[h].user, s.rows[h].family, Unix(call.now + s.ttl), call.now,
                          |s.chains[s.rows[h].family]|))
  {
    RotationFrom(s, c);
    RotationIssues(s, c);
  }

  /** The row a rotation starts from. */
  lemma RotationFrom(s: State, c: nat)
    requires Inv(s) && Wins(s, c)
    ensures var call := CallOf(s, c); var h := HashOf(call.token);
            && h in s.rows && IsTail(s, h) && s.rows[h].family in s.chains
            && IssueOk(s, h) && RowOk(s, h)
            && s.rows[h].replacedBy.None? && s.rows[h].sealed.None?
            && s.ledger[h].minted <= call.now <= s.clock && Unix(call.now) < s.rows[h].expiresAt
            && Unissued(s, call.mint)
  {
    var call := CallOf(s, c);
    assert CallOk(s, call);
    UnrevokedIsTail(s, HashOf(call.token));
    assert IssueOk(s, HashOf(call.token));
  }

  /** What it issues. */
  lemma RotationIssues(s: State, c: nat)
    requires Wins(s, c) && HistoryOk(s) && HashOf(CallOf(s, c).token) in s.rows && CallOf(s, c).now <= s.clock
    requires var h := HashOf(CallOf(s, c).token);
             && s.rows[h].family in s.chains && Unissued(s, CallOf(s, c).mint)
             && IsTail(s, h) && RowOk(s, h) && s.ledger[h].minted <= CallOf(s, c).now
    ensures var call := CallOf(s, c); var h := HashOf(call.token);
            Issued(s, Do(s, RotateSession(c)), HashOf(Minted(call.mint)),
                   Issue(s.rows[h].user, s.rows[h].family, Unix(call.now + s.ttl), call.now,
                       |s.chains[s.rows[h].family]|))
  {
  }

  lemma RotationSucceeds(s: State, c: nat)
    requires Inv(s) && Wins(s, c)
    ensures Succeeds(Do(s, RotateSession(c)), HashOf(CallOf(s, c).token), HashOf(Minted(CallOf(s, c).mint)))
  {
    RotationStart(s, c);
    var h, child, t := HashOf(CallOf(s, c).token), HashOf(Minted(CallOf(s, c).mint)), Do(s, RotateSession(c));
    NextIsIssued(s, t, h, child, t.ledger[child]);
  }

  /** What is issued after the tail of its family succeeds that tail. */
  lemma NextIsIssued(s: State, t: State, h: Hash, child: Hash, issue: Issue)
    requires Issued(s, t, child, issue) && IsTail(s, h) && s.ledger[h].family == issue.family
    ensures Succeeds(t, h, child)
  {}

  lemma RotatedRowOk(s: State, c: nat)
    requires Inv(s) && Wins(s, c)
    requires Extends(s, Do(s, RotateSession(c)))
    ensures RowOk(Do(s, RotateSession(c)), HashOf(CallOf(s, c).token))
    ensures Succeeds(Do(s, RotateSession(c)), HashOf(CallOf(s, c).token), HashOf(Minted(CallOf(s, c).mint)))
  {
    RotationFrom(s, c);
    RotationSucceeds(s, c);
    var call := CallOf(s, c);
    GraceDeadline(call.now);
    RotatedOk(s, Do(s, RotateSession(c)), HashOf(call.token), Replacement(s.ttl, call.now, call.mint), Unix(call.now));
  }

  /** A rotated row fits once its replacement is issued and stored. */
  lemma RotatedOk(s: State, t: State, h: Hash, next: Next, at: int)
    requires h in s.rows && RowOk(s, h) && h in t.rows && t.rows[h] == RotatedRow(s.rows[h], next, at)
    requires h in t.ledger && t.ledger[h] == s.ledger[h] && Succeeds(t, h, next.hash) && next.hash in t.rows
    requires HashOf(next.sealed.token) == next.hash && next.graceUntil < s.rows[h].expiresAt + 10
    ensures RowOk(t, h)
  {}

  lemma ReplacementRowOk(s: State, c: nat)
    requires Inv(s) && Wins(s, c)
    ensures RowOk(Do(s, RotateSession(c)), HashOf(Minted(CallOf(s, c).mint)))
  {
    RotationStart(s, c);
  }

  /** The rows a rotation did not write. */
  lemma RotationCarries(s: State, c: nat, g: Hash)
    requires Inv(s) && Wins(s, c)
    requires Extends(s, Do(s, RotateSession(c)))
    requires g in s.rows && g != HashOf(CallOf(s, c).token) && g != HashOf(Minted(CallOf(s, c).mint))
    ensures RowOk(Do(s, RotateSession(c)), g)
  {
    var h, t := HashOf(CallOf(s, c).token), Do(s, RotateSession(c));
    RotationStart(s, c);
    assert RowOk(s, g) && IssueOk(s, g);
    if s.rows[g].replacedBy.None? && s.rows[g].family == s.rows[h].family { TailUnique(s, g, h); }
    assert t.rows[g] == s.rows[g] && s.rows.Keys <= t.rows.Keys;
    RowCarried(s, t, g, s.rows[h].family);
  }

  lemma RotationRedeems(s: State, c: nat)
    requires Inv(s) && Wins(s, c)
    requires Extends(s, Do(s, RotateSession(c)))
    ensures RedeemedOk(Do(s, RotateSession(c)))
  {
    var t := Do(s, RotateSession(c));
    RotationStart(s, c);
    RotatedRowOk(s, c);
    forall r | r in t.redeemed ensures RedemptionOk(t, r) {
      if r in s.redeemed { RedeemedFrame(s, t, r); }
    }
  }

  lemma RotationRowsOk(s: State, c: nat)
    requires Inv(s) && Wins(s, c)
    requires Extends(s, Do(s, RotateSession(c)))
    ensures RowsOk(Do(s, RotateSession(c)))
  {
    var t := Do(s, RotateSession(c));
    RotatedRowOk(s, c);
    ReplacementRowOk(s, c);
    forall g | g in t.rows ensures RowOk(t, g) {
      if g != HashOf(CallOf(s, c).token) && g != HashOf(Minted(CallOf(s, c).mint)) { RotationCarries(s, c, g); }
    }
  }

  lemma RotationKeeps(s: State, c: nat)
    requires Inv(s) && Wins(s, c)
    ensures Inv(Do(s, RotateSession(c))) && Extends(s, Do(s, RotateSession(c)))
  {
    var t := Do(s, RotateSession(c));
    var child := HashOf(Minted(CallOf(s, c).mint));
    RotationStart(s, c);
    HistoryIssued(s, t, child, t.ledger[child]);
    RotationRowsOk(s, c);
    CallsIssued(s, t, c);
    RotationRedeems(s, c);
  }

  lemma RotateKeeps(s: State, c: nat)
    requires Inv(s) && CallOf(s, c).Rotating?
    ensures Inv(Do(s, RotateSession(c))) && Extends(s, Do(s, RotateSession(c)))
  {
    if !Wins(s, c) {
      MoveKeeps(s, Do(s, RotateSession(c)), c, Idle(None));
    } else {
      RotationKeeps(s, c);
    }
  }

  /** Steps that only move one program counter. */
  lemma MoveKeeps(s: State, t: State, c: nat, call: Call)
    requires Inv(s) && t == WithCall(s, c, call) && CallOk(t, call) && !Writing(call)
    ensures Inv(t) && Extends(s, t)
  {
    HistoryFrame(s, t);
    RowsUntouched(s, t);
    CallsFrame(s, t, c, call);
    RedeemedUntouched(s, t);
  }

  lemma DrawKeeps(s: State, t: State, c: nat, call: Call)
    requires Inv(s) && Writing(call) && call.mint !in s.drawn
    requires call.Creating? ==> call.family !in s.families
    requires t == WithCall(s, c, call).(drawn := s.drawn + {call.mint},
                                        families := if call.Creating? then s.families + {call.family} else s.families)
    requires call.Rotating? ==> TokenOk(s, call.token, call.now) && CopyOk(s, call.token, call.row)
    requires call.Creating? ==> call.now <= s.clock
    ensures Inv(t) && Extends(s, t)
  {
    HistoryFrame(s, t);
    RowsUntouched(s, t);
    LedgerDrawn(s);
    forall d | d in s.calls && d != c ensures Apart(call, s.calls[d]) && Apart(s.calls[d], call) {
      assert CallOk(s, s.calls[d]);
    }
    CallsFrame(s, t, c, call);
    RedeemedUntouched(s, t);
  }

  lemma CleanupKeeps(s: State, c: nat, succeeds: bool)
    requires Inv(s) && Enabled(s, Cleanup(c, succeeds))
    ensures Inv(Do(s, Cleanup(c, succeeds))) && Extends(s, Do(s, Cleanup(c, succeeds)))
  {
    var t := Do(s, Cleanup(c, succeeds));
    var call := CallOf(s, c);
    assert CallOk(s, call);
    HistoryFrame(s, t);
    if succeeds { RowsDeleted(s, t, Unix(call.now)); } else { RowsUntouched(s, t); }
    CallsFrame(s, t, c, t.calls[c]);
    RedeemedUntouched(s, t);
  }

  lemma ServeKeeps(s: State, c: nat, opens: bool)
    requires Inv(s) && Enabled(s, ServeGrace(c, opens))
    ensures Inv(Do(s, ServeGrace(c, opens))) && Extends(s, Do(s, ServeGrace(c, opens)))
  {
    var t := Do(s, ServeGrace(c, opens));
    var call := CallOf(s, c);
    assert CallOk(s, call);
    HistoryFrame(s, t);
    RowsUntouched(s, t);
    CallsFrame(s, t, c, t.calls[c]);
    ServeRedeems(s, c, opens);
  }

  /** What a grace redemption promises is within the bounds. */
  lemma ServeRedeems(s: State, c: nat, opens: bool)
    requires HistoryOk(s) && RedeemedOk(s) && Enabled(s, ServeGrace(c, opens)) && CallOk(s, CallOf(s, c))
    requires Extends(s, Do(s, ServeGrace(c, opens)))
    ensures RedeemedOk(Do(s, ServeGrace(c, opens)))
  {
    var t := Do(s, ServeGrace(c, opens));
    var call := CallOf(s, c);
    if call.row.sealed.Some? {
      ExpiryGrows(s, HashOf(call.token), HashOf(call.row.sealed.value.token));
    }
    forall r | r in t.redeemed ensures RedemptionOk(t, r) {
      if r in s.redeemed { RedeemedFrame(s, t, r); }
    }
  }

  lemma RevokeKeeps(s: State, t: State, c: nat, reason: Reason, at: int)
    requires Inv(s) && reason != Rotated && t.rows.Keys == s.rows.Keys
    requires t == s.(rows := t.rows) || t == WithCall(s, c, Idle(None)).(rows := t.rows)
    requires forall h | h in s.rows :: t.rows[h] == s.rows[h] || t.rows[h] == RevokedRow(s.rows[h], reason, at)
    ensures Inv(t) && Extends(s, t)
  {
    HistoryFrame(s, t);
    RowsRevoked(s, t, reason, at);
    if t.calls == s.calls { CallsUntouched(s, t); } else { CallsFrame(s, t, c, Idle(None)); }
    RedeemedUntouched(s, t);
  }

  /** Time passing and account changes. */
  lemma OutsideKeeps(s: State, t: State)
    requires Inv(s) && t == s.(clock := t.clock, users := t.users) && s.clock <= t.clock
    ensures Inv(t) && Extends(s, t)
  {
    HistoryFrame(s, t);
    RowsUntouched(s, t);
    CallsUntouched(s, t);
    RedeemedUntouched(s, t);
  }

  lemma BeginKeeps(s: State, c: nat, token: Token)
    requires Inv(s) && Enabled(s, BeginRefresh(c, token))
    ensures Inv(Do(s, BeginRefresh(c, token))) && Extends(s, Do(s, BeginRefresh(c, token)))
  {
    if HashOf(token) in s.ledger { assert IssueOk(s, HashOf(token)); }
    MoveKeeps(s, Do(s, BeginRefresh(c, token)), c, Cleaning(token, s.clock));
  }

  lemma FindKeeps(s: State, c: nat)
    requires Inv(s) && Enabled(s, FindSession(c))
    ensures Inv(Do(s, FindSession(c))) && Extends(s, Do(s, FindSession(c)))
  {
    var call := CallOf(s, c);
    var t := Do(s, FindSession(c));
    assert CallOk(s, call);
    if HashOf(call.token) in s.rows { FoundOk(s, call.token, call.now); }
    CallFrame(s, t, t.calls[c]);
    MoveKeeps(s, t, c, t.calls[c]);
  }

  lemma CheckKeeps(s: State, c: nat, mint: nat)
    requires Inv(s) && Enabled(s, CheckUser(c, mint))
    ensures Inv(Do(s, CheckUser(c, mint))) && Extends(s, Do(s, CheckUser(c, mint)))
  {
    var t := Do(s, CheckUser(c, mint));
    assert CallOk(s, CallOf(s, c));
    if t.calls[c].Idle? { MoveKeeps(s, t, c, Idle(None)); } else { DrawKeeps(s, t, c, t.calls[c]); }
  }

  /** The invariant is inductive and history only grows. */
  lemma StepKeeps(s: State, step: Step)
    requires Inv(s) && Enabled(s, step)
    ensures Inv(Do(s, step)) && Extends(s, Do(s, step))
  {
    var t := Do(s, step);
    match step
    case Tick(to) => OutsideKeeps(s, t);
    case SetUser(id, user) => OutsideKeeps(s, t);
    case RevokeSessionsOf(user, reason, at) => RevokeKeeps(s, t, 0, reason, at);
    case Logout(token, at) => RevokeKeeps(s, t, 0, Reason.Logout, at);
    case BeginRefresh(c, token) => BeginKeeps(s, c, token);
    case Cleanup(c, succeeds) => CleanupKeeps(s, c, succeeds);
    case FindSession(c) => FindKeeps(s, c);
    case RevokeReplay(c) => RevokeKeeps(s, t, c, Replay, Unix(CallOf(s, c).now));
    case ServeGrace(c, opens) => ServeKeeps(s, c, opens);
    case CheckUser(c, mint) => CheckKeeps(s, c, mint);
    case RotateSession(c) => RotateKeeps(s, c);
    case BeginLogin(c, user) => MoveKeeps(s, t, c, LoginVerified(user));
    case StartSession(c) => MoveKeeps(s, t, c, t.calls[c]);
    case DrawSession(c, mint, family) =>
      assert CallOk(s, CallOf(s, c));
      DrawKeeps(s, t, c, t.calls[c]);
    case CreateSession(c) => CreateKeeps(s, c);
    case Abort(c) => MoveKeeps(s, t, c, Idle(None));
  }

  lemma ExtendsTransitive(s: State, t: State, u: State)
    requires Extends(s, t) && Extends(t, u)
    ensures Extends(s, u)
  {
    forall f | f in s.chains ensures f in u.chains && s.chains[f] <= u.chains[f] {
      assert s.chains[f] <= t.chains[f] <= u.chains[f];
    }
  }

  /** Every schedule from a state with the invariant keeps it. */
  lemma {:induction false} RunKeeps(s: State, steps: seq<Step>)
    requires Inv(s) && Legal(s, steps)
    ensures Inv(Exec(s, steps)) && Extends(s, Exec(s, steps))
  {
    if steps == [] {
    } else {
      var prefix := steps[..|steps| - 1];
      RunKeeps(s, prefix);
      StepKeeps(Exec(s, prefix), steps[|steps| - 1]);
      ExtendsTransitive(s, Exec(s, prefix), Exec(s, steps));
    }
  }

  /** Every reachable state has the invariant. */
  lemma ReachableInv(s: State)
    requires Reachable(s)
    ensures Inv(s)
  {
    var ttl, clock, users, steps :|
        Legal(Initial(ttl, clock, users), steps) && s == Exec(Initial(ttl, clock, users), steps);
    RunKeeps(Initial(ttl, clock, users), steps);
  }
}
