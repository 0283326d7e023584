/** The inductive invariant of the session protocol: families are chains, calls in flight
    hold copies that history bounds, and every redemption follows a chain link. */
module AuthInvariant {
  import opened Options
  import opened Sessions
  import opened AuthProtocol

  /** History is consistent: the ledger and the chains index each other, and along a chain
      the user is fixed and the issuing instant never decreases. */
  ghost predicate IssueOk(s: State, h: Hash)
    requires h in s.ledger
  {
    var issue := s.ledger[h];
    && issue.family in s.chains
    && issue.index < |s.chains[issue.family]|
    && s.chains[issue.family][issue.index] == h
    && h.token.Minted? && h.token.id in s.drawn
    && issue.minted <= s.clock
    && issue.expiresAt == Unix(issue.minted + s.ttl)
  }

  ghost predicate LinkOk(s: State, f: nat, k: int)
    requires f in s.chains && 0 <= k < |s.chains[f]|
  {
    && s.chains[f][k] in s.ledger
    && s.ledger[s.chains[f][k]].family == f
    && s.ledger[s.chains[f][k]].index == k
  }

  /** Later links are issued no earlier, to the same user. */
  ghost predicate OrderedLinks(s: State, f: nat, j: int, k: int)
    requires f in s.chains && 0 <= j <= k < |s.chains[f]|
  {
    && LinkOk(s, f, j) && LinkOk(s, f, k)
    && s.ledger[s.chains[f][j]].minted <= s.ledger[s.chains[f][k]].minted
    && s.ledger[s.chains[f][j]].user == s.ledger[s.chains[f][k]].user
  }

  ghost predicate HistoryOk(s: State) {
    && (forall h | h in s.ledger :: IssueOk(s, h))
    && (forall f | f in s.chains :: f in s.families && |s.chains[f]| > 0)
    && (forall f, j, k | f in s.chains && 0 <= j <= k < |s.chains[f]| :: OrderedLinks(s, f, j, k))
  }

  /** `h` was rotated, and into `next`. */
  ghost predicate Succeeds(s: State, h: Hash, next: Hash) {
    && h in s.ledger
    && s.ledger[h].family in s.chains
    && s.ledger[h].index + 1 < |s.chains[s.ledger[h].family]|
    && s.chains[s.ledger[h].family][s.ledger[h].index + 1] == next
  }

  ghost predicate IsTail(s: State, h: Hash) {
    && h in s.ledger
    && s.ledger[h].family in s.chains
    && s.ledger[h].index + 1 == |s.chains[s.ledger[h].family]|
  }

  /** A sealed replacement opens to the next link, and its deadline is within the grace
      window of a rotation that happened before expiry. */
  ghost predicate GraceOk(s: State, h: Hash, row: Row) {
    && row.graceUntil.Some? == row.sealed.Some?
    && (row.sealed.Some? ==>
          && Succeeds(s, h, HashOf(row.sealed.value.token))
          && row.graceUntil.value < row.expiresAt + 10)
  }

  ghost predicate RowOk(s: State, h: Hash)
    requires h in s.rows
  {
    var row := s.rows[h];
    && h in s.ledger
    && row.user == s.ledger[h].user
    && row.family == s.ledger[h].family
    && row.expiresAt == s.ledger[h].expiresAt
    && row.revokedAt.Some? == row.reason.Some?
    && row.replacedBy.Some? == (row.reason == Some(Rotated))
    && (row.replacedBy.Some? ==> Succeeds(s, h, row.replacedBy.value) && row.replacedBy.value in s.rows)
    && (row.replacedBy.None? ==> IsTail(s, h) && row.sealed.None?)
    && GraceOk(s, h, row)
  }

  ghost predicate RowsOk(s: State) {
    forall h | h in s.rows :: RowOk(s, h)
  }

  /** A presented token is foreign, or was issued no later than the captured instant. */
  ghost predicate TokenOk(s: State, token: Token, now: int) {
    && now <= s.clock
    && (token.Foreign? || (HashOf(token) in s.ledger && s.ledger[HashOf(token)].minted <= now))
  }

  /** A stale copy of the row of `token`: its immutable columns agree with history. */
  ghost predicate CopyOk(s: State, token: Token, row: Row) {
    && HashOf(token) in s.ledger
    && row.user == s.ledger[HashOf(token)].user
    && row.family == s.ledger[HashOf(token)].family
    && row.expiresAt == s.ledger[HashOf(token)].expiresAt
  }

  /** A drawn token that no session carries yet. */
  ghost predicate Unissued(s: State, mint: nat) {
    mint in s.drawn && HashOf(Minted(mint)) !in s.ledger
  }

  ghost predicate CallOk(s: State, call: Call) {
    match call
    case Idle(result) => result.Some? ==> result.value in s.redeemed
    case Cleaning(token, now) => TokenOk(s, token, now)
    case Finding(token, now) => TokenOk(s, token, now)
    case ServingGrace(token, now, row) =>
      && TokenOk(s, token, now) && CopyOk(s, token, row) && Servable(row, Unix(now))
      && GraceOk(s, HashOf(token), row)
    case RevokingReplay(token, now, row) => TokenOk(s, token, now) && CopyOk(s, token, row)
    case CheckingUser(token, now, row) => TokenOk(s, token, now) && CopyOk(s, token, row)
    case Rotating(token, now, row, mint) => TokenOk(s, token, now) && CopyOk(s, token, row) && Unissued(s, mint)
    case LoginVerified(_) => true
    case LoginCleaning(_, now) => now <= s.clock
    case LoginDrawing(_, now) => now <= s.clock
    case Creating(_, now, mint, family) =>
      now <= s.clock && Unissued(s, mint) && family in s.families && family !in s.chains
  }

  predicate Writing(call: Call) {
    call.Rotating? || call.Creating?
  }

  /** No two calls hold the same unissued token or family. */
  ghost predicate Apart(a: Call, b: Call) {
    && (Writing(a) && Writing(b) ==> a.mint != b.mint)
    && (a.Creating? && b.Creating? ==> a.family != b.family)
  }

  ghost predicate CallsOk(s: State) {
    && (forall c | c in s.calls :: CallOk(s, s.calls[c]))
    && (forall c, d | c in s.calls && d in s.calls && c != d :: Apart(s.calls[c], s.calls[d]))
  }

  /** A redemption followed the chain link of the presented token, happened less than ten
      seconds past its expiry, and promised no more life than the successor has. */
  ghost predicate RedemptionOk(s: State, r: Redemption) {
    && Succeeds(s, HashOf(r.presented), HashOf(r.refresh))
    && HashOf(r.refresh) in s.ledger
    && Unix(r.at) < s.ledger[HashOf(r.presented)].expiresAt + 10
    && Unix(r.refreshExpires) <= s.ledger[HashOf(r.refresh)].expiresAt
    && (!r.byGrace ==>
          r.at == s.ledger[HashOf(r.refresh)].minted && r.refreshExpires == r.at + s.ttl)
  }

  ghost predicate RedeemedOk(s: State) {
    forall r | r in s.redeemed :: RedemptionOk(s, r)
  }

  ghost predicate Inv(s: State) {
    HistoryOk(s) && RowsOk(s) && CallsOk(s) && RedeemedOk(s)
  }

  /** History only grows. */
  ghost predicate Extends(s: State, t: State) {
    && t.ttl == s.ttl && s.clock <= t.clock
    && s.drawn <= t.drawn && s.families <= t.families && s.redeemed <= t.redeemed
    && (forall h | h in s.ledger :: h in t.ledger && t.ledger[h] == s.ledger[h])
    && (forall f | f in s.chains :: f in t.chains && s.chains[f] <= t.chains[f])
  }

  /** Nothing was issued. */
  ghost predicate NothingIssued(s: State, t: State) {
    Extends(s, t) && t.ledger == s.ledger && t.chains == s.chains
  }

  lemma HistoryFrame(s: State, t: State)
    requires HistoryOk(s) && NothingIssued(s, t)
    ensures HistoryOk(t)
  {
    forall h | h in t.ledger ensures IssueOk(t, h) { assert IssueOk(s, h); }
    forall f, j, k | f in t.chains && 0 <= j <= k < |t.chains[f]| ensures OrderedLinks(t, f, j, k) {
      assert OrderedLinks(s, f, j, k);
    }
  }

  lemma SucceedsFrame(s: State, t: State, h: Hash, next: Hash)
    requires Extends(s, t) && Succeeds(s, h, next)
    ensures Succeeds(t, h, next)
  {
    assert s.chains[s.ledger[h].family] <= t.chains[s.ledger[h].family];
  }

  lemma RedeemedFrame(s: State, t: State, r: Redemption)
    requires Extends(s, t) && RedemptionOk(s, r)
    ensures RedemptionOk(t, r)
  {
    SucceedsFrame(s, t, HashOf(r.presented), HashOf(r.refresh));
  }

  /** A call's claims survive everything but the issue of its own token or family. */
  lemma CallFrame(s: State, t: State, call: Call)
    requires Extends(s, t) && CallOk(s, call)
    requires Writing(call) ==> HashOf(Minted(call.mint)) !in t.ledger
    requires call.Creating? ==> call.family !in t.chains
    ensures CallOk(t, call)
  {
    if call.ServingGrace? {
      SucceedsFrame(s, t, HashOf(call.token), HashOf(call.row.sealed.value.token));
    }
  }

  /** Steps that issue nothing keep the claims of every call but the one that moved. */
  lemma CallsFrame(s: State, t: State, c: nat, call: Call)
    requires CallsOk(s) && NothingIssued(s, t) && t.calls == s.calls[c := call]
    requires CallOk(t, call)
    requires forall d | d in s.calls && d != c :: Apart(call, s.calls[d]) && Apart(s.calls[d], call)
    ensures CallsOk(t)
  {
    forall d | d in t.calls ensures CallOk(t, t.calls[d]) {
      if d != c { CallFrame(s, t, s.calls[d]); }
    }
  }

  /** Steps outside the calls that issue nothing. */
  lemma CallsUntouched(s: State, t: State)
    requires CallsOk(s) && NothingIssued(s, t) && t.calls == s.calls
    ensures CallsOk(t)
  {
    forall d | d in t.calls ensures CallOk(t, t.calls[d]) { CallFrame(s, t, s.calls[d]); }
  }

  lemma RedeemedUntouched(s: State, t: State)
    requires RedeemedOk(s) && Extends(s, t) && t.redeemed == s.redeemed
    ensures RedeemedOk(t)
  {
    forall r | r in t.redeemed ensures RedemptionOk(t, r) { RedeemedFrame(s, t, r); }
  }

  lemma RowsUntouched(s: State, t: State)
    requires RowsOk(s) && t.rows == s.rows && NothingIssued(s, t)
    ensures RowsOk(t)
  {
    forall h | h in t.rows ensures RowOk(t, h) { assert RowOk(s, h); }
  }

  lemma RowRevoked(s: State, t: State, h: Hash, reason: Reason, at: int)
    requires h in s.rows && RowOk(s, h) && NothingIssued(s, t) && reason != Rotated
    requires s.rows.Keys <= t.rows.Keys
    requires t.rows[h] == s.rows[h] || t.rows[h] == RevokedRow(s.rows[h], reason, at)
    ensures RowOk(t, h)
  {
    assert t.rows[h].user == s.rows[h].user && t.rows[h].family == s.rows[h].family;
    assert t.rows[h].expiresAt == s.rows[h].expiresAt && t.rows[h].replacedBy == s.rows[h].replacedBy;
  }

  /** Revoking any set of rows, for any reason but rotation, keeps the rows well formed. */
  lemma RowsRevoked(s: State, t: State, reason: Reason, at: int)
    requires RowsOk(s) && NothingIssued(s, t) && reason != Rotated
    requires t.rows.Keys == s.rows.Keys
    requires forall h | h in s.rows :: t.rows[h] == s.rows[h] || t.rows[h] == RevokedRow(s.rows[h], reason, at)
    ensures RowsOk(t)
  {
    forall h | h in t.rows ensures RowOk(t, h) { RowRevoked(s, t, h, reason, at); }
  }

  lemma UnixMonotone(a: int, b: int)
    requires a <= b
    ensures Unix(a) <= Unix(b)
  {
  }

  /** Along a chain expiry never decreases. */
  lemma ExpiryGrows(s: State, h: Hash, next: Hash)
    requires HistoryOk(s) && Succeeds(s, h, next)
    ensures next in s.ledger && s.ledger[h].expiresAt <= s.ledger[next].expiresAt
    ensures s.ledger[next].user == s.ledger[h].user && s.ledger[next].family == s.ledger[h].family
    ensures s.ledger[h].minted <= s.ledger[next].minted
  {
    var f, k := s.ledger[h].family, s.ledger[h].index;
    assert IssueOk(s, h);
    assert OrderedLinks(s, f, k, k + 1);
    assert IssueOk(s, next);
    UnixMonotone(s.ledger[h].minted + s.ttl, s.ledger[next].minted + s.ttl);
  }

  /** So deleting what has expired never deletes the successor of a row it keeps. */
  lemma SuccessorKept(s: State, h: Hash, now: int)
    requires HistoryOk(s) && RowsOk(s) && h in DeleteExpired(s.rows, now) && s.rows[h].replacedBy.Some?
    ensures s.rows[h].replacedBy.value in DeleteExpired(s.rows, now)
  {
    var next := s.rows[h].replacedBy.value;
    assert RowOk(s, h);
    ExpiryGrows(s, h, next);
    assert RowOk(s, next);
  }

  lemma RowKept(s: State, t: State, h: Hash)
    requires h in s.rows && RowOk(s, h) && NothingIssued(s, t)
    requires h in t.rows && t.rows[h] == s.rows[h]
    requires s.rows[h].replacedBy.Some? ==> s.rows[h].replacedBy.value in t.rows
    ensures RowOk(t, h)
  {
  }

  lemma RowsDeleted(s: State, t: State, now: int)
    requires HistoryOk(s) && RowsOk(s) && NothingIssued(s, t) && t.rows == DeleteExpired(s.rows, now)
    ensures RowsOk(t)
  {
    forall h | h in t.rows ensures RowOk(t, h) {
      if s.rows[h].replacedBy.Some? { SuccessorKept(s, h, now); }
      RowKept(s, t, h);
    }
  }

  /** A lookup turns a found row into a copy that history bounds. */
  lemma FoundOk(s: State, token: Token, now: int)
    requires HistoryOk(s) && RowsOk(s) && TokenOk(s, token, now) && HashOf(token) in s.rows
    ensures CallOk(s, Classify(token, now, s.rows[HashOf(token)]))
    ensures !Writing(Classify(token, now, s.rows[HashOf(token)]))
  {
    assert RowOk(s, HashOf(token));
  }

  lemma GraceExtends(s: State, t: State, h: Hash, row: Row)
    requires Extends(s, t) && GraceOk(s, h, row)
    ensures GraceOk(t, h, row)
  {
    if row.sealed.Some? { SucceedsFrame(s, t, h, HashOf(row.sealed.value.token)); }
  }
}
