/** What the session protocol guarantees in every run and every interleaving. */
module AuthTheorems {
  import opened Options
  import opened Sessions
  import opened AuthProtocol
  import opened AuthInvariant
  import opened AuthSteps

  // ----- Retries -----

  /** Retry agreement: whoever redeems the same token gets the same replacement, and only
      one of the redemptions is a rotation. */
  lemma RetryAgreement(s: State, a: Redemption, b: Redemption)
    requires Reachable(s) && a in s.redeemed && b in s.redeemed && a.presented == b.presented
    ensures a.refresh == b.refresh
    ensures !a.byGrace && !b.byGrace ==> a == b
  {
    ReachableInv(s);
    assert RedemptionOk(s, a) && RedemptionOk(s, b);
  }

  /** Redemption bounds: nothing is redeemed ten seconds or more past its expiry, even when
      every cleanup fails, and the expiry promised to the client never exceeds the one the
      replacement was issued with. */
  lemma RedemptionBounds(s: State, r: Redemption)
    requires Reachable(s) && r in s.redeemed
    ensures HashOf(r.presented) in s.ledger && Unix(r.at) < s.ledger[HashOf(r.presented)].expiresAt + 10
    ensures HashOf(r.refresh) in s.ledger && Unix(r.refreshExpires) <= s.ledger[HashOf(r.refresh)].expiresAt
    ensures HashOf(r.refresh) in s.rows ==> Unix(r.refreshExpires) <= s.rows[HashOf(r.refresh)].expiresAt
  {
    ReachableInv(s);
    assert RedemptionOk(s, r);
    if HashOf(r.refresh) in s.rows { assert RowOk(s, HashOf(r.refresh)); }
  }

  // ----- Family chains -----

  /** Link `i` was rotated into link `i + 1`. */
  ghost predicate Linked(rows: Table, chain: seq<Hash>, i: int) {
    && 0 <= i < |chain| - 1 && chain[i] in rows
    && rows[chain[i]].reason == Some(Rotated) && rows[chain[i]].replacedBy == Some(chain[i + 1])
  }

  /** The rows of family `f` are exactly `chain`: one user, linked by replaced_by_hash,
      expiry never decreasing, and only the last row not rotated away. */
  ghost predicate IsChain(rows: Table, f: nat, chain: seq<Hash>) {
    && (forall h | h in rows && rows[h].family == f :: h in chain)
    && (forall i | 0 <= i < |chain| :: chain[i] in rows && rows[chain[i]].family == f)
    && (forall i, j | 0 <= i < j < |chain| ::
          && chain[i] != chain[j]
          && rows[chain[i]].user == rows[chain[j]].user
          && rows[chain[i]].expiresAt <= rows[chain[j]].expiresAt)
    && (forall i {:trigger Linked(rows, chain, i)} | 0 <= i < |chain| - 1 :: Linked(rows, chain, i))
    && (chain != [] ==> rows[chain[|chain| - 1]].reason != Some(Rotated))
  }

  lemma StoredLink(s: State, f: nat, k: nat)
    requires Inv(s) && f in s.chains && k < |s.chains[f]| && s.chains[f][k] in s.rows
    ensures RowOk(s, s.chains[f][k]) && s.chains[f][k] in s.ledger
    ensures s.ledger[s.chains[f][k]].family == f && s.ledger[s.chains[f][k]].index == k
  {
    assert OrderedLinks(s, f, k, k);
    assert RowOk(s, s.chains[f][k]);
  }

  /** A stored row that is not the last of its chain was rotated away. */
  lemma InnerIsRotated(s: State, f: nat, k: nat)
    requires f in s.chains && k + 1 < |s.chains[f]| && s.chains[f][k] in s.rows && RowOk(s, s.chains[f][k])
    requires s.ledger[s.chains[f][k]].family == f && s.ledger[s.chains[f][k]].index == k
    ensures s.rows[s.chains[f][k]].reason == Some(Rotated)
    ensures s.rows[s.chains[f][k]].replacedBy == Some(s.chains[f][k + 1])
    ensures s.chains[f][k + 1] in s.rows
  {}

  /** The successor of a stored row is stored. */
  lemma SuccessorStored(s: State, f: nat, k: nat)
    requires Inv(s) && f in s.chains && k + 1 < |s.chains[f]| && s.chains[f][k] in s.rows
    ensures s.chains[f][k + 1] in s.rows
    ensures s.rows[s.chains[f][k]].replacedBy == Some(s.chains[f][k + 1])
    ensures s.rows[s.chains[f][k]].reason == Some(Rotated)
  {
    StoredLink(s, f, k);
    InnerIsRotated(s, f, k);
  }

  /** The first link of the chain that is still stored. */
  ghost function FirstStored(s: State, f: nat, k: nat): nat
    requires f in s.chains && k <= |s.chains[f]|
    ensures k <= FirstStored(s, f, k) <= |s.chains[f]|
    ensures forall i | k <= i < FirstStored(s, f, k) :: s.chains[f][i] !in s.rows
    ensures FirstStored(s, f, k) < |s.chains[f]| ==> s.chains[f][FirstStored(s, f, k)] in s.rows
    decreases |s.chains[f]| - k
  {
    if k == |s.chains[f]| || s.chains[f][k] in s.rows then k else FirstStored(s, f, k + 1)
  }

  lemma {:induction false} StoredFrom(rows: Table, full: seq<Hash>, k: nat, i: nat)
    requires k <= i < |full| && full[k] in rows
    requires forall j | 0 <= j < |full| - 1 && full[j] in rows :: full[j + 1] in rows
    ensures full[i] in rows
  {
    if k < i { StoredFrom(rows, full, k, i - 1); }
  }

  lemma ChainPair(s: State, f: nat, i: nat, j: nat)
    requires Inv(s) && f in s.chains && i <= j < |s.chains[f]|
    requires s.chains[f][i] in s.rows && s.chains[f][j] in s.rows
    ensures s.rows[s.chains[f][i]].family == f && s.rows[s.chains[f][j]].family == f
    ensures i < j ==> s.chains[f][i] != s.chains[f][j]
    ensures s.rows[s.chains[f][i]].user == s.rows[s.chains[f][j]].user
    ensures s.rows[s.chains[f][i]].expiresAt <= s.rows[s.chains[f][j]].expiresAt
  {
    var a, b := s.chains[f][i], s.chains[f][j];
    assert OrderedLinks(s, f, i, j);
    assert RowOk(s, a) && RowOk(s, b) && IssueOk(s, a) && IssueOk(s, b);
    UnixMonotone(s.ledger[a].minted + s.ttl, s.ledger[b].minted + s.ttl);
  }

  lemma RowHasLink(s: State, h: Hash)
    requires Inv(s) && h in s.rows
    ensures s.rows[h].family in s.chains && h in s.ledger
    ensures s.ledger[h].index < |s.chains[s.rows[h].family]| && s.chains[s.rows[h].family][s.ledger[h].index] == h
  {
    assert RowOk(s, h) && IssueOk(s, h);
  }

  /** Every row of a family is on its chain, at or after the first stored link. */
  lemma RowOnChain(s: State, f: nat, h: Hash)
    requires Inv(s) && h in s.rows && s.rows[h].family == f
    ensures f in s.chains && h in s.chains[f][FirstStored(s, f, 0)..]
  {
    RowHasLink(s, h);
    LinkPastFirst(s, f, s.ledger[h].index);
  }

  lemma LinkPastFirst(s: State, f: nat, i: nat)
    requires f in s.chains && i < |s.chains[f]| && s.chains[f][i] in s.rows
    ensures s.chains[f][i] in s.chains[f][FirstStored(s, f, 0)..]
  {
    var k := FirstStored(s, f, 0);
    assert k <= i;
    assert s.chains[f][k..][i - k] == s.chains[f][i];
  }

  lemma LastNotRotated(s: State, f: nat)
    requires Inv(s) && f in s.chains && s.chains[f][|s.chains[f]| - 1] in s.rows
    ensures s.rows[s.chains[f][|s.chains[f]| - 1]].reason != Some(Rotated)
  {
    assert OrderedLinks(s, f, |s.chains[f]| - 1, |s.chains[f]| - 1);
    assert RowOk(s, s.chains[f][|s.chains[f]| - 1]);
  }

  /** Which links are stored: all from the first stored one on. */
  lemma StoredSuffix(s: State, f: nat, i: nat)
    requires Inv(s) && f in s.chains && FirstStored(s, f, 0) <= i < |s.chains[f]|
    ensures s.chains[f][i] in s.rows
  {
    forall j | 0 <= j < |s.chains[f]| - 1 && s.chains[f][j] in s.rows ensures s.chains[f][j + 1] in s.rows {
      SuccessorStored(s, f, j);
    }
    StoredFrom(s.rows, s.chains[f], FirstStored(s, f, 0), i);
  }

  lemma StoredPair(s: State, f: nat, i: nat, j: nat)
    requires Inv(s) && f in s.chains && FirstStored(s, f, 0) <= i < j < |s.chains[f]|
    ensures var a, b := s.chains[f][i], s.chains[f][j];
            a in s.rows && b in s.rows && a != b && s.rows[a].user == s.rows[b].user
                && s.rows[a].expiresAt <= s.rows[b].expiresAt
  {
    StoredSuffix(s, f, i);
    StoredSuffix(s, f, j);
    ChainPair(s, f, i, j);
  }

  lemma StoredLinks(s: State, f: nat)
    requires Reachable(s) && f in s.chains
    ensures forall i | FirstStored(s, f, 0) <= i < |s.chains[f]| ::
              s.chains[f][i] in s.rows && s.rows[s.chains[f][i]].family == f
    ensures forall i, j | FirstStored(s, f, 0) <= i < j < |s.chains[f]| ::
              var a, b := s.chains[f][i], s.chains[f][j];
              a in s.rows && b in s.rows && a != b && s.rows[a].user == s.rows[b].user
                  && s.rows[a].expiresAt <= s.rows[b].expiresAt
  {
    ReachableInv(s);
    forall i | FirstStored(s, f, 0) <= i < |s.chains[f]|
      ensures s.chains[f][i] in s.rows && s.rows[s.chains[f][i]].family == f
    {
      StoredSuffix(s, f, i);
      ChainPair(s, f, i, i);
    }
    forall i, j | FirstStored(s, f, 0) <= i < j < |s.chains[f]|
      ensures var a, b := s.chains[f][i], s.chains[f][j];
              a in s.rows && b in s.rows && a != b && s.rows[a].user == s.rows[b].user
                  && s.rows[a].expiresAt <= s.rows[b].expiresAt
    {
      StoredPair(s, f, i, j);
    }
  }

  lemma StoredPointers(s: State, f: nat)
    requires Reachable(s)
    ensures f !in s.chains ==> forall h | h in s.rows :: s.rows[h].family != f
    ensures f in s.chains ==> forall h | h in s.rows && s.rows[h].family == f ::
              h in s.chains[f][FirstStored(s, f, 0)..]
    ensures f in s.chains ==> forall i {:trigger Linked(s.rows, s.chains[f], i)} ::
              FirstStored(s, f, 0) <= i < |s.chains[f]| - 1 && s.chains[f][i] in s.rows ==>
                  Linked(s.rows, s.chains[f], i)
    ensures f in s.chains && FirstStored(s, f, 0) < |s.chains[f]| && s.chains[f][|s.chains[f]| - 1] in s.rows ==>
              s.rows[s.chains[f][|s.chains[f]| - 1]].reason != Some(Rotated)
  {
    ReachableInv(s);
    forall h | h in s.rows && s.rows[h].family == f
      ensures f in s.chains && h in s.chains[f][FirstStored(s, f, 0)..]
    {
      RowOnChain(s, f, h);
    }
    if f in s.chains {
      forall i | FirstStored(s, f, 0) <= i < |s.chains[f]| - 1 && s.chains[f][i] in s.rows
        ensures Linked(s.rows, s.chains[f], i)
      {
        SuccessorStored(s, f, i);
      }
      if FirstStored(s, f, 0) < |s.chains[f]| && s.chains[f][|s.chains[f]| - 1] in s.rows { LastNotRotated(s, f); }
    }
  }

  lemma SuffixIsChain(rows: Table, f: nat, full: seq<Hash>, k: nat)
    requires k <= |full|
    requires forall h | h in rows && rows[h].family == f :: h in full[k..]
    requires forall i | k <= i < |full| :: full[i] in rows && rows[full[i]].family == f
    requires forall i, j | k <= i < j < |full| ::
               var a, b := full[i], full[j];
               a in rows && b in rows && a != b && rows[a].user == rows[b].user
                   && rows[a].expiresAt <= rows[b].expiresAt
    requires forall i {:trigger Linked(rows, full, i)} :: k <= i < |full| - 1 && full[i] in rows ==>
              Linked(rows, full, i)
    requires k < |full| ==> rows[full[|full| - 1]].reason != Some(Rotated)
    ensures IsChain(rows, f, full[k..])
  {
    var chain := full[k..];
    forall i, j | 0 <= i < j < |chain|
      ensures chain[i] != chain[j] && rows[chain[i]].user == rows[chain[j]].user
      ensures rows[chain[i]].expiresAt <= rows[chain[j]].expiresAt
    {
      assert chain[i] == full[k + i] && chain[j] == full[k + j];
    }
    forall i | 0 <= i < |chain| - 1 ensures Linked(rows, chain, i) { assert Linked(rows, full, k + i); }
  }

  /** In every reachable state each family's rows form one chain. */
  lemma FamilyChain(s: State, f: nat) returns (chain: seq<Hash>)
    requires Reachable(s)
    ensures IsChain(s.rows, f, chain)
  {
    StoredPointers(s, f);
    if f !in s.chains { return []; }
    StoredLinks(s, f);
    SuffixIsChain(s.rows, f, s.chains[f], FirstStored(s, f, 0));
    return s.chains[f][FirstStored(s, f, 0)..];
  }

  /** A family never has two unrevoked rows, and the unrevoked one is never rotated away. */
  lemma AtMostOneUnrevoked(s: State, g: Hash, h: Hash)
    requires Reachable(s) && g in s.rows && h in s.rows && s.rows[g].family == s.rows[h].family
    requires s.rows[g].revokedAt.None? && s.rows[h].revokedAt.None?
    ensures g == h
  {
    ReachableInv(s);
    UnrevokedIsTail(s, g);
    UnrevokedIsTail(s, h);
    assert IssueOk(s, g) && IssueOk(s, h);
  }

  /** How many links of a chain have expired: the length of the prefix cleanup removes. */
  ghost function ExpiredPrefix(rows: Table, chain: seq<Hash>, now: int): (k: nat)
    requires forall i | 0 <= i < |chain| :: chain[i] in rows
    ensures k <= |chain|
    ensures forall i | 0 <= i < k :: rows[chain[i]].expiresAt <= now
    ensures k < |chain| ==> rows[chain[k]].expiresAt > now
  {
    if chain == [] || rows[chain[0]].expiresAt > now then 0
    else 1 + ExpiredPrefix(rows, chain[1..], now)
  }

  /** The links at and after `k` are the ones cleanup keeps. */
  lemma PrefixExpires(rows: Table, f: nat, chain: seq<Hash>, now: int, i: nat)
    requires IsChain(rows, f, chain) && i < |chain|
    ensures chain[i] in DeleteExpired(rows, now) <==> ExpiredPrefix(rows, chain, now) <= i
  {
    var k := ExpiredPrefix(rows, chain, now);
    if k < i { assert rows[chain[k]].expiresAt <= rows[chain[i]].expiresAt; }
  }

  lemma KeptOnRest(rows: Table, f: nat, chain: seq<Hash>, now: int, h: Hash)
    requires IsChain(rows, f, chain) && h in DeleteExpired(rows, now) && rows[h].family == f
    ensures h in chain[ExpiredPrefix(rows, chain, now)..]
  {
    assert h in chain;
    var i :| 0 <= i < |chain| && chain[i] == h;
    PrefixExpires(rows, f, chain, now, i);
    assert chain[ExpiredPrefix(rows, chain, now)..][i - ExpiredPrefix(rows, chain, now)] == h;
  }

  lemma RestPair(rows: Table, f: nat, chain: seq<Hash>, now: int, i: nat, j: nat)
    requires IsChain(rows, f, chain) && ExpiredPrefix(rows, chain, now) <= i < j < |chain|
    ensures var kept, a, b := DeleteExpired(rows, now), chain[i], chain[j];
            a in kept && b in kept && kept[a] == rows[a] && kept[b] == rows[b]
            && a != b && rows[a].user == rows[b].user && rows[a].expiresAt <= rows[b].expiresAt
  {
    PrefixExpires(rows, f, chain, now, i);
    PrefixExpires(rows, f, chain, now, j);
  }

  lemma RestLinks(rows: Table, f: nat, chain: seq<Hash>, now: int)
    requires IsChain(rows, f, chain)
    ensures var k, kept := ExpiredPrefix(rows, chain, now), DeleteExpired(rows, now);
            && (forall i | k <= i < |chain| :: chain[i] in kept && kept[chain[i]] == rows[chain[i]]
                  && rows[chain[i]].family == f)
            && (forall i {:trigger Linked(kept, chain, i)} :: k <= i < |chain| - 1 && chain[i] in kept ==>
                  Linked(kept, chain, i))
            && (k < |chain| ==> rows[chain[|chain| - 1]].reason != Some(Rotated))
  {
    var k, kept := ExpiredPrefix(rows, chain, now), DeleteExpired(rows, now);
    forall i | k <= i < |chain| ensures chain[i] in kept { PrefixExpires(rows, f, chain, now, i); }
    forall i | k <= i < |chain| - 1 ensures Linked(kept, chain, i) { assert Linked(rows, chain, i); }
  }

  /** Cleanup removes a prefix of every chain, so what is left is a chain. */
  lemma CleanupRemovesPrefix(rows: Table, f: nat, chain: seq<Hash>, now: int)
    requires IsChain(rows, f, chain)
    ensures IsChain(DeleteExpired(rows, now), f, chain[ExpiredPrefix(rows, chain, now)..])
  {
    var k, kept := ExpiredPrefix(rows, chain, now), DeleteExpired(rows, now);
    forall h | h in kept && kept[h].family == f ensures h in chain[k..] { KeptOnRest(rows, f, chain, now, h); }
    forall i, j | k <= i < j < |chain|
      ensures var a, b := chain[i], chain[j];
              a in kept && b in kept && a != b && kept[a].user == kept[b].user && kept[a].expiresAt <= kept[b].expiresAt
    {
      RestPair(rows, f, chain, now, i, j);
    }
    RestLinks(rows, f, chain, now);
    SuffixIsChain(kept, f, chain, k);
  }

  // ----- What a stored row may become -----

  lemma EvolvesTransitive(a: Row, b: Row, c: Row)
    requires RowEvolves(a, b) && RowEvolves(b, c)
    ensures RowEvolves(a, c)
  {
  }

  /** The rows after a step that inserts none: each is unchanged, or revoked. */
  ghost predicate OnlyRevoked(s: State, t: State) {
    && t.rows.Keys <= s.rows.Keys && t.chains == s.chains
    && (forall h | h in t.rows ::
          t.rows[h] == s.rows[h] || (exists reason, at :: t.rows[h] == RevokedRow(s.rows[h], reason, at)))
  }

  lemma InsertFreeSteps(s: State, step: Step)
    requires Enabled(s, step) && (step.RotateSession? ==> !Wins(s, step.c)) && !step.CreateSession?
    ensures OnlyRevoked(s, Do(s, step))
  {
    var t := Do(s, step);
    match step
    case RevokeSessionsOf(user, reason, at) =>
      forall h | h in t.rows && t.rows[h] != s.rows[h] ensures t.rows[h] == RevokedRow(s.rows[h], reason, at) {}
    case Logout(token, at) =>
      forall h | h in t.rows && t.rows[h] != s.rows[h] ensures t.rows[h] == RevokedRow(s.rows[h], Reason.Logout, at) {}
    case RevokeReplay(c) =>
      forall h | h in t.rows && t.rows[h] != s.rows[h]
        ensures t.rows[h] == RevokedRow(s.rows[h], Replay, Unix(CallOf(s, c).now)) {}
    case _ =>
  }

  lemma RevokedEvolves(row: Row, reason: Reason, at: int)
    ensures RowEvolves(row, RevokedRow(row, reason, at))
    ensures RevokedRow(row, reason, at).revokedAt.Some? && RevokedRow(row, reason, at).graceUntil.None?
  {
  }

  lemma RotationEvolves(s: State, c: nat, h: Hash)
    requires Wins(s, c) && h != HashOf(Minted(CallOf(s, c).mint))
    ensures h in s.rows && h in Do(s, RotateSession(c)).rows ==> RowEvolves(s.rows[h], Do(s, RotateSession(c)).rows[h])
    ensures h !in s.rows ==> h !in Do(s, RotateSession(c)).rows
  {
  }

  lemma CreationEvolves(s: State, c: nat, h: Hash)
    requires CallOf(s, c).Creating? && h != HashOf(Minted(CallOf(s, c).mint))
    ensures h in s.rows && h in Do(s, CreateSession(c)).rows ==> Do(s, CreateSession(c)).rows[h] == s.rows[h]
    ensures h !in s.rows ==> h !in Do(s, CreateSession(c)).rows
  {
  }

  lemma StepEvolves(s: State, step: Step, h: Hash)
    requires Inv(s) && Enabled(s, step) && h in s.ledger
    ensures h in s.rows && h in Do(s, step).rows ==> RowEvolves(s.rows[h], Do(s, step).rows[h])
    ensures h !in s.rows ==> h !in Do(s, step).rows
  {
    if step.RotateSession? && Wins(s, step.c) {
      RotationStart(s, step.c);
      RotationEvolves(s, step.c, h);
    } else if step.CreateSession? {
      assert CallOk(s, CallOf(s, step.c));
      CreationEvolves(s, step.c, h);
    } else {
      InsertFreeSteps(s, step);
      var t := Do(s, step);
      if h in s.rows && h in t.rows && t.rows[h] != s.rows[h] {
        var reason, at :| t.rows[h] == RevokedRow(s.rows[h], reason, at);
        RevokedEvolves(s.rows[h], reason, at);
      }
    }
  }

  /** Over any run: revocation, its reason and the replacement pointer are written once, a
      grace deadline never moves except to vanish, and a deleted row never comes back. */
  lemma {:induction false} RunEvolves(s: State, steps: seq<Step>, h: Hash)
    requires Inv(s) && Legal(s, steps) && h in s.ledger
    ensures h in s.rows && h in Exec(s, steps).rows ==> RowEvolves(s.rows[h], Exec(s, steps).rows[h])
    ensures h !in s.rows ==> h !in Exec(s, steps).rows
  {
    if steps != [] {
      var prefix := steps[..|steps| - 1];
      RunEvolves(s, prefix, h);
      RunKeeps(s, prefix);
      var t := Exec(s, prefix);
      StepEvolves(t, steps[|steps| - 1], h);
      if h in s.rows && h in Exec(s, steps).rows {
        EvolvesTransitive(s.rows[h], t.rows[h], Exec(s, steps).rows[h]);
      }
    }
  }

  // ----- Revoked families -----

  /** No row of the family is live or can be served from its grace window, at any time. */
  ghost predicate Dead(s: State, f: nat) {
    f in s.chains && Unusable(s.rows, f)
  }

  ghost predicate Unusable(rows: Table, f: nat) {
    forall h | h in rows && rows[h].family == f :: rows[h].revokedAt.Some? && rows[h].graceUntil.None?
  }

  /** No row of the family is unrevoked; a predecessor's grace window may still be open. */
  ghost predicate Ended(s: State, f: nat) {
    && f in s.chains
    && (forall h | h in s.rows && s.rows[h].family == f :: s.rows[h].revokedAt.Some?)
  }

  /** A pending rotation in an ended family finds its row revoked. */
  lemma EndedCannotRotate(s: State, c: nat, f: nat)
    requires Ended(s, f) && Wins(s, c)
    ensures s.rows[HashOf(CallOf(s, c).token)].family != f
  {
  }

  lemma RotationKeepsEnded(s: State, c: nat, f: nat)
    requires Inv(s) && Wins(s, c) && Ended(s, f)
    ensures Ended(Do(s, RotateSession(c)), f)
    ensures Dead(s, f) ==> Dead(Do(s, RotateSession(c)), f)
  {
    var t := Do(s, RotateSession(c));
    RotationStart(s, c);
    EndedCannotRotate(s, c, f);
    forall h | h in t.rows && t.rows[h].family == f ensures h in s.rows && t.rows[h] == s.rows[h] {}
  }

  lemma CreationKeepsEnded(s: State, c: nat, f: nat)
    requires Inv(s) && CallOf(s, c).Creating? && Ended(s, f)
    ensures Ended(Do(s, CreateSession(c)), f)
    ensures Dead(s, f) ==> Dead(Do(s, CreateSession(c)), f)
  {
    var t := Do(s, CreateSession(c));
    assert CallOk(s, CallOf(s, c));
    forall h | h in t.rows && t.rows[h].family == f ensures h in s.rows && t.rows[h] == s.rows[h] {}
  }

  lemma RevokingKeepsEnded(s: State, t: State, f: nat)
    requires OnlyRevoked(s, t) && Ended(s, f)
    ensures Ended(t, f)
    ensures Dead(s, f) ==> Dead(t, f)
  {
    forall h | h in t.rows && t.rows[h].family == f
      ensures t.rows[h].revokedAt.Some? && (s.rows[h].graceUntil.None? ==> t.rows[h].graceUntil.None?)
      ensures s.rows[h].family == f
    {
      if t.rows[h] != s.rows[h] {
        var reason, at :| t.rows[h] == RevokedRow(s.rows[h], reason, at);
        RevokedEvolves(s.rows[h], reason, at);
      }
    }
  }

  lemma StepKeepsEnded(s: State, step: Step, f: nat)
    requires Inv(s) && Enabled(s, step) && Ended(s, f)
    ensures Ended(Do(s, step), f)
    ensures Dead(s, f) ==> Dead(Do(s, step), f)
  {
    if step.RotateSession? && Wins(s, step.c) {
      RotationKeepsEnded(s, step.c, f);
    } else if step.CreateSession? {
      CreationKeepsEnded(s, step.c, f);
    } else {
      InsertFreeSteps(s, step);
      RevokingKeepsEnded(s, Do(s, step), f);
    }
  }

  lemma {:induction false} RunKeepsEnded(s: State, steps: seq<Step>, f: nat)
    requires Inv(s) && Legal(s, steps) && Ended(s, f)
    ensures Ended(Exec(s, steps), f)
    ensures Dead(s, f) ==> Dead(Exec(s, steps), f)
  {
    if steps != [] {
      var prefix := steps[..|steps| - 1];
      RunKeepsEnded(s, prefix, f);
      RunKeeps(s, prefix);
      StepKeepsEnded(Exec(s, prefix), steps[|steps| - 1], f);
    }
  }

  /** In a dead family no lookup finds anything to serve or rotate. */
  lemma DeadLookup(s: State, c: nat, f: nat)
    requires Dead(s, f) && CallOf(s, c).Finding?
    requires HashOf(CallOf(s, c).token) in s.rows && s.rows[HashOf(CallOf(s, c).token)].family == f
    ensures CallOf(Do(s, FindSession(c)), c).RevokingReplay?
  {
  }

  /** Dead stays dead, by family: after the replay revocation commits, however the calls that
      read the family beforehand continue, none of its rows is live or grace-servable again. */
  lemma FamilyRevokeIsFinal(s: State, c: nat, later: seq<Step>)
    requires Reachable(s) && CallOf(s, c).RevokingReplay? && Legal(Do(s, RevokeReplay(c)), later)
    ensures Dead(Exec(Do(s, RevokeReplay(c)), later), CallOf(s, c).row.family)
  {
    ReachableInv(s);
    FamilyRevokeKills(s, c);
    StepKeeps(s, RevokeReplay(c));
    RunKeepsEnded(Do(s, RevokeReplay(c)), later, CallOf(s, c).row.family);
  }

  /** So in every later state a call that looks up a token of the family finds a replay. */
  lemma RevokedFamilyServesNothing(s: State, c: nat, later: seq<Step>, d: nat)
    requires Reachable(s) && CallOf(s, c).RevokingReplay? && Legal(Do(s, RevokeReplay(c)), later)
    requires var u := Exec(Do(s, RevokeReplay(c)), later);
             && CallOf(u, d).Finding? && HashOf(CallOf(u, d).token) in u.rows
             && u.rows[HashOf(CallOf(u, d).token)].family == CallOf(s, c).row.family
    ensures CallOf(Do(Exec(Do(s, RevokeReplay(c)), later), FindSession(d)), d).RevokingReplay?
  {
    FamilyRevokeIsFinal(s, c, later);
    DeadLookup(Exec(Do(s, RevokeReplay(c)), later), d, CallOf(s, c).row.family);
  }

  lemma FamilyRevokeKills(s: State, c: nat)
    requires Inv(s) && CallOf(s, c).RevokingReplay?
    ensures Dead(Do(s, RevokeReplay(c)), CallOf(s, c).row.family)
  {
    var t, f := Do(s, RevokeReplay(c)), CallOf(s, c).row.family;
    assert CallOk(s, CallOf(s, c)) && IssueOk(s, HashOf(CallOf(s, c).token));
    forall h | h in t.rows && t.rows[h].family == f ensures t.rows[h].revokedAt.Some? && t.rows[h].graceUntil.None? {
      RevokedEvolves(s.rows[h], Replay, Unix(CallOf(s, c).now));
    }
  }

  lemma ReplayRevocationKills(s: State, c: nat)
    requires Reachable(s) && CallOf(s, c).RevokingReplay?
    ensures Dead(Do(s, RevokeReplay(c)), CallOf(s, c).row.family)
  {
    ReachableInv(s);
    FamilyRevokeKills(s, c);
  }

  /** All rows of a family are one user's. */
  lemma FamilyUser(s: State, f: nat, g: Hash, h: Hash)
    requires Inv(s) && g in s.rows && h in s.ledger && s.rows[g].family == f && s.ledger[h].family == f
    ensures s.rows[g].user == s.ledger[h].user && f in s.chains
  {
    assert RowOk(s, g) && IssueOk(s, g) && IssueOk(s, h);
    assert OrderedLinks(s, f, 0, s.ledger[g].index) && OrderedLinks(s, f, 0, s.ledger[h].index);
  }

  /** Revoking a user's sessions kills each of the user's families. */
  lemma UserRevokeKills(s: State, user: nat, reason: Reason, at: int, first: Hash)
    requires Inv(s) && Enabled(s, RevokeSessionsOf(user, reason, at)) && first in s.ledger
              && s.ledger[first].user == user
    ensures Dead(Do(s, RevokeSessionsOf(user, reason, at)), s.ledger[first].family)
  {
    var t, f := Do(s, RevokeSessionsOf(user, reason, at)), s.ledger[first].family;
    assert IssueOk(s, first);
    forall g | g in t.rows && t.rows[g].family == f ensures t.rows[g].revokedAt.Some? && t.rows[g].graceUntil.None? {
      RevokedEvolves(s.rows[g], reason, at);
      FamilyUser(s, f, g, first);
    }
  }

  /** The first link of a family is the user's if any of its rows is, now or later. */
  lemma FamilyFounder(s: State, u: State, h: Hash) returns (first: Hash)
    requires Inv(s) && Inv(u) && Extends(s, u) && h in u.rows && u.rows[h].family in s.chains
    ensures first in s.ledger && s.ledger[first].family == u.rows[h].family && s.ledger[first].user == u.rows[h].user
  {
    var f := u.rows[h].family;
    first := s.chains[f][0];
    assert OrderedLinks(s, f, 0, 0);
    FamilyUser(u, f, h, first);
  }

  /** Dead stays dead, by user: after a password change, reset or deactivation revoked the
      user's sessions, a row of that user that is live or servable belongs to a family that
      did not exist then, so only a login created it. */
  lemma UserRevokeIsFinal(s: State, user: nat, reason: Reason, at: int, later: seq<Step>, h: Hash)
    requires Reachable(s) && Enabled(s, RevokeSessionsOf(user, reason, at))
    requires Legal(Do(s, RevokeSessionsOf(user, reason, at)), later)
    requires h in Exec(Do(s, RevokeSessionsOf(user, reason, at)), later).rows
    requires Exec(Do(s, RevokeSessionsOf(user, reason, at)), later).rows[h].user == user
    ensures var u := Exec(Do(s, RevokeSessionsOf(user, reason, at)), later);
            u.rows[h].family in s.chains ==> Dead(u, u.rows[h].family)
  {
    var t := Do(s, RevokeSessionsOf(user, reason, at));
    var u := Exec(t, later);
    ReachableInv(s);
    StepKeeps(s, RevokeSessionsOf(user, reason, at));
    RunKeeps(t, later);
    if u.rows[h].family in s.chains {
      ExtendsTransitive(s, t, u);
      var first := FamilyFounder(s, u, h);
      UserRevokeKills(s, user, reason, at, first);
      RunKeepsEnded(t, later, u.rows[h].family);
    }
  }

  /** Only logins open families. */
  lemma OnlyLoginOpensFamilies(s: State, step: Step, f: nat)
    requires Inv(s) && Enabled(s, step) && f !in s.chains && f in Do(s, step).chains
    ensures step.CreateSession? && CallOf(s, step.c).Creating? && CallOf(s, step.c).family == f
  {
    if step.RotateSession? && Wins(s, step.c) { RotationStart(s, step.c); }
  }

  /** Step `k` of a run is the last step of a login of `user` that opens family `f`. */
  ghost predicate LoginOpens(s: State, steps: seq<Step>, k: int, user: nat, f: nat)
    requires Legal(s, steps)
  {
    && 0 <= k < |steps| && steps[k].CreateSession? && Legal(s, steps[..k])
    && CallOf(Exec(s, steps[..k]), steps[k].c).Creating?
    && CallOf(Exec(s, steps[..k]), steps[k].c).user == user && CallOf(Exec(s, steps[..k]), steps[k].c).family == f
  }

  /** What the step that opens a family issues. */
  lemma FamilyOpened(s: State, step: Step, f: nat) returns (first: Hash)
    requires Inv(s) && Enabled(s, step) && f !in s.chains && f in Do(s, step).chains
    ensures step.CreateSession? && CallOf(s, step.c).Creating? && CallOf(s, step.c).family == f
    ensures first in Do(s, step).ledger && Do(s, step).ledger[first].family == f
    ensures Do(s, step).ledger[first].user == CallOf(s, step.c).user
  {
    OnlyLoginOpensFamilies(s, step, f);
    first := HashOf(Minted(CallOf(s, step.c).mint));
  }

  /** A family that appears during a run was opened by a login in it. */
  lemma {:induction false} FamilyNeedsLogin(s: State, steps: seq<Step>, f: nat) returns (k: nat, user: nat, first: Hash)
    requires Inv(s) && Legal(s, steps) && f !in s.chains && f in Exec(s, steps).chains
    ensures LoginOpens(s, steps, k, user, f)
    ensures var u := Exec(s, steps); first in u.ledger && u.ledger[first].family == f && u.ledger[first].user == user
  {
    var n := |steps| - 1;
    var prefix := steps[..n];
    RunKeeps(s, prefix);
    StepKeeps(Exec(s, prefix), steps[n]);
    if f in Exec(s, prefix).chains {
      k, user, first := FamilyNeedsLogin(s, prefix, f);
      assert prefix[..k] == steps[..k];
    } else {
      first := FamilyOpened(Exec(s, prefix), steps[n], f);
      k, user := n, CallOf(Exec(s, prefix), steps[n].c).user;
    }
  }

  /** The call is a login of `user` whose password has been verified. */
  predicate LoggingIn(call: Call, user: nat) {
    && (call.LoginVerified? || call.LoginCleaning? || call.LoginDrawing? || call.Creating?)
    && call.user == user
  }

  ghost predicate Begins(steps: seq<Step>, k: int, c: nat, user: nat) {
    exists b :: 0 <= b < k <= |steps| && steps[b] == BeginLogin(c, user)
  }

  lemma LoginStep(s: State, step: Step, c: nat, user: nat)
    requires Enabled(s, step) && LoggingIn(CallOf(Do(s, step), c), user)
    ensures step == BeginLogin(c, user) || LoggingIn(CallOf(s, c), user)
  {
    if Actor(step) != Some(c) { OtherStepKeepsCall(s, step, c); }
  }

  /** A login under way after a run began in it or was under way before it. */
  lemma {:induction false} LoginBegan(s: State, steps: seq<Step>, c: nat, user: nat)
    requires Legal(s, steps) && LoggingIn(CallOf(Exec(s, steps), c), user)
    ensures Begins(steps, |steps|, c, user) || LoggingIn(CallOf(s, c), user)
  {
    if steps != [] {
      var n := |steps| - 1;
      LoginStep(Exec(s, steps[..n]), steps[n], c, user);
      if steps[n] != BeginLogin(c, user) {
        LoginBegan(s, steps[..n], c, user);
        if Begins(steps[..n], n, c, user) {
          var b :| 0 <= b < n && steps[..n][b] == BeginLogin(c, user);
          assert steps[b] == BeginLogin(c, user);
        }
      }
    }
  }

  /** Dead stays dead, by login: after a user's sessions were revoked, any row of that user
      that is live or servable is in a family that a login of that same user opened since;
      and that login verified the password after the revocation, or was already under way. */
  lemma UsableNeedsLogin(s: State, user: nat, reason: Reason, at: int, later: seq<Step>, h: Hash) returns (k: nat)
    requires Reachable(s) && Enabled(s, RevokeSessionsOf(user, reason, at))
    requires Legal(Do(s, RevokeSessionsOf(user, reason, at)), later)
    requires var rows := Exec(Do(s, RevokeSessionsOf(user, reason, at)), later).rows;
             h in rows && rows[h].user == user && (rows[h].revokedAt.None? || rows[h].graceUntil.Some?)
    ensures var t := Do(s, RevokeSessionsOf(user, reason, at));
            LoginOpens(t, later, k, user, Exec(t, later).rows[h].family)
    ensures k < |later| && later[k].CreateSession?
    ensures Begins(later, k, later[k].c, user) || LoggingIn(CallOf(s, later[k].c), user)
  {
    var t := Do(s, RevokeSessionsOf(user, reason, at));
    k := UsableNeedsCreation(s, user, reason, at, later, h);
    var c := later[k].c;
    LoginBegan(t, later[..k], c, user);
    if Begins(later[..k], k, c, user) {
      var b :| 0 <= b < k && later[..k][b] == BeginLogin(c, user);
      assert later[b] == BeginLogin(c, user);
    }
  }

  lemma UsableNeedsCreation(s: State, user: nat, reason: Reason, at: int, later: seq<Step>, h: Hash) returns (k: nat)
    requires Reachable(s) && Enabled(s, RevokeSessionsOf(user, reason, at))
    requires Legal(Do(s, RevokeSessionsOf(user, reason, at)), later)
    requires var rows := Exec(Do(s, RevokeSessionsOf(user, reason, at)), later).rows;
             h in rows && rows[h].user == user && (rows[h].revokedAt.None? || rows[h].graceUntil.Some?)
    ensures var t := Do(s, RevokeSessionsOf(user, reason, at));
            LoginOpens(t, later, k, user, Exec(t, later).rows[h].family)
  {
    var t := Do(s, RevokeSessionsOf(user, reason, at));
    var u := Exec(t, later);
    var f := u.rows[h].family;
    UserRevokeIsFinal(s, user, reason, at, later, h);
    ReachableStep(s, RevokeSessionsOf(user, reason, at));
    ReachableInv(t);
    RunKeeps(t, later);
    RowHasLink(u, h);
    var opener, first;
    k, opener, first := FamilyNeedsLogin(t, later, f);
    FamilyUser(u, f, h, first);
  }

  // ----- Logout -----

  lemma LogoutEndsLive(s: State, token: Token, at: int)
    requires Reachable(s) && Enabled(s, Step.Logout(token, at)) && HashOf(token) in s.rows
    requires s.rows[HashOf(token)].revokedAt.None?
    ensures Ended(Do(s, Step.Logout(token, at)), s.rows[HashOf(token)].family)
  {
    var h, f := HashOf(token), s.rows[HashOf(token)].family;
    var t := Do(s, Step.Logout(token, at));
    HasChain(s, h);
    forall g | g in t.rows && t.rows[g].family == f ensures t.rows[g].revokedAt.Some? {
      if g != h && s.rows[g].revokedAt.None? { AtMostOneUnrevoked(s, g, h); }
    }
  }

  lemma HasChain(s: State, h: Hash)
    requires Reachable(s) && h in s.rows
    ensures s.rows[h].family in s.chains
  {
    ReachableInv(s);
    RowHasLink(s, h);
  }

  lemma LogoutOfRevoked(s: State, token: Token, at: int, f: nat)
    requires Enabled(s, Step.Logout(token, at)) && HashOf(token) in s.rows && s.rows[HashOf(token)].revokedAt.Some?
    ensures Ended(Do(s, Step.Logout(token, at)), f) <==> Ended(s, f)
  {
    var t := Do(s, Step.Logout(token, at));
    assert t.rows.Keys == s.rows.Keys;
    forall g | g in s.rows ensures t.rows[g].family == s.rows[g].family
        && t.rows[g].revokedAt.Some? == s.rows[g].revokedAt.Some? {}
  }

  /** Logout ends the family exactly when the presented row is its unrevoked one, or the
      family had ended before: logging out with an already rotated token leaves the
      successor alone. */
  lemma LogoutEndsFamilyIff(s: State, token: Token, at: int)
    requires Reachable(s) && Enabled(s, Step.Logout(token, at)) && HashOf(token) in s.rows
    ensures var f := s.rows[HashOf(token)].family;
            Ended(Do(s, Step.Logout(token, at)), f) <==> s.rows[HashOf(token)].revokedAt.None? || Ended(s, f)
  {
    if s.rows[HashOf(token)].revokedAt.None? {
      LogoutEndsLive(s, token, at);
    } else {
      LogoutOfRevoked(s, token, at, s.rows[HashOf(token)].family);
    }
  }

  /** Logout finality: after logging out with a family's unrevoked token, in every later
      state the family has no unrevoked row, and whatever any redemption of the family ever
      returned is revoked or gone. */
  lemma LogoutFinality(s: State, token: Token, at: int, later: seq<Step>, r: Redemption)
    requires Reachable(s) && Enabled(s, Step.Logout(token, at)) && HashOf(token) in s.rows
    requires s.rows[HashOf(token)].revokedAt.None?
    requires Legal(Do(s, Step.Logout(token, at)), later)
    ensures Ended(Exec(Do(s, Step.Logout(token, at)), later), s.rows[HashOf(token)].family)
    ensures var u := Exec(Do(s, Step.Logout(token, at)), later);
            (r in u.redeemed && HashOf(r.presented) in u.ledger
             && u.ledger[HashOf(r.presented)].family == s.rows[HashOf(token)].family
             && HashOf(r.refresh) in u.rows) ==>
              u.rows[HashOf(r.refresh)].revokedAt.Some?
  {
    ReachableInv(s);
    var f := s.rows[HashOf(token)].family;
    var t := Do(s, Step.Logout(token, at));
    var u := Exec(t, later);
    LogoutEndsFamilyIff(s, token, at);
    StepKeeps(s, Step.Logout(token, at));
    RunKeeps(t, later);
    RunKeepsEnded(t, later, f);
    if r in u.redeemed && HashOf(r.refresh) in u.rows {
      assert RedemptionOk(u, r) && RowOk(u, HashOf(r.refresh));
      ExpiryGrows(u, HashOf(r.presented), HashOf(r.refresh));
    }
  }
}
