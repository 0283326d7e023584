/** The refresh_sessions table and the SQL statements that touch it.

    Each statement is a function from table to table; SessionTable holds the table
    in a field and runs the statements in place. A statement or transaction is one
    atomic step. */
module Sessions {
  import opened Options

  /** Raw refresh tokens. Minted ones come from the random generator; Foreign ones
      are arbitrary strings a client may present that were never generated. */
  datatype Token = Minted(id: nat) | Foreign(text: string)

  /** The SHA-256 handle of a token, injective by construction. */
  datatype Hash = HashOf(token: Token)

  /** A token sealed with AES-256-GCM for the grace window. */
  datatype Sealed = SealOf(token: Token)

  datatype Reason = Rotated | Logout | PasswordChange | AdminReset | Deactivated | Replay

  datatype Row = Row(
    user: nat,
    family: nat,
    expiresAt: int,
    createdAt: int,
    revokedAt: Option<int>,
    reason: Option<Reason>,
    graceUntil: Option<int>,
    sealed: Option<Sealed>,
    replacedBy: Option<Hash>)

  type Table = map<Hash, Row>

  /** The fields of a rotation's replacement session that the UPDATE and INSERT use. */
  datatype Next = Next(hash: Hash, expiresAt: int, createdAt: int, graceUntil: int, sealed: Sealed)

  predicate Live(row: Row, now: int) {
    row.revokedAt.None? && row.expiresAt > now
  }

  /** The test Refresh applies before it serves a stored replacement. */
  predicate Servable(row: Row, now: int) {
    && row.revokedAt.Some?
    && row.reason == Some(Rotated)
    && row.graceUntil.Some?
    && row.graceUntil.value >= now
  }

  function NewRow(user: nat, family: nat, expiresAt: int, createdAt: int): Row {
    Row(user, family, expiresAt, createdAt, None, None, None, None, None)
  }

  /** The SET clause shared by the three revoke statements, with its row guard. */
  function RevokedRow(row: Row, reason: Reason, at: int): Row {
    if row.revokedAt.None? then
      row.(revokedAt := Some(at), reason := Some(reason), graceUntil := None, sealed := None)
    else if row.graceUntil.Some? then
      row.(graceUntil := None, sealed := None)
    else row
  }

  function RevokeOne(t: Table, hash: Hash, reason: Reason, at: int): (r: Table)
    ensures r.Keys == t.Keys
  {
    map h | h in t :: if h == hash then RevokedRow(t[h], reason, at) else t[h]
  }

  function RevokeUser(t: Table, user: nat, reason: Reason, at: int): (r: Table)
    ensures r.Keys == t.Keys
  {
    map h | h in t :: if t[h].user == user then RevokedRow(t[h], reason, at) else t[h]
  }

  function RevokeFamily(t: Table, family: nat, reason: Reason, at: int): (r: Table)
    ensures r.Keys == t.Keys
  {
    map h | h in t :: if t[h].family == family then RevokedRow(t[h], reason, at) else t[h]
  }

  function DeleteExpired(t: Table, now: int): Table {
    map h | h in t && t[h].expiresAt > now :: t[h]
  }

  function RotatedRow(row: Row, next: Next, now: int): Row {
    row.(revokedAt := Some(now), reason := Some(Rotated), graceUntil := Some(next.graceUntil),
         sealed := Some(next.sealed), replacedBy := Some(next.hash))
  }

  /** Why a write did not happen: no usable row, or the UNIQUE token_hash was taken. */
  datatype StoreError = SessionNotFound | DuplicateHash

  function Create(t: Table, hash: Hash, row: Row): Result<Table, StoreError> {
    if hash in t then Err(DuplicateHash) else Ok(t[hash := row])
  }

  /** The rotation transaction: the guarded UPDATE and then the INSERT, or nothing. */
  function Rotate(t: Table, presented: Hash, next: Next, now: int): Result<Table, StoreError> {
    if presented !in t || !Live(t[presented], now) then Err(SessionNotFound)
    else if next.hash in t then Err(DuplicateHash)
    else Ok(t[presented := RotatedRow(t[presented], next, now)]
             [next.hash := NewRow(t[presented].user, t[presented].family, next.expiresAt, next.createdAt)])
  }

  /** What any statement may do to a row that survives it: identity, owner and expiry are
      fixed; a revocation, its reason and the replacement pointer are written once; a grace
      deadline appears only together with the revocation and afterwards can only vanish. */
  ghost predicate RowEvolves(a: Row, b: Row) {
    && b.user == a.user && b.family == a.family
    && b.expiresAt == a.expiresAt && b.createdAt == a.createdAt
    && (a.revokedAt.Some? ==>
          && b.revokedAt == a.revokedAt && b.reason == a.reason && b.replacedBy == a.replacedBy
          && (b.graceUntil == a.graceUntil || b.graceUntil.None?)
          && (b.sealed == a.sealed || b.sealed.None?))
  }

  /** What a revoke statement means for the rows: each covered row ends revoked and without a
      grace window, by this statement only if nothing had revoked it before; no other row
      changes, and none appears or disappears. */
  ghost predicate Revokes(before: Table, after: Table, covered: set<Hash>, reason: Reason, at: int) {
    && after.Keys == before.Keys
    && (forall h | h in before && h in covered ::
          && RowEvolves(before[h], after[h])
          && after[h].revokedAt.Some? && after[h].graceUntil.None?
          && (before[h].graceUntil.Some? ==> after[h].sealed.None?)
          && (before[h].revokedAt.None? ==>
                && after[h].revokedAt == Some(at) && after[h].reason == Some(reason)
                && after[h].sealed.None? && after[h].replacedBy == before[h].replacedBy))
    && (forall h | h in before && h !in covered :: after[h] == before[h])
  }

  /** Giving every covered row, and no other, the revoked form is such a revocation. */
  lemma RevokedRows(before: Table, after: Table, covered: set<Hash>, reason: Reason, at: int)
    requires after.Keys == before.Keys
    requires forall h | h in before :: after[h] == if h in covered then RevokedRow(before[h], reason, at) else before[h]
    ensures Revokes(before, after, covered, reason, at)
  {}

  lemma RevokeUserMeans(t: Table, user: nat, reason: Reason, at: int)
    ensures Revokes(t, RevokeUser(t, user, reason, at), (set h | h in t && t[h].user == user), reason, at)
  {
    RevokedRows(t, RevokeUser(t, user, reason, at), (set h | h in t && t[h].user == user), reason, at);
  }

  lemma RevokeFamilyMeans(t: Table, family: nat, reason: Reason, at: int)
    ensures Revokes(t, RevokeFamily(t, family, reason, at), (set h | h in t && t[h].family == family), reason, at)
  {
    RevokedRows(t, RevokeFamily(t, family, reason, at), (set h | h in t && t[h].family == family), reason, at);
  }

  /** COALESCE(a, b) */
  function Coalesce<T>(a: Option<T>, b: T): Option<T> {
    if a.Some? then a else Some(b)
  }

  /** The table object behind RefreshSessionRepository. */
  class SessionTable {
    var rows: Table

    constructor ()
      ensures rows == map[]
    {
      rows := map[];
    }

    method CreateRefreshSession(hash: Hash, row: Row) returns (error: Option<StoreError>)
      modifies this
      ensures error == None ==> Ok(rows) == Create(old(rows), hash, row)
      ensures error == None <==> hash !in old(rows)
      ensures error == None ==> rows == old(rows)[hash := row]
      ensures error != None ==> rows == old(rows) && Create(rows, hash, row) == Err(error.value)
    {
      if hash in rows {
        return Some(DuplicateHash);
      }
      rows := rows[hash := row];
      return None;
    }

    method FindRefreshSession(hash: Hash) returns (found: Option<Row>)
      ensures found.Some? <==> hash in rows
      ensures found.Some? ==> found.value == rows[hash]
    {
      if hash in rows {
        found := Some(rows[hash]);
      } else {
        found := None;
      }
    }

    /** Two statements in one transaction: the guarded UPDATE, then the INSERT. A failed
        INSERT rolls the UPDATE back. */
    method RotateRefreshSession(presented: Hash, next: Next, now: int) returns (error: Option<StoreError>)
      modifies this
      ensures error == None ==> Ok(rows) == Rotate(old(rows), presented, next, now)
      ensures error == None <==>
                && presented in old(rows) && old(rows)[presented].revokedAt.None?
                && old(rows)[presented].expiresAt > now && next.hash !in old(rows)
      ensures error == None ==>
                && rows.Keys == old(rows).Keys + {next.hash}
                && (forall h | h in old(rows) && h != presented :: rows[h] == old(rows)[h])
                && (var a, b, child := old(rows)[presented], rows[presented], rows[next.hash];
                    && b.user == child.user == a.user && b.family == child.family == a.family
                    && b.expiresAt == a.expiresAt && b.createdAt == a.createdAt
                    && b.revokedAt == Some(now) && b.reason == Some(Rotated)
                    && b.graceUntil == Some(next.graceUntil) && b.sealed == Some(next.sealed)
                    && b.replacedBy == Some(next.hash)
                    && child.expiresAt == next.expiresAt && child.createdAt == next.createdAt
                    && child.revokedAt.None? && child.reason.None? && child.graceUntil.None?
                    && child.sealed.None? && child.replacedBy.None?)
      ensures error != None ==> rows == old(rows) && Rotate(rows, presented, next, now) == Err(error.value)
    {
      var before := rows;
      if presented !in rows || !Live(rows[presented], now) {
        return Some(SessionNotFound);
      }
      var row := rows[presented];
      rows := rows[presented := row.(revokedAt := Some(now), reason := Some(Rotated),
                                     graceUntil := Some(next.graceUntil), sealed := Some(next.sealed),
                                     replacedBy := Some(next.hash))];
      if next.hash in rows {
        rows := before;
        return Some(DuplicateHash);
      }
      rows := rows[next.hash := NewRow(row.user, row.family, next.expiresAt, next.createdAt)];
      return None;
    }

    method RevokeRefreshSession(hash: Hash, reason: Reason, at: int)
      modifies this
      ensures rows == RevokeOne(old(rows), hash, reason, at)
      ensures Revokes(old(rows), rows, {hash}, reason, at)
    {
      if hash in rows && (rows[hash].revokedAt.None? || rows[hash].graceUntil.Some?) {
        var row := rows[hash];
        rows := rows[hash := row.(revokedAt := Coalesce(row.revokedAt, at),
                                  reason := if row.revokedAt.None? then Some(reason) else row.reason,
                                  graceUntil := None, sealed := None)];
      }
      RevokedRows(old(rows), rows, {hash}, reason, at);
    }

    method RevokeUserRefreshSessions(user: nat, reason: Reason, at: int)
      modifies this
      ensures rows == RevokeUser(old(rows), user, reason, at)
      ensures Revokes(old(rows), rows, (set h | h in old(rows) && old(rows)[h].user == user), reason, at)
    {
      rows := map h | h in rows ::
        var row := rows[h];
        if row.user == user && (row.revokedAt.None? || row.graceUntil.Some?) then
          row.(revokedAt := Coalesce(row.revokedAt, at),
               reason := if row.revokedAt.None? then Some(reason) else row.reason,
               graceUntil := None, sealed := None)
        else row;
      assert rows == RevokeUser(old(rows), user, reason, at);
      RevokeUserMeans(old(rows), user, reason, at);
    }

    method RevokeRefreshSessionFamily(family: nat, reason: Reason, at: int)
      modifies this
      ensures rows == RevokeFamily(old(rows), family, reason, at)
      ensures Revokes(old(rows), rows, (set h | h in old(rows) && old(rows)[h].family == family), reason, at)
    {
      rows := map h | h in rows ::
        var row := rows[h];
        if row.family == family && (row.revokedAt.None? || row.graceUntil.Some?) then
          row.(revokedAt := Coalesce(row.revokedAt, at),
               reason := if row.revokedAt.None? then Some(reason) else row.reason,
               graceUntil := None, sealed := None)
        else row;
      assert rows == RevokeFamily(old(rows), family, reason, at);
      RevokeFamilyMeans(old(rows), family, reason, at);
    }

    method DeleteExpiredRefreshSessions(now: int)
      modifies this
      ensures rows == DeleteExpired(old(rows), now)
      ensures forall h | h in rows :: h in old(rows) && rows[h] == old(rows)[h] && rows[h].expiresAt > now
      ensures forall h | h in old(rows) && h !in rows :: forall t | t >= now :: !Live(old(rows)[h], t)
      ensures forall h | h in old(rows) && old(rows)[h].expiresAt > now :: h in rows
    {
      rows := rows - set h | h in rows && rows[h].expiresAt <= now;
    }
  }
}
