/** The enrollment transactions with their row locks. Create and the catalog update lock the
    catalog row, the status update locks catalog and enrollment, cancellation locks only
    the enrollment and takes the catalog row when it decrements the count. Statements read
    committed data, writes are published at commit, and clients interleave between any two
    statements. Every such run is shown to be a run of the atomic transactions. */
module EnrollmentLocks {
  import opened Options
  import opened Enrollments

  /** Where a client is inside its transaction: the request, what it read under its locks
      and the row versions it will publish. */
  datatype Tx =
    | NoTx
    | CreateLocked(request: Request, row: Catalog)
    | CreateChecked(request: Request, row: Catalog)
    | CreateCounted(request: Request, row: Catalog)
    | CreateInserted(request: Request, row: Catalog)
    | StatusLocked(request: Request, catalog: nat, row: Catalog, before: Enrollment)
    | StatusWritten(request: Request, catalog: nat, row: Catalog, before: Enrollment)
    | CancelLocked(request: Request, before: Enrollment)
    | CancelWritten(request: Request, before: Enrollment)
    | CancelCounted(request: Request, before: Enrollment, row: Catalog)
    | CatalogLocked(request: Request, row: Catalog)
    | CatalogWritten(request: Request, row: Catalog)

  datatype State = State(
    db: DB,
    catalogLocks: map<nat, nat>,
    enrollmentLocks: map<string, nat>,
    txs: map<nat, Tx>)

  function TxOf(s: State, c: nat): Tx {
    if c in s.txs then s.txs[c] else NoTx
  }

  function WithTx(s: State, c: nat, tx: Tx): State {
    s.(txs := s.txs[c := tx])
  }

  /** Ends a transaction: its locks go, its buffers are dropped. */
  function Released(s: State, c: nat): State {
    s.(catalogLocks := map k | k in s.catalogLocks && s.catalogLocks[k] != c :: s.catalogLocks[k],
       enrollmentLocks := map p | p in s.enrollmentLocks && s.enrollmentLocks[p] != c :: s.enrollmentLocks[p],
       txs := s.txs[c := NoTx])
  }

  datatype Step =
    | Begin(c: nat, request: Request)
    | CheckDuplicate(c: nat)
    | CountReservations(c: nat)
    | Insert(c: nat)
    | WriteStatus(c: nat)
    | WriteCancel(c: nat)
    | CountCancel(c: nat)
    | WriteCatalog(c: nat)
    | Commit(c: nat)
    | Abort(c: nat)

  /** The locks the first statement of a request waits for. Rows it does not find it does not
      lock, and the catalog insert and soft delete are single statements. */
  predicate Unlocked(s: State, request: Request) {
    match request
    case Create(catalog, _, _, _) => catalog !in s.catalogLocks
    case UpdateStatus(p, _, _) =>
      Updatable(s.db, p) ==> p !in s.enrollmentLocks && s.db.enrollments[p].catalog !in s.catalogLocks
    case Cancel(p, scope, _) => Cancellable(s.db, p, scope) ==> p !in s.enrollmentLocks
    case UpdateCatalog(catalog, _) => catalog !in s.catalogLocks
    case AddCatalog(catalog, _, _, _, _, _) => catalog !in s.catalogLocks
    case DeleteCatalog(catalog, _) => catalog !in s.catalogLocks
  }

  predicate Enabled(s: State, step: Step) {
    var tx := TxOf(s, step.c);
    match step
    case Begin(_, request) => tx.NoTx? && Unlocked(s, request)
    case CheckDuplicate(_) => tx.CreateLocked?
    case CountReservations(_) => tx.CreateChecked?
    case Insert(_) => tx.CreateCounted? && tx.request.Create? && tx.request.publicId !in s.enrollmentLocks
    case WriteStatus(_) => tx.StatusLocked?
    case WriteCancel(_) => tx.CancelLocked?
    case CountCancel(_) => tx.CancelWritten? && tx.before.status == Accepted && tx.before.catalog !in s.catalogLocks
    case WriteCatalog(_) => tx.CatalogLocked?
    case Commit(_) =>
      || tx.CreateInserted? || tx.StatusWritten? || tx.CancelCounted? || tx.CatalogWritten?
      || (tx.CancelWritten? && tx.before.status != Accepted)
    case Abort(_) => true
  }

  /** The error a statement returns, if it fails; the transaction then rolls back. */
  function Failure(s: State, step: Step): Option<Error>
    requires Enabled(s, step)
  {
    var tx := TxOf(s, step.c);
    match step
    case Begin(_, request) => BeginFailure(s.db, request)
    case CheckDuplicate(_) =>
      if tx.request.Create? && HasActive(s.db, tx.request.catalog, tx.request.user) then Some(DuplicateEnrollment)
          else None
    case CountReservations(_) =>
      if tx.request.Create? && tx.row.maxSlots.Some?
          && |Reservations(s.db, tx.request.catalog)| >= tx.row.maxSlots.value
      then Some(CatalogFull) else None
    case Insert(_) => if tx.request.publicId in s.db.enrollments then Some(DuplicatePublicId) else None
    case WriteStatus(_) =>
      if tx.request.UpdateStatus? && tx.request.status == Accepted && tx.before.status != Accepted && Full(tx.row)
      then Some(CatalogFull) else None
    case WriteCatalog(_) =>
      if tx.request.UpdateCatalog? && !DatesOk(Merged(tx.row, tx.request.change)) then Some(InvalidDateRange) else None
    case _ => None
  }

  function BeginFailure(db: DB, request: Request): Option<Error> {
    match request
    case Create(catalog, _, _, _) =>
      if catalog !in db.catalogs || db.catalogs[catalog].deletedAt.Some? then Some(CatalogNotFound)
      else if !IsOpen(db.catalogs[catalog]) then Some(CatalogClosed) else None
    case UpdateStatus(p, _, _) => if Updatable(db, p) then None else Some(EnrollmentNotFound)
    case Cancel(p, scope, _) => if Cancellable(db, p, scope) then None else Some(EnrollmentNotFound)
    case UpdateCatalog(catalog, change) =>
      if !SlotsOk(change.maxSlots) then Some(InvalidMaxSlots)
      else if catalog !in db.catalogs || db.catalogs[catalog].deletedAt.Some? then Some(CatalogNotFound) else None
    case AddCatalog(_, _, _, _, _, _) => if Apply(db, request).Err? then Some(Apply(db, request).error) else None
    case DeleteCatalog(_, _) => if Apply(db, request).Err? then Some(Apply(db, request).error) else None
  }

  /** The state after the first statement found its row and locked it. */
  function Locked(s: State, c: nat, request: Request): State
    requires BeginFailure(s.db, request).None?
  {
    match request
    case Create(catalog, _, _, _) =>
      WithTx(s, c, CreateLocked(request, s.db.catalogs[catalog])).(catalogLocks := s.catalogLocks[catalog := c])
    case UpdateStatus(p, _, _) =>
      var e := s.db.enrollments[p];
      WithTx(s, c, StatusLocked(request, e.catalog, s.db.catalogs[e.catalog], e)).(
        catalogLocks := s.catalogLocks[e.catalog := c], enrollmentLocks := s.enrollmentLocks[p := c])
    case Cancel(p, _, _) =>
      WithTx(s, c, CancelLocked(request, s.db.enrollments[p])).(enrollmentLocks := s.enrollmentLocks[p := c])
    case UpdateCatalog(catalog, _) =>
      WithTx(s, c, CatalogLocked(request, s.db.catalogs[catalog])).(catalogLocks := s.catalogLocks[catalog := c])
    case AddCatalog(_, _, _, _, _, _) => s.(db := After(s.db, request))
    case DeleteCatalog(_, _) => s.(db := After(s.db, request))
  }

  /** The rows a committing transaction publishes. */
  function Published(db: DB, tx: Tx): DB {
    match tx
    case CreateInserted(Create(catalog, user, p, now), _) =>
      db.(enrollments := db.enrollments[p := NewEnrollment(user, catalog, now)])
    case StatusWritten(UpdateStatus(p, status, now), catalog, row, before) =>
      DB(db.catalogs[catalog := Recounted(row, before.status, status, now)],
         db.enrollments[p := WithStatus(before, status, now)])
    case CancelWritten(Cancel(p, _, now), before) =>
      db.(enrollments := db.enrollments[p := WithStatus(before, Cancelled, now)])
    case CancelCounted(Cancel(p, _, now), before, row) =>
      DB(db.catalogs[before.catalog := WithCount(row, Decremented(row.registeredCount), now)],
         db.enrollments[p := WithStatus(before, Cancelled, now)])
    case CatalogWritten(UpdateCatalog(catalog, change), row) =>
      db.(catalogs := db.catalogs[catalog := Merged(row, change)])
    case _ => db
  }

  function Do(s: State, step: Step): State
    requires Enabled(s, step)
  {
    var c, tx := step.c, TxOf(s, step.c);
    if Failure(s, step).Some? then Released(s, c)
    else
      match step
      case Begin(_, request) => Locked(s, c, request)
      case CheckDuplicate(_) => WithTx(s, c, CreateChecked(tx.request, tx.row))
      case CountReservations(_) => WithTx(s, c, CreateCounted(tx.request, tx.row))
      case Insert(_) =>
        WithTx(s, c, CreateInserted(tx.request, tx.row)).(
          enrollmentLocks := s.enrollmentLocks[tx.request.publicId := c])
      case WriteStatus(_) => WithTx(s, c, StatusWritten(tx.request, tx.catalog, tx.row, tx.before))
      case WriteCancel(_) => WithTx(s, c, CancelWritten(tx.request, tx.before))
      case CountCancel(_) =>
        if tx.before.catalog in s.db.catalogs then
          WithTx(s, c, CancelCounted(tx.request, tx.before, s.db.catalogs[tx.before.catalog])).(
            catalogLocks := s.catalogLocks[tx.before.catalog := c])
        else s
      case WriteCatalog(_) => WithTx(s, c, CatalogWritten(tx.request, tx.row))
      case Commit(_) => Released(s, c).(db := Published(s.db, tx))
      case Abort(_) => Released(s, c)
  }

  // ----- What a transaction knows while it holds its locks -----

  ghost predicate OwnsCatalog(s: State, c: nat, catalog: nat) {
    catalog in s.catalogLocks && s.catalogLocks[catalog] == c
  }

  ghost predicate OwnsEnrollment(s: State, c: nat, p: string) {
    p in s.enrollmentLocks && s.enrollmentLocks[p] == c
  }

  /** The locked catalog row is still what the transaction read. */
  ghost predicate CatalogHeld(s: State, c: nat, catalog: nat, row: Catalog) {
    OwnsCatalog(s, c, catalog) && catalog in s.db.catalogs && s.db.catalogs[catalog] == row
  }

  ghost predicate EnrollmentHeld(s: State, c: nat, p: string, before: Enrollment) {
    && OwnsEnrollment(s, c, p)
    && p in s.db.enrollments && s.db.enrollments[p] == before
    && before.deletedAt.None? && before.catalog in s.db.catalogs
  }

  /** What Create has established, level by level. The count it read may have gone down since,
      because cancellation does not need the catalog lock, but never up. */
  ghost predicate CreateKnows(s: State, c: nat, request: Request, row: Catalog, level: nat) {
    && request.Create?
    && CatalogHeld(s, c, request.catalog, row)
    && row.deletedAt.None? && IsOpen(row)
    && (level >= 1 ==> !HasActive(s.db, request.catalog, request.user))
    && (level >= 2 && row.maxSlots.Some? ==> |Reservations(s.db, request.catalog)| < row.maxSlots.value)
    && (level >= 3 ==> OwnsEnrollment(s, c, request.publicId) && request.publicId !in s.db.enrollments)
  }

  ghost predicate TxOk(s: State, c: nat, tx: Tx) {
    match tx
    case NoTx => true
    case CreateLocked(request, row) => CreateKnows(s, c, request, row, 0)
    case CreateChecked(request, row) => CreateKnows(s, c, request, row, 1)
    case CreateCounted(request, row) => CreateKnows(s, c, request, row, 2)
    case CreateInserted(request, row) => CreateKnows(s, c, request, row, 3)
    case StatusLocked(request, catalog, row, before) =>
      && request.UpdateStatus? && catalog == before.catalog
      && CatalogHeld(s, c, catalog, row) && EnrollmentHeld(s, c, request.publicId, before)
    case StatusWritten(request, catalog, row, before) =>
      && request.UpdateStatus? && catalog == before.catalog
      && CatalogHeld(s, c, catalog, row) && EnrollmentHeld(s, c, request.publicId, before)
      && !(request.status == Accepted && before.status != Accepted && Full(row))
    case CancelLocked(request, before) => CancelKnows(s, c, request, before)
    case CancelWritten(request, before) => CancelKnows(s, c, request, before)
    case CancelCounted(request, before, row) =>
      CancelKnows(s, c, request, before) && before.status == Accepted && CatalogHeld(s, c, before.catalog, row)
    case CatalogLocked(request, row) => CatalogKnows(s, c, request, row)
    case CatalogWritten(request, row) => CatalogKnows(s, c, request, row) && DatesOk(Merged(row, request.change))
  }

  ghost predicate CancelKnows(s: State, c: nat, request: Request, before: Enrollment) {
    && request.Cancel?
    && EnrollmentHeld(s, c, request.publicId, before)
    && (request.scope == 0 || before.user == request.scope)
  }

  ghost predicate CatalogKnows(s: State, c: nat, request: Request, row: Catalog) {
    && request.UpdateCatalog? && CatalogHeld(s, c, request.catalog, row)
    && row.deletedAt.None? && SlotsOk(request.change.maxSlots)
  }

  ghost predicate Inv(s: State) {
    forall c | c in s.txs :: TxOk(s, c, s.txs[c])
  }

  // ----- Frames -----

  /** The locks of client `c` are still in place, and what they protect has not changed. */
  ghost predicate Protects(s: State, t: State, c: nat) {
    && (forall k | OwnsCatalog(s, c, k) :: OwnsCatalog(t, c, k)
          && (k in s.db.catalogs ==> k in t.db.catalogs && t.db.catalogs[k] == s.db.catalogs[k]))
    && (forall p | OwnsEnrollment(s, c, p) ::
          && OwnsEnrollment(t, c, p) && (p in t.db.enrollments <==> p in s.db.enrollments)
          && (p in s.db.enrollments ==> t.db.enrollments[p] == s.db.enrollments[p]))
    && s.db.catalogs.Keys <= t.db.catalogs.Keys
    && (forall k, u | OwnsCatalog(s, c, k) && HasActive(t.db, k, u) :: HasActive(s.db, k, u))
    && (forall k | OwnsCatalog(s, c, k) :: Reservations(t.db, k) <= Reservations(s.db, k))
  }

  lemma TxFrame(s: State, t: State, c: nat, tx: Tx)
    requires TxOk(s, c, tx) && Protects(s, t, c)
    ensures TxOk(t, c, tx)
  {
    if tx.CreateCounted? || tx.CreateInserted? {
      SubsetSize(Reservations(t.db, tx.request.catalog), Reservations(s.db, tx.request.catalog));
    }
  }

  /** Everyone but the acting client is protected, so only its own claims remain to check. */
  lemma OthersFrame(s: State, t: State, c: nat)
    requires Inv(s)
    requires forall d | d in t.txs && d != c :: d in s.txs && t.txs[d] == s.txs[d]
    requires forall d | d in s.txs && d != c :: Protects(s, t, d)
    requires c in t.txs ==> TxOk(t, c, t.txs[c])
    ensures Inv(t)
  {
    forall d | d in t.txs ensures TxOk(t, d, t.txs[d]) {
      if d != c { TxFrame(s, t, d, s.txs[d]); }
    }
  }

  /** Taking locks or giving one's own up does not disturb others. */
  lemma SameDataProtects(s: State, t: State, c: nat, d: nat)
    requires c != d && t.db == s.db
    requires forall k | OwnsCatalog(s, d, k) :: OwnsCatalog(t, d, k)
    requires forall p | OwnsEnrollment(s, d, p) :: OwnsEnrollment(t, d, p)
    ensures Protects(s, t, d)
  {
  }

  /** The request of a transaction. */
  function RequestOf(s: State, step: Step): Request
    requires Enabled(s, step) && (step.Begin? || !TxOf(s, step.c).NoTx?)
  {
    if step.Begin? then step.request else TxOf(s, step.c).request
  }

  // ----- Refinement -----

  /** A commit publishes exactly what the atomic transaction would do now. */
  lemma CommitIsAtomic(s: State, c: nat)
    requires Inv(s) && Enabled(s, Commit(c))
    ensures Apply(s.db, TxOf(s, c).request) == Ok(Published(s.db, TxOf(s, c)))
    ensures Do(s, Commit(c)).db == After(s.db, TxOf(s, c).request)
  {
    var tx := TxOf(s, c);
    assert TxOk(s, c, tx);
    match tx
    case CancelWritten(request, before) =>
      assert s.db.catalogs[before.catalog := s.db.catalogs[before.catalog]] == s.db.catalogs;
    case _ =>
  }

  /** A failing statement returns the error the atomic transaction would return now. */
  lemma FailureIsAtomic(s: State, step: Step)
    requires Inv(s) && Enabled(s, step) && Failure(s, step).Some?
    requires step.Begin? || !TxOf(s, step.c).NoTx?
    ensures Apply(s.db, RequestOf(s, step)) == Err(Failure(s, step).value)
  {
    assert step.Begin? || TxOk(s, step.c, TxOf(s, step.c));
  }

  /** The atomic transaction a step carries out on the committed data, if any. */
  function Effect(s: State, step: Step): Option<Request>
    requires Enabled(s, step)
  {
    if Failure(s, step).Some? then None
    else if step.Commit? && !TxOf(s, step.c).NoTx? then Some(TxOf(s, step.c).request)
    else if step.Begin? && (step.request.AddCatalog? || step.request.DeleteCatalog?) then Some(step.request)
    else None
  }

  lemma StepIsAtomic(s: State, step: Step)
    requires Inv(s) && Enabled(s, step)
    ensures match Effect(s, step)
            case None => Do(s, step).db == s.db
            case Some(request) => Apply(s.db, request) == Ok(Do(s, step).db)
  {
    if step.Commit? && Failure(s, step).None? { CommitIsAtomic(s, step.c); }
  }

  // ----- The lock discipline is inductive -----

  /** Steps that only move the acting client's own program counter. */
  lemma MoveKeeps(s: State, c: nat, tx: Tx)
    requires Inv(s) && TxOk(s, c, tx)
    ensures Inv(WithTx(s, c, tx))
  {
    var t := WithTx(s, c, tx);
    forall d | d in s.txs && d != c ensures Protects(s, t, d) { SameDataProtects(s, t, c, d); }
    assert Protects(s, t, c);
    TxFrame(s, t, c, tx);
    OthersFrame(s, t, c);
  }

  lemma ReleaseKeeps(s: State, c: nat)
    requires Inv(s)
    ensures Inv(Released(s, c))
  {
    var t := Released(s, c);
    forall d | d in s.txs && d != c ensures Protects(s, t, d) { SameDataProtects(s, t, c, d); }
    OthersFrame(s, t, c);
  }

  /** Acquiring a free lock. */
  lemma LockKeeps(s: State, t: State, c: nat)
    requires Inv(s) && t.db == s.db && c in t.txs && t.txs == s.txs[c := t.txs[c]]
    requires forall k | k in s.catalogLocks :: k in t.catalogLocks && t.catalogLocks[k] == s.catalogLocks[k]
    requires forall p | p in s.enrollmentLocks :: p in t.enrollmentLocks && t.enrollmentLocks[p] == s.enrollmentLocks[p]
    requires TxOk(t, c, t.txs[c])
    ensures Inv(t)
  {
    forall d | d in s.txs && d != c ensures Protects(s, t, d) { SameDataProtects(s, t, c, d); }
    OthersFrame(s, t, c);
  }

  /** Changing or adding an unlocked catalog in one statement. */
  lemma StatementKeeps(s: State, t: State, catalog: nat)
    requires Inv(s) && catalog !in s.catalogLocks
    requires t == s.(db := t.db) && t.db.enrollments == s.db.enrollments
    requires catalog in t.db.catalogs && t.db.catalogs == s.db.catalogs[catalog := t.db.catalogs[catalog]]
    ensures Inv(t)
  {
    forall d | d in t.txs ensures TxOk(t, d, t.txs[d]) {
      forall k ensures Reservations(t.db, k) == Reservations(s.db, k) {}
      assert Protects(s, t, d);
      TxFrame(s, t, d, s.txs[d]);
    }
  }

  /** Publishing an enrollment the client has locked: for every other catalog nothing is
      gained, and in its own catalog only a new row or a reinstated one adds anything. */
  lemma EnrollmentPublished(s: State, t: State, c: nat, d: nat, p: string)
    requires c != d && OwnsEnrollment(s, c, p) && p in t.db.enrollments
    requires t.db.enrollments == s.db.enrollments[p := t.db.enrollments[p]]
    requires p in s.db.enrollments ==>
              t.db.enrollments[p].catalog == s.db.enrollments[p].catalog
                  && t.db.enrollments[p].user == s.db.enrollments[p].user
    requires OwnsCatalog(s, c, t.db.enrollments[p].catalog) || t.db.enrollments[p].deletedAt.Some?
    requires s.db.catalogs.Keys <= t.db.catalogs.Keys
    requires forall k | k in s.db.catalogs && !OwnsCatalog(s, c, k) :: t.db.catalogs[k] == s.db.catalogs[k]
    requires t.catalogLocks == Released(s, c).catalogLocks && t.enrollmentLocks == Released(s, c).enrollmentLocks
    ensures Protects(s, t, d)
  {
    var e := t.db.enrollments[p];
    forall k, u | OwnsCatalog(s, d, k) && HasActive(t.db, k, u) ensures HasActive(s.db, k, u) {
      var q :| q in t.db.enrollments && Active(t.db.enrollments[q], k, u);
      assert q != p;
      assert Active(s.db.enrollments[q], k, u);
    }
    forall k | OwnsCatalog(s, d, k) ensures Reservations(t.db, k) <= Reservations(s.db, k) {
      forall q | q in Reservations(t.db, k) ensures q in Reservations(s.db, k) { assert q != p; }
    }
  }

  lemma CommitKeeps(s: State, c: nat)
    requires Inv(s) && Enabled(s, Commit(c))
    ensures Inv(Do(s, Commit(c)))
  {
    var tx, t := TxOf(s, c), Do(s, Commit(c));
    assert TxOk(s, c, tx);
    forall d | d in s.txs && d != c ensures Protects(s, t, d) {
      if tx.CatalogWritten? {
        forall k ensures Reservations(t.db, k) == Reservations(s.db, k) {}
      } else {
        EnrollmentPublished(s, t, c, d, tx.request.publicId);
      }
    }
    OthersFrame(s, t, c);
  }

  lemma BeginKeeps(s: State, c: nat, request: Request)
    requires Inv(s) && Enabled(s, Begin(c, request)) && BeginFailure(s.db, request).None?
    ensures Inv(Do(s, Begin(c, request)))
  {
    var t := Do(s, Begin(c, request));
    if request.AddCatalog? || request.DeleteCatalog? {
      StatementKeeps(s, t, request.catalog);
    } else {
      LockKeeps(s, t, c);
    }
  }

  lemma StepKeeps(s: State, step: Step)
    requires Inv(s) && Enabled(s, step)
    ensures Inv(Do(s, step))
  {
    var c, tx, t := step.c, TxOf(s, step.c), Do(s, step);
    assert TxOk(s, c, tx);
    if Failure(s, step).Some? {
      ReleaseKeeps(s, c);
    } else {
      match step
      case Begin(_, request) => BeginKeeps(s, c, request);
      case CheckDuplicate(_) => MoveKeeps(s, c, t.txs[c]);
      case CountReservations(_) => MoveKeeps(s, c, t.txs[c]);
      case Insert(_) => LockKeeps(s, t, c);
      case WriteStatus(_) => MoveKeeps(s, c, t.txs[c]);
      case WriteCancel(_) => MoveKeeps(s, c, t.txs[c]);
      case CountCancel(_) => LockKeeps(s, t, c);
      case WriteCatalog(_) => MoveKeeps(s, c, t.txs[c]);
      case Commit(_) => CommitKeeps(s, c);
      case Abort(_) => ReleaseKeeps(s, c);
    }
  }

  // ----- Whole runs -----

  const START := State(EMPTY, map[], map[], map[])

  ghost predicate Legal(steps: seq<Step>)
    decreases |steps|, 0
  {
    steps == [] || (Legal(steps[..|steps| - 1]) && Enabled(Exec(steps[..|steps| - 1]), steps[|steps| - 1]))
  }

  /** The state after a schedule of statements. */
  ghost function Exec(steps: seq<Step>): State
    requires Legal(steps)
    decreases |steps|, 1
  {
    if steps == [] then START else Do(Exec(steps[..|steps| - 1]), steps[|steps| - 1])
  }

  /** The requests that took effect, in the order they committed. */
  ghost function History(steps: seq<Step>): seq<Request>
    requires Legal(steps)
    decreases |steps|
  {
    if steps == [] then []
    else
      var prefix, step := steps[..|steps| - 1], steps[|steps| - 1];
      match Effect(Exec(prefix), step)
      case None => History(prefix)
      case Some(request) => History(prefix) + [request]
  }

  lemma {:induction false} ScheduleKeeps(steps: seq<Step>)
    requires Legal(steps)
    ensures Inv(Exec(steps))
  {
    if steps != [] {
      ScheduleKeeps(steps[..|steps| - 1]);
      StepKeeps(Exec(steps[..|steps| - 1]), steps[|steps| - 1]);
    }
  }

  /** Serializability: whatever the interleaving of statements and locks, the committed data
      is what the committed requests produce one after another, each of them succeeding. */
  lemma {:induction false} Serializable(steps: seq<Step>)
    requires Legal(steps)
    ensures Exec(steps).db == Run(EMPTY, History(steps))
    ensures forall i | 0 <= i < |History(steps)| :: Apply(Run(EMPTY, History(steps)[..i]), History(steps)[i]).Ok?
  {
    if steps != [] {
      var prefix, step := steps[..|steps| - 1], steps[|steps| - 1];
      Serializable(prefix);
      ScheduleKeeps(prefix);
      StepIsAtomic(Exec(prefix), step);
      var h := History(prefix);
      if Effect(Exec(prefix), step).Some? {
        var longer := h + [Effect(Exec(prefix), step).value];
        assert longer[..|h|] == h;
        forall i | 0 <= i < |longer| ensures Apply(Run(EMPTY, longer[..i]), longer[i]).Ok? {
          if i < |h| { assert longer[..i] == h[..i]; }
        }
      }
    }
  }
}
