/** What each enrollment and catalog transaction refuses and writes, column by column. */
module EnrollmentMeaning {
  import opened Options
  import opened Enrollments
  import opened EnrollmentTheorems
  import opened EnrollmentLocks

  /** Create refuses, in this order, a missing or deleted catalog, a closed one, a user with an
      undeleted enrollment in it, a catalog whose pending and accepted enrollments have
      reached its limit, and a public id in use; otherwise it adds one pending enrollment. */
  lemma CreateWrites(db: DB, catalog: nat, user: nat, p: string, now: int)
    ensures var r := Apply(db, Create(catalog, user, p, now));
            if catalog !in db.catalogs || db.catalogs[catalog].deletedAt.Some? then r == Err(CatalogNotFound)
            else if !db.catalogs[catalog].status.Planned? && !db.catalogs[catalog].status.Ongoing? then
              r == Err(CatalogClosed)
            else if exists q | q in db.enrollments ::
                      && db.enrollments[q].catalog == catalog && db.enrollments[q].user == user
                      && db.enrollments[q].deletedAt.None? then
              r == Err(DuplicateEnrollment)
            else if db.catalogs[catalog].maxSlots.Some?
                && |Held(db, catalog)| >= db.catalogs[catalog].maxSlots.value then
              r == Err(CatalogFull)
            else if p in db.enrollments then r == Err(DuplicatePublicId)
            else
              && r.Ok? && r.value.catalogs == db.catalogs
              && r.value.enrollments == db.enrollments[p := Enrollment(user, catalog, Pending, now, now, None)]
  {
    assert Held(db, catalog) == Reservations(db, catalog);
    forall q | q in db.enrollments
      ensures Active(db.enrollments[q], catalog, user) <==>
                && db.enrollments[q].catalog == catalog && db.enrollments[q].user == user
                && db.enrollments[q].deletedAt.None?
    {}
  }

  /** The undeleted pending and accepted enrollments of a catalog. */
  function Held(db: DB, catalog: nat): set<string> {
    set q | && q in db.enrollments && db.enrollments[q].catalog == catalog && db.enrollments[q].deletedAt.None?
            && (db.enrollments[q].status.Pending? || db.enrollments[q].status.Accepted?)
  }

  /** The row of `p` has the new status and time, is deleted just when that is cancelled, and
      is otherwise as it was; and no other enrollment changed. */
  ghost predicate StatusStored(before: map<string, Enrollment>, after: map<string, Enrollment>, p: string,
                               status: Status, now: int) {
    && p in before && after.Keys == before.Keys
    && after[p].status == status && after[p].updatedAt == now
    && after[p].deletedAt == (if status.Cancelled? then Some(now) else None)
    && after[p].user == before[p].user && after[p].catalog == before[p].catalog
    && after[p].createdAt == before[p].createdAt
    && (forall q | q in before && q != p :: after[q] == before[q])
  }

  /** The catalogs after a move from one status to another: the count goes up by one into
      accepted and down by one out of it, with the time; nothing else changes. */
  ghost predicate CountMoved(before: map<nat, Catalog>, after: map<nat, Catalog>, catalog: nat, from: Status,
                             status: Status, now: int) {
    && catalog in before && after.Keys == before.Keys
    && (forall c | c in before && c != catalog :: after[c] == before[c])
    && var a, b := before[catalog], after[catalog];
    && b.maxSlots == a.maxSlots && b.status == a.status && b.startDate == a.startDate && b.endDate == a.endDate
    && b.deletedAt == a.deletedAt
    && b.registeredCount - a.registeredCount
       == (if status.Accepted? then 1 else 0) - (if from.Accepted? then 1 else 0)
    && b.updatedAt == (if status.Accepted? == from.Accepted? then a.updatedAt else now)
  }

  /** The status update is refused for a missing or deleted enrollment and for a move into a
      full catalog; otherwise it stores the status asked for and moves the count. */
  lemma UpdateStatusWrites(db: DB, p: string, status: Status, now: int)
    requires Consistent(db)
    ensures var r := Apply(db, UpdateStatus(p, status, now));
            if p !in db.enrollments || db.enrollments[p].deletedAt.Some? then r == Err(EnrollmentNotFound)
            else
              var e := db.enrollments[p];
              && e.catalog in db.catalogs
              && (if && status.Accepted? && !e.status.Accepted? && db.catalogs[e.catalog].maxSlots.Some?
                     && db.catalogs[e.catalog].registeredCount >= db.catalogs[e.catalog].maxSlots.value then
                    r == Err(CatalogFull)
                  else
                    && r.Ok? && StatusStored(db.enrollments, r.value.enrollments, p, status, now)
                    && CountMoved(db.catalogs, r.value.catalogs, e.catalog, e.status, status, now))
  {
    if p in db.enrollments {
      assert EnrollmentOk(db, p);
      if Updatable(db, p) && db.enrollments[p].status.Accepted? { NeverClamps(db, p); }
    }
  }

  /** Cancellation is refused for a missing or deleted enrollment and, for a member, for that
      of another user; otherwise it stores cancelled and takes a counted seat back. */
  lemma CancelWrites(db: DB, p: string, scope: nat, now: int)
    requires Consistent(db)
    ensures var r := Apply(db, Cancel(p, scope, now));
            if || p !in db.enrollments || db.enrollments[p].deletedAt.Some?
               || (scope != 0 && db.enrollments[p].user != scope) then
              r == Err(EnrollmentNotFound)
            else
              var e := db.enrollments[p];
              && r.Ok? && StatusStored(db.enrollments, r.value.enrollments, p, Cancelled, now)
              && CountMoved(db.catalogs, r.value.catalogs, e.catalog, e.status, Cancelled, now)
  {
    if p in db.enrollments {
      assert EnrollmentOk(db, p);
      if Updatable(db, p) && db.enrollments[p].status.Accepted? { NeverClamps(db, p); }
    }
  }

  /** A catalog update writes exactly the columns it was given, and the time; it is refused for
      a limit that is not positive, a missing or deleted catalog, and dates out of order. */
  lemma UpdateCatalogWrites(db: DB, catalog: nat, u: CatalogUpdate)
    ensures var r := Apply(db, UpdateCatalog(catalog, u));
            if u.maxSlots.Some? && u.maxSlots.value <= 0 then r == Err(InvalidMaxSlots)
            else if catalog !in db.catalogs || db.catalogs[catalog].deletedAt.Some? then r == Err(CatalogNotFound)
            else
              var a := db.catalogs[catalog];
              var first := if u.startDate.Some? then u.startDate else a.startDate;
              var last := if u.endDate.Some? then u.endDate else a.endDate;
              if first.Some? && last.Some? && last.value < first.value then r == Err(InvalidDateRange)
              else
                && r.Ok? && r.value.enrollments == db.enrollments && r.value.catalogs.Keys == db.catalogs.Keys
                && (forall c | c in db.catalogs && c != catalog :: r.value.catalogs[c] == db.catalogs[c])
                && var b := r.value.catalogs[catalog];
                && b.maxSlots == (if u.maxSlots.Some? then u.maxSlots else a.maxSlots)
                && b.status == (if u.status.Some? then u.status.value else a.status)
                && b.startDate == first && b.endDate == last && b.updatedAt == u.updatedAt
                && b.registeredCount == a.registeredCount && b.deletedAt == a.deletedAt
  {}

  /** A new catalog starts with the columns given, nobody registered and not deleted. */
  lemma AddCatalogWrites(db: DB, catalog: nat, slots: Option<int>, phase: ProcessStatus, first: Option<int>,
                         last: Option<int>, now: int)
    ensures var r := Apply(db, AddCatalog(catalog, slots, phase, first, last, now));
            if slots.Some? && slots.value <= 0 then r == Err(InvalidMaxSlots)
            else if catalog in db.catalogs then r == Err(DuplicatePublicId)
            else if first.Some? && last.Some? && last.value < first.value then r == Err(InvalidDateRange)
            else
              && r.Ok? && r.value.enrollments == db.enrollments
              && r.value.catalogs == db.catalogs[catalog := Catalog(slots, phase, first, last, 0, now, None)]
  {}

  /** Deleting a catalog stamps it and touches nothing else. */
  lemma DeleteCatalogWrites(db: DB, catalog: nat, now: int)
    ensures var r := Apply(db, DeleteCatalog(catalog, now));
            if catalog !in db.catalogs || db.catalogs[catalog].deletedAt.Some? then r == Err(CatalogNotFound)
            else
              && r.Ok? && r.value.enrollments == db.enrollments && r.value.catalogs.Keys == db.catalogs.Keys
              && (forall c | c in db.catalogs && c != catalog :: r.value.catalogs[c] == db.catalogs[c])
              && var a, b := db.catalogs[catalog], r.value.catalogs[catalog];
              && b.deletedAt == Some(now) && b.updatedAt == now
              && b.maxSlots == a.maxSlots && b.status == a.status && b.startDate == a.startDate
              && b.endDate == a.endDate && b.registeredCount == a.registeredCount
  {}

  /** The published rows of a status update, when it commits among interleaved statements. */
  lemma CommittedStatus(s: State, c: nat)
    requires Inv(s) && Enabled(s, Commit(c)) && TxOf(s, c).StatusWritten?
    ensures TxOf(s, c).request.UpdateStatus?
    ensures var request := TxOf(s, c).request;
            StatusStored(s.db.enrollments, Do(s, Commit(c)).db.enrollments, request.publicId, request.status,
                request.now)
  {
    assert TxOk(s, c, TxOf(s, c));
    CommitIsAtomic(s, c);
    StatusIsStored(s.db, TxOf(s, c).request);
  }

  lemma StatusIsStored(db: DB, request: Request)
    requires request.UpdateStatus? && Apply(db, request).Ok?
    ensures StatusStored(db.enrollments, After(db, request).enrollments, request.publicId, request.status, request.now)
  {}

  lemma CancelIsStored(db: DB, request: Request)
    requires request.Cancel? && Apply(db, request).Ok?
    ensures StatusStored(db.enrollments, After(db, request).enrollments, request.publicId, Cancelled, request.now)
  {}
}
