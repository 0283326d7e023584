/** Training catalogs and enrollments, each repository transaction as one atomic step. */
module Enrollments {
  import opened Options

  datatype Status = Pending | Accepted | Rejected | Cancelled

  datatype ProcessStatus = Unset | Planned | Ongoing | Completed

  datatype Catalog = Catalog(
    maxSlots: Option<int>,
    status: ProcessStatus,
    startDate: Option<int>,
    endDate: Option<int>,
    registeredCount: int,
    updatedAt: int,
    deletedAt: Option<int>)

  datatype Enrollment = Enrollment(
    user: nat,
    catalog: nat,
    status: Status,
    createdAt: int,
    updatedAt: int,
    deletedAt: Option<int>)

  /** The two tables: catalogs by id, enrollments by their unique public id. */
  datatype DB = DB(catalogs: map<nat, Catalog>, enrollments: map<string, Enrollment>)

  datatype Error =
    | CatalogNotFound
    | CatalogClosed
    | CatalogFull
    | DuplicateEnrollment
    | DuplicatePublicId
    | EnrollmentNotFound
    | InvalidDateRange
    | InvalidMaxSlots
    | PublicIdExhausted

  predicate IsOpen(c: Catalog) {
    c.status == Planned || c.status == Ongoing
  }

  /** Undeleted and neither rejected nor cancelled: what Create counts against the limit. */
  predicate Reserves(e: Enrollment, catalog: nat) {
    e.catalog == catalog && e.deletedAt.None? && (e.status == Pending || e.status == Accepted)
  }

  predicate Seated(e: Enrollment, catalog: nat) {
    e.catalog == catalog && e.deletedAt.None? && e.status == Accepted
  }

  predicate Active(e: Enrollment, catalog: nat, user: nat) {
    e.catalog == catalog && e.user == user && e.deletedAt.None?
  }

  function Reservations(db: DB, catalog: nat): set<string> {
    set p | p in db.enrollments && Reserves(db.enrollments[p], catalog)
  }

  function Seats(db: DB, catalog: nat): set<string> {
    set p | p in db.enrollments && Seated(db.enrollments[p], catalog)
  }

  predicate HasActive(db: DB, catalog: nat, user: nat) {
    exists p | p in db.enrollments :: Active(db.enrollments[p], catalog, user)
  }

  function NewEnrollment(user: nat, catalog: nat, now: int): Enrollment {
    Enrollment(user, catalog, Pending, now, now, None)
  }

  // ----- The transactions -----

  datatype Request =
    | Create(catalog: nat, user: nat, publicId: string, now: int)
    | UpdateStatus(publicId: string, status: Status, now: int)
    | Cancel(publicId: string, scope: nat, now: int)
    | UpdateCatalog(catalog: nat, change: CatalogUpdate)
    | AddCatalog(catalog: nat, maxSlots: Option<int>, phase: ProcessStatus, startDate: Option<int>,
        endDate: Option<int>, now: int)
    | DeleteCatalog(catalog: nat, now: int)

  datatype CatalogUpdate = CatalogUpdate(
    maxSlots: Option<int>,
    status: Option<ProcessStatus>,
    startDate: Option<int>,
    endDate: Option<int>,
    updatedAt: int)

  function DoCreate(db: DB, catalog: nat, user: nat, publicId: string, now: int): Result<DB, Error> {
    if catalog !in db.catalogs || db.catalogs[catalog].deletedAt.Some? then Err(CatalogNotFound)
    else if !IsOpen(db.catalogs[catalog]) then Err(CatalogClosed)
    else if HasActive(db, catalog, user) then Err(DuplicateEnrollment)
    else if db.catalogs[catalog].maxSlots.Some?
        && |Reservations(db, catalog)| >= db.catalogs[catalog].maxSlots.value then
      Err(CatalogFull)
    else if publicId in db.enrollments then Err(DuplicatePublicId)
    else Ok(db.(enrollments := db.enrollments[publicId := NewEnrollment(user, catalog, now)]))
  }

  function WithStatus(e: Enrollment, status: Status, now: int): Enrollment {
    e.(status := status, updatedAt := now,
       deletedAt := if status == Cancelled then Some(if e.deletedAt.Some? then e.deletedAt.value else now)
           else e.deletedAt)
  }

  function WithCount(c: Catalog, count: int, now: int): Catalog {
    c.(registeredCount := count, updatedAt := now)
  }

  /** GREATEST(0, n - 1) */
  function Decremented(n: int): int {
    if n - 1 < 0 then 0 else n - 1
  }

  /** Foreign keys make the catalog of an enrollment exist. */
  function CatalogOf(db: DB, publicId: string): Catalog
    requires publicId in db.enrollments && db.enrollments[publicId].catalog in db.catalogs
  {
    db.catalogs[db.enrollments[publicId].catalog]
  }

  predicate Updatable(db: DB, publicId: string) {
    && publicId in db.enrollments
    && db.enrollments[publicId].deletedAt.None?
    && db.enrollments[publicId].catalog in db.catalogs
  }

  /** What moving to `status` does to the count: the two branches of the status update. */
  function Recounted(c: Catalog, from: Status, status: Status, now: int): Catalog {
    if status == Accepted && from != Accepted then WithCount(c, c.registeredCount + 1, now)
    else if status != Accepted && from == Accepted then WithCount(c, Decremented(c.registeredCount), now)
    else c
  }

  predicate Full(c: Catalog) {
    c.maxSlots.Some? && c.registeredCount >= c.maxSlots.value
  }

  function DoUpdateStatus(db: DB, publicId: string, status: Status, now: int): Result<DB, Error> {
    if !Updatable(db, publicId) then Err(EnrollmentNotFound)
    else
      var e := db.enrollments[publicId];
      var c := db.catalogs[e.catalog];
      if status == Accepted && e.status != Accepted && Full(c) then Err(CatalogFull)
      else Ok(DB(db.catalogs[e.catalog := Recounted(c, e.status, status, now)],
                 db.enrollments[publicId := WithStatus(e, status, now)]))
  }

  /** `scope` is zero for an admin and the caller's user id for a member. */
  predicate Cancellable(db: DB, publicId: string, scope: nat) {
    Updatable(db, publicId) && (scope == 0 || db.enrollments[publicId].user == scope)
  }

  function DoCancel(db: DB, publicId: string, scope: nat, now: int): Result<DB, Error> {
    if !Cancellable(db, publicId, scope) then Err(EnrollmentNotFound)
    else
      var e := db.enrollments[publicId];
      var c := db.catalogs[e.catalog];
      Ok(DB(db.catalogs[e.catalog := Recounted(c, e.status, Cancelled, now)],
            db.enrollments[publicId := WithStatus(e, Cancelled, now)]))
  }

  function Merged(c: Catalog, u: CatalogUpdate): Catalog {
    c.(updatedAt := u.updatedAt,
       maxSlots := if u.maxSlots.Some? then u.maxSlots else c.maxSlots,
       status := if u.status.Some? then u.status.value else c.status,
       startDate := if u.startDate.Some? then u.startDate else c.startDate,
       endDate := if u.endDate.Some? then u.endDate else c.endDate)
  }

  predicate DatesOk(c: Catalog) {
    c.startDate.Some? && c.endDate.Some? ==> c.startDate.value <= c.endDate.value
  }

  /** max_slots is positive when set: checked by the use case and by the table. */
  predicate SlotsOk(maxSlots: Option<int>) {
    maxSlots.Some? ==> maxSlots.value > 0
  }

  function DoUpdateCatalog(db: DB, catalog: nat, change: CatalogUpdate): Result<DB, Error> {
    if !SlotsOk(change.maxSlots) then Err(InvalidMaxSlots)
    else if catalog !in db.catalogs || db.catalogs[catalog].deletedAt.Some? then Err(CatalogNotFound)
    else if !DatesOk(Merged(db.catalogs[catalog], change)) then Err(InvalidDateRange)
    else Ok(db.(catalogs := db.catalogs[catalog := Merged(db.catalogs[catalog], change)]))
  }

  function DoAddCatalog(db: DB, catalog: nat, maxSlots: Option<int>, status: ProcessStatus,
                        startDate: Option<int>, endDate: Option<int>, now: int): Result<DB, Error> {
    var c := Catalog(maxSlots, status, startDate, endDate, 0, now, None);
    if !SlotsOk(maxSlots) then Err(InvalidMaxSlots)
    else if catalog in db.catalogs then Err(DuplicatePublicId)
    else if !DatesOk(c) then Err(InvalidDateRange)
    else Ok(db.(catalogs := db.catalogs[catalog := c]))
  }

  function DoDeleteCatalog(db: DB, catalog: nat, now: int): Result<DB, Error> {
    if catalog !in db.catalogs || db.catalogs[catalog].deletedAt.Some? then Err(CatalogNotFound)
    else Ok(db.(catalogs := db.catalogs[catalog := db.catalogs[catalog].(deletedAt := Some(now), updatedAt := now)]))
  }

  function Apply(db: DB, request: Request): Result<DB, Error> {
    match request
    case Create(catalog, user, publicId, now) => DoCreate(db, catalog, user, publicId, now)
    case UpdateStatus(publicId, status, now) => DoUpdateStatus(db, publicId, status, now)
    case Cancel(publicId, scope, now) => DoCancel(db, publicId, scope, now)
    case UpdateCatalog(catalog, change) => DoUpdateCatalog(db, catalog, change)
    case AddCatalog(catalog, maxSlots, status, startDate, endDate, now) =>
      DoAddCatalog(db, catalog, maxSlots, status, startDate, endDate, now)
    case DeleteCatalog(catalog, now) => DoDeleteCatalog(db, catalog, now)
  }

  function After(db: DB, request: Request): DB {
    match Apply(db, request)
    case Ok(next) => next
    case Err(_) => db
  }

  // ----- The invariant -----

  /** registered_count is the number of seats taken. */
  ghost predicate Counted(db: DB, catalog: nat)
    requires catalog in db.catalogs
  {
    db.catalogs[catalog].registeredCount == |Seats(db, catalog)|
  }

  /** Cancelled exactly when deleted, and attached to a catalog. */
  ghost predicate EnrollmentOk(db: DB, p: string)
    requires p in db.enrollments
  {
    && (db.enrollments[p].status == Cancelled <==> db.enrollments[p].deletedAt.Some?)
    && db.enrollments[p].catalog in db.catalogs
  }

  /** Each user has at most one undeleted enrollment in a catalog. */
  ghost predicate Unique(db: DB, p: string, q: string)
    requires p in db.enrollments && q in db.enrollments
  {
    var a, b := db.enrollments[p], db.enrollments[q];
    a.catalog == b.catalog && a.user == b.user && a.deletedAt.None? && b.deletedAt.None? ==> p == q
  }

  ghost predicate Consistent(db: DB) {
    && (forall c | c in db.catalogs :: Counted(db, c) && DatesOk(db.catalogs[c]))
    && (forall p | p in db.enrollments :: EnrollmentOk(db, p))
    && (forall p, q | p in db.enrollments && q in db.enrollments :: Unique(db, p, q))
  }

  lemma SizeWithout<T>(s: set<T>, p: T)
    ensures |s| == |s - {p}| + (if p in s then 1 else 0)
  {
    if p in s {
      assert s == (s - {p}) + {p};
    } else {
      assert s == s - {p};
    }
  }

  lemma SizeChange<T>(before: set<T>, after: set<T>, p: T)
    requires forall q | q != p :: q in after <==> q in before
    ensures |after| == |before| - (if p in before then 1 else 0) + (if p in after then 1 else 0)
  {
    assert after - {p} == before - {p};
    SizeWithout(before, p);
    SizeWithout(after, p);
  }

  lemma {:induction false} SubsetSize(a: set<string>, b: set<string>)
    requires a <= b
    ensures |a| <= |b|
  {
    if a != {} {
      var x :| x in a;
      SubsetSize(a - {x}, b - {x});
    }
  }

  /** One enrollment changed from not seated, or to it: the seats change by exactly that. */
  lemma SeatsChange(db: DB, next: DB, p: string, catalog: nat)
    requires p in next.enrollments
    requires next.enrollments == db.enrollments[p := next.enrollments[p]]
    ensures var had := p in db.enrollments && Seated(db.enrollments[p], catalog);
            var has := Seated(next.enrollments[p], catalog);
            |Seats(next, catalog)| == |Seats(db, catalog)| - (if had then 1 else 0) + (if has then 1 else 0)
    ensures p in db.enrollments && Seated(db.enrollments[p], catalog) ==> |Seats(db, catalog)| > 0
  {
    forall q | q != p ensures q in Seats(next, catalog) <==> q in Seats(db, catalog) {}
    SizeChange(Seats(db, catalog), Seats(next, catalog), p);
  }

  lemma ReservationsChange(db: DB, next: DB, p: string, catalog: nat)
    requires p in next.enrollments
    requires next.enrollments == db.enrollments[p := next.enrollments[p]]
    ensures var had := p in db.enrollments && Reserves(db.enrollments[p], catalog);
            var has := Reserves(next.enrollments[p], catalog);
            |Reservations(next, catalog)|
                == |Reservations(db, catalog)| - (if had then 1 else 0) + (if has then 1 else 0)
  {
    forall q | q != p ensures q in Reservations(next, catalog) <==> q in Reservations(db, catalog) {}
    SizeChange(Reservations(db, catalog), Reservations(next, catalog), p);
  }

  /** A status change of `p`, with the count moved along. */
  lemma MoveKeeps(db: DB, p: string, status: Status, now: int)
    requires Consistent(db) && Updatable(db, p)
    ensures var e := db.enrollments[p];
            Consistent(DB(db.catalogs[e.catalog := Recounted(db.catalogs[e.catalog], e.status, status, now)],
                          db.enrollments[p := WithStatus(e, status, now)]))
  {
    var e := db.enrollments[p];
    var next := DB(db.catalogs[e.catalog := Recounted(db.catalogs[e.catalog], e.status, status, now)],
                   db.enrollments[p := WithStatus(e, status, now)]);
    assert EnrollmentOk(db, p);
    forall c | c in next.catalogs ensures Counted(next, c) && DatesOk(next.catalogs[c]) {
      assert Counted(db, c);
      SeatsChange(db, next, p, c);
    }
    forall q | q in next.enrollments ensures EnrollmentOk(next, q) { assert EnrollmentOk(db, q); }
    forall q, r | q in next.enrollments && r in next.enrollments ensures Unique(next, q, r) { assert Unique(db, q, r); }
  }

  lemma CreateKeeps(db: DB, catalog: nat, user: nat, p: string, now: int)
    requires Consistent(db) && DoCreate(db, catalog, user, p, now).Ok?
    ensures Consistent(DoCreate(db, catalog, user, p, now).value)
  {
    var next := DoCreate(db, catalog, user, p, now).value;
    forall c | c in next.catalogs ensures Counted(next, c) && DatesOk(next.catalogs[c]) {
      assert Counted(db, c);
      SeatsChange(db, next, p, c);
    }
    forall q | q in next.enrollments ensures EnrollmentOk(next, q) {
      if q != p { assert EnrollmentOk(db, q); }
    }
    forall q, r | q in next.enrollments && r in next.enrollments ensures Unique(next, q, r) {
      if q != p && r != p { assert Unique(db, q, r); }
      else if q != p { assert !Active(db.enrollments[q], catalog, user); }
      else if r != p { assert !Active(db.enrollments[r], catalog, user); }
    }
  }

  /** A catalog change that leaves the count alone. */
  lemma CatalogKeeps(db: DB, catalog: nat, c: Catalog)
    requires Consistent(db) && DatesOk(c)
    requires c.registeredCount == if catalog in db.catalogs then db.catalogs[catalog].registeredCount else 0
    ensures Consistent(db.(catalogs := db.catalogs[catalog := c]))
  {
    var next := db.(catalogs := db.catalogs[catalog := c]);
    forall k | k in next.catalogs ensures Counted(next, k) && DatesOk(next.catalogs[k]) {
      assert Seats(next, k) == Seats(db, k);
      if k in db.catalogs { assert Counted(db, k); }
      else {
        forall p | p in db.enrollments ensures !Seated(db.enrollments[p], k) { assert EnrollmentOk(db, p); }
        assert Seats(db, k) == {};
      }
    }
    forall p | p in next.enrollments ensures EnrollmentOk(next, p) { assert EnrollmentOk(db, p); }
    forall p, q | p in next.enrollments && q in next.enrollments ensures Unique(next, p, q) { assert Unique(db, p, q); }
  }

  /** Every transaction keeps the count, the lifecycle and uniqueness. */
  lemma ApplyKeeps(db: DB, request: Request)
    requires Consistent(db)
    ensures Consistent(After(db, request))
  {
    if Apply(db, request).Ok? {
      match request
      case Create(catalog, user, p, now) => CreateKeeps(db, catalog, user, p, now);
      case UpdateStatus(p, status, now) => MoveKeeps(db, p, status, now);
      case Cancel(p, scope, now) => MoveKeeps(db, p, Cancelled, now);
      case UpdateCatalog(catalog, change) => CatalogKeeps(db, catalog, Merged(db.catalogs[catalog], change));
      case AddCatalog(catalog, maxSlots, status, startDate, endDate, now) =>
        CatalogKeeps(db, catalog, Catalog(maxSlots, status, startDate, endDate, 0, now, None));
      case DeleteCatalog(catalog, now) =>
        assert Counted(db, catalog) && DatesOk(db.catalogs[catalog]);
        CatalogKeeps(db, catalog, db.catalogs[catalog].(deletedAt := Some(now), updatedAt := now));
    }
  }

  /** The database after a list of transactions. */
  ghost function Run(db: DB, requests: seq<Request>): DB {
    if requests == [] then db
    else After(Run(db, requests[..|requests| - 1]), requests[|requests| - 1])
  }

  const EMPTY := DB(map[], map[])

  lemma {:induction false} RunKeeps(db: DB, requests: seq<Request>)
    requires Consistent(db)
    ensures Consistent(Run(db, requests))
  {
    if requests != [] {
      RunKeeps(db, requests[..|requests| - 1]);
      ApplyKeeps(Run(db, requests[..|requests| - 1]), requests[|requests| - 1]);
    }
  }
}
