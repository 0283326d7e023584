/** The enrollment repository as an object that changes its tables in place, and the Enroll
    use case with its bounded retry. Each method carries out the transaction of the same
    name or leaves the tables alone and returns its error. */
module EnrollmentStore {
  import opened Options
  import opened Enrollments
  import EnrollmentMeaning

  const PUBLIC_ID_ATTEMPTS := 5

  /** What a transaction promises: success publishes the atomic result, failure nothing. */
  ghost predicate Performs(before: DB, after: DB, request: Request, error: Option<Error>) {
    && (error.None? <==> Apply(before, request).Ok?)
    && (error.Some? ==> Apply(before, request) == Err(error.value))
    && after == After(before, request)
  }

  class Store {
    var catalogs: map<nat, Catalog>
    var enrollments: map<string, Enrollment>

    function View(): DB
      reads this
    {
      DB(catalogs, enrollments)
    }

    ghost predicate Valid()
      reads this
    {
      Consistent(View())
    }

    constructor ()
      ensures Valid() && View() == EMPTY
    {
      catalogs := map[];
      enrollments := map[];
    }

    method CreateTrainingEnrollment(catalog: nat, user: nat, publicId: string, now: int) returns (error: Option<Error>)
      requires Valid()
      modifies this
      ensures Valid() && Performs(old(View()), View(), Create(catalog, user, publicId, now), error)
    {
      ApplyKeeps(View(), Create(catalog, user, publicId, now));
      if catalog !in catalogs || catalogs[catalog].deletedAt.Some? {
        return Some(CatalogNotFound);
      }
      var row := catalogs[catalog];
      if row.status != Planned && row.status != Ongoing {
        return Some(CatalogClosed);
      }
      var existing := exists p | p in enrollments :: Active(enrollments[p], catalog, user);
      if existing {
        return Some(DuplicateEnrollment);
      }
      if row.maxSlots.Some? {
        var active := |set p | p in enrollments && Reserves(enrollments[p], catalog)|;
        if active >= row.maxSlots.value {
          return Some(CatalogFull);
        }
      }
      if publicId in enrollments {
        return Some(DuplicatePublicId);
      }
      enrollments := enrollments[publicId := NewEnrollment(user, catalog, now)];
      return None;
    }

    method UpdateTrainingEnrollmentStatus(publicId: string, status: Status, now: int) returns (error: Option<Error>)
      requires Valid()
      modifies this
      ensures Valid() && Performs(old(View()), View(), UpdateStatus(publicId, status, now), error)
      ensures error == None ==> EnrollmentMeaning.StatusStored(old(enrollments), enrollments, publicId, status, now)
    {
      ghost var before, request := View(), UpdateStatus(publicId, status, now);
      if publicId !in enrollments || enrollments[publicId].deletedAt.Some?
         || enrollments[publicId].catalog !in catalogs {
        return Some(EnrollmentNotFound);
      }
      var e := enrollments[publicId];
      var c := catalogs[e.catalog];
      assert catalogs[e.catalog := c] == catalogs;
      if status == Accepted && e.status != Accepted {
        if c.maxSlots.Some? && c.registeredCount >= c.maxSlots.value {
          return Some(CatalogFull);
        }
        catalogs := catalogs[e.catalog := c.(registeredCount := c.registeredCount + 1, updatedAt := now)];
      } else if status != Accepted && e.status == Accepted {
        catalogs := catalogs[e.catalog := c.(registeredCount := Decremented(c.registeredCount), updatedAt := now)];
      }
      var deletedAt := if status == Cancelled then Some(now) else None;
      enrollments := enrollments[publicId := e.(status := status, updatedAt := now, deletedAt := deletedAt)];
      assert Apply(before, request) == Ok(View());
      ApplyKeeps(before, request);
      EnrollmentMeaning.StatusIsStored(before, request);
      return None;
    }

    method CancelTrainingEnrollment(publicId: string, scope: nat, now: int) returns (error: Option<Error>)
      requires Valid()
      modifies this
      ensures Valid() && Performs(old(View()), View(), Cancel(publicId, scope, now), error)
      ensures error == None ==> EnrollmentMeaning.StatusStored(old(enrollments), enrollments, publicId, Cancelled, now)
    {
      ghost var before, request := View(), Cancel(publicId, scope, now);
      if publicId !in enrollments || enrollments[publicId].deletedAt.Some?
         || (scope != 0 && enrollments[publicId].user != scope) {
        return Some(EnrollmentNotFound);
      }
      assert EnrollmentOk(View(), publicId);
      var e := enrollments[publicId];
      var c := catalogs[e.catalog];
      assert catalogs[e.catalog := c] == catalogs;
      enrollments := enrollments[publicId := e.(status := Cancelled, deletedAt := Some(now), updatedAt := now)];
      if e.status == Accepted {
        catalogs := catalogs[e.catalog := c.(registeredCount := Decremented(c.registeredCount), updatedAt := now)];
      }
      assert Apply(before, request) == Ok(View());
      ApplyKeeps(before, request);
      EnrollmentMeaning.CancelIsStored(before, request);
      return None;
    }

    /** Locks the row, merges the supplied fields one by one, checks the dates, writes. */
    method UpdateTrainingCatalog(catalog: nat, change: CatalogUpdate) returns (error: Option<Error>)
      requires Valid()
      modifies this
      ensures Valid() && Performs(old(View()), View(), UpdateCatalog(catalog, change), error)
    {
      ApplyKeeps(View(), UpdateCatalog(catalog, change));
      if change.maxSlots.Some? && change.maxSlots.value <= 0 {
        return Some(InvalidMaxSlots);
      }
      if catalog !in catalogs || catalogs[catalog].deletedAt.Some? {
        return Some(CatalogNotFound);
      }
      var merged := catalogs[catalog].(updatedAt := change.updatedAt);
      if change.maxSlots.Some? {
        merged := merged.(maxSlots := change.maxSlots);
      }
      if change.status.Some? {
        merged := merged.(status := change.status.value);
      }
      if change.startDate.Some? {
        merged := merged.(startDate := change.startDate);
      }
      if change.endDate.Some? {
        merged := merged.(endDate := change.endDate);
      }
      if merged.startDate.Some? && merged.endDate.Some? && merged.endDate.value < merged.startDate.value {
        return Some(InvalidDateRange);
      }
      catalogs := catalogs[catalog := merged];
      return None;
    }

    /** Enroll: tries one random public id after another until one is free, five times. */
    method Enroll(catalog: nat, user: nat, draws: seq<string>, now: int) returns (error: Option<Error>)
      requires Valid() && |draws| == PUBLIC_ID_ATTEMPTS
      modifies this
      ensures Valid()
      ensures (error, View()) == EnrollResult(old(View()), catalog, user, draws, now)
    {
      for attempt := 0 to PUBLIC_ID_ATTEMPTS
        invariant Valid() && View() == old(View())
        invariant EnrollResult(View(), catalog, user, draws, now)
                  == EnrollResult(View(), catalog, user, draws[attempt..], now)
      {
        error := CreateTrainingEnrollment(catalog, user, draws[attempt], now);
        assert draws[attempt..][1..] == draws[attempt + 1..];
        if error != Some(DuplicatePublicId) {
          return;
        }
      }
      return Some(PublicIdExhausted);
    }
  }

  /** The outcome of Enroll for the identifiers the generator is going to draw. */
  function EnrollResult(db: DB, catalog: nat, user: nat, draws: seq<string>, now: int): (Option<Error>, DB) {
    if draws == [] then (Some(PublicIdExhausted), db)
    else
      match DoCreate(db, catalog, user, draws[0], now)
      case Ok(next) => (None, next)
      case Err(e) => if e == DuplicatePublicId then EnrollResult(db, catalog, user, draws[1..], now) else (Some(e), db)
  }

  /** Enroll adds exactly one row, under the first free identifier; it fails for want of
      identifiers just when all are taken and nothing else stands in the way. */
  lemma {:induction false} EnrollOutcome(db: DB, catalog: nat, user: nat, draws: seq<string>, spare: string, now: int)
    requires spare !in db.enrollments
    ensures var (error, next) := EnrollResult(db, catalog, user, draws, now);
            && (error == Some(PublicIdExhausted) <==>
                  (forall i | 0 <= i < |draws| :: draws[i] in db.enrollments)
                  && (draws != [] ==> DoCreate(db, catalog, user, spare, now).Ok?))
            && (error.None? ==>
                  exists i | 0 <= i < |draws| ::
                    && draws[i] !in db.enrollments && (forall j | 0 <= j < i :: draws[j] in db.enrollments)
                    && next == db.(enrollments := db.enrollments[draws[i] := NewEnrollment(user, catalog, now)]))
            && (error.Some? ==> next == db)
  {
    if draws != [] {
      EnrollOutcome(db, catalog, user, draws[1..], spare, now);
      var (error, next) := EnrollResult(db, catalog, user, draws[1..], now);
      if draws[0] in db.enrollments && error.None?
          && DoCreate(db, catalog, user, draws[0], now) == Err(DuplicatePublicId) {
        var i :| 0 <= i < |draws| - 1 && draws[1..][i] !in db.enrollments
            && (forall j | 0 <= j < i :: draws[1..][j] in db.enrollments)
                 && next == db.(enrollments := db.enrollments[draws[1..][i] := NewEnrollment(user, catalog, now)]);
        assert draws[i + 1] !in db.enrollments;
        forall j | 0 <= j < i + 1 ensures draws[j] in db.enrollments {
          if j > 0 { assert draws[1..][j - 1] == draws[j]; }
        }
      }
    }
  }
}
