/** Capacity and lifecycle guarantees of the enrollment transactions. */
module EnrollmentTheorems {
  import opened Options
  import opened Enrollments

  /** The decrement never clamps: an accepted row is counted. */
  lemma NeverClamps(db: DB, p: string)
    requires Consistent(db) && Updatable(db, p) && db.enrollments[p].status == Accepted
    ensures CatalogOf(db, p).registeredCount >= 1
    ensures Decremented(CatalogOf(db, p).registeredCount) == CatalogOf(db, p).registeredCount - 1
  {
    var c := db.enrollments[p].catalog;
    assert Counted(db, c) && p in Seats(db, c);
  }

  // ----- Seats -----

  /** Accepted seats never exceed a set limit. */
  ghost predicate SeatsWithin(db: DB, c: nat)
    requires c in db.catalogs
  {
    db.catalogs[c].maxSlots.Some? ==> db.catalogs[c].registeredCount <= db.catalogs[c].maxSlots.value
  }

  /** The request sets catalog `c`'s limit below the seats already taken. */
  ghost predicate CutsSeats(db: DB, request: Request, c: nat) {
    && request.UpdateCatalog? && request.catalog == c && c in db.catalogs
    && request.change.maxSlots.Some?
    && request.change.maxSlots.value < db.catalogs[c].registeredCount
  }

  /** Accept safety, exactly: a transaction that commits takes a catalog's seats over its
      limit just when it sets the limit below the seats already taken. */
  lemma SeatsWithinIff(db: DB, request: Request, c: nat)
    requires Consistent(db) && c in db.catalogs && SeatsWithin(db, c) && Apply(db, request).Ok?
    ensures c in After(db, request).catalogs
    ensures SeatsWithin(After(db, request), c) <==> !CutsSeats(db, request, c)
  {
    assert Counted(db, c);
  }

  ghost predicate AllSeatsWithin(db: DB) {
    forall c | c in db.catalogs :: SeatsWithin(db, c)
  }

  ghost predicate SparesSeats(db: DB, request: Request) {
    forall c | c in db.catalogs :: !CutsSeats(db, request, c)
  }

  lemma SparingKeepsSeats(db: DB, request: Request)
    requires Consistent(db) && AllSeatsWithin(db) && SparesSeats(db, request)
    ensures AllSeatsWithin(After(db, request))
  {
    if Apply(db, request).Ok? {
      forall c | c in After(db, request).catalogs ensures SeatsWithin(After(db, request), c) {
        if c in db.catalogs { SeatsWithinIff(db, request, c); }
      }
    }
  }

  /** Accept safety over whole runs: if no request sets a limit below the seats taken when it
      commits, accepted enrollments never exceed a set limit, reinstatements included. */
  lemma {:induction false} RunSeats(requests: seq<Request>)
    requires forall i | 0 <= i < |requests| :: SparesSeats(Run(EMPTY, requests[..i]), requests[i])
    ensures AllSeatsWithin(Run(EMPTY, requests))
    ensures forall c | c in Run(EMPTY, requests).catalogs && Run(EMPTY, requests).catalogs[c].maxSlots.Some? ::
              |Seats(Run(EMPTY, requests), c)| <= Run(EMPTY, requests).catalogs[c].maxSlots.value
  {
    if requests != [] {
      var n := |requests| - 1;
      var prefix := requests[..n];
      forall i | 0 <= i < |prefix| ensures SparesSeats(Run(EMPTY, prefix[..i]), prefix[i]) {
        assert prefix[..i] == requests[..i];
      }
      RunSeats(prefix);
      RunKeeps(EMPTY, prefix);
      SparingKeepsSeats(Run(EMPTY, prefix), requests[n]);
    }
    RunKeeps(EMPTY, requests);
    var db := Run(EMPTY, requests);
    forall c | c in db.catalogs && db.catalogs[c].maxSlots.Some?
      ensures |Seats(db, c)| <= db.catalogs[c].maxSlots.value {
      assert Counted(db, c) && SeatsWithin(db, c);
    }
  }

  /** Every committed move to accepted leaves room for the seat it took, and a pending or
      rejected enrollment is refused exactly when the catalog is full. */
  lemma AcceptIff(db: DB, p: string, now: int)
    requires Consistent(db) && Updatable(db, p) && db.enrollments[p].status != Accepted
    ensures DoUpdateStatus(db, p, Accepted, now).Ok? <==>
              (CatalogOf(db, p).maxSlots.Some? ==>
                  |Seats(db, db.enrollments[p].catalog)| < CatalogOf(db, p).maxSlots.value)
    ensures var next := After(db, UpdateStatus(p, Accepted, now));
            DoUpdateStatus(db, p, Accepted, now).Ok? ==>
              && SeatsWithin(next, db.enrollments[p].catalog)
              && Seats(next, db.enrollments[p].catalog) == Seats(db, db.enrollments[p].catalog) + {p}
  {
    assert Counted(db, db.enrollments[p].catalog);
  }

  /** A set limit never goes back to unlimited. */
  lemma {:induction false} LimitStays(db: DB, requests: seq<Request>, c: nat)
    requires c in db.catalogs && db.catalogs[c].maxSlots.Some?
    ensures c in Run(db, requests).catalogs && Run(db, requests).catalogs[c].maxSlots.Some?
  {
    if requests != [] {
      LimitStays(db, requests[..|requests| - 1], c);
    }
  }

  // ----- Reservations -----

  /** Pending and accepted enrollments together fit the limit. */
  ghost predicate Reserved(db: DB, c: nat)
    requires c in db.catalogs
  {
    db.catalogs[c].maxSlots.Some? ==> |Reservations(db, c)| <= db.catalogs[c].maxSlots.value
  }

  /** The request sets `c`'s limit below the reservations it already has. */
  ghost predicate CutsReservations(db: DB, request: Request, c: nat) {
    && request.UpdateCatalog? && request.catalog == c
    && request.change.maxSlots.Some?
    && request.change.maxSlots.value < |Reservations(db, c)|
  }

  /** The request brings a rejected enrollment back when no reservation is left. */
  ghost predicate Overbooks(db: DB, request: Request, c: nat) {
    && request.UpdateStatus? && request.publicId in db.enrollments
    && db.enrollments[request.publicId].status == Rejected
    && db.enrollments[request.publicId].catalog == c && c in db.catalogs
    && (request.status == Pending || request.status == Accepted)
    && db.catalogs[c].maxSlots.Some?
    && |Reservations(db, c)| >= db.catalogs[c].maxSlots.value
  }

  lemma ReservedAfterStatus(db: DB, request: Request, c: nat)
    requires Consistent(db) && c in db.catalogs && Reserved(db, c) && Apply(db, request).Ok?
    requires request.UpdateStatus? || request.Cancel?
    ensures Reserved(After(db, request), c) <==> !Overbooks(db, request, c)
  {
    var p := request.publicId;
    assert EnrollmentOk(db, p);
    ReservationsChange(db, After(db, request), p, c);
  }

  lemma ReservedAfterCreate(db: DB, request: Request, c: nat)
    requires Consistent(db) && c in db.catalogs && Reserved(db, c) && Apply(db, request).Ok? && request.Create?
    ensures Reserved(After(db, request), c)
  {
    ReservationsChange(db, After(db, request), request.publicId, c);
  }

  /** The reservation guarantee and exactly when a committed transaction breaks it: only by
      lowering a limit below its reservations, or by reinstating a rejected enrollment into
      a catalog with none left. */
  lemma ReservedIff(db: DB, request: Request, c: nat)
    requires Consistent(db) && c in db.catalogs && Reserved(db, c) && Apply(db, request).Ok?
    ensures c in After(db, request).catalogs
    ensures Reserved(After(db, request), c) <==> !CutsReservations(db, request, c) && !Overbooks(db, request, c)
  {
    if request.UpdateStatus? || request.Cancel? {
      ReservedAfterStatus(db, request, c);
    } else if request.Create? {
      ReservedAfterCreate(db, request, c);
    } else {
      assert Reservations(After(db, request), c) == Reservations(db, c);
    }
  }

  ghost predicate AllReserved(db: DB) {
    forall c | c in db.catalogs :: Reserved(db, c)
  }

  /** A request that cannot hurt any catalog's reservations. */
  ghost predicate Harmless(db: DB, request: Request) {
    forall c | c in db.catalogs :: !CutsReservations(db, request, c) && !Overbooks(db, request, c)
  }

  lemma HarmlessKeeps(db: DB, request: Request)
    requires Consistent(db) && AllReserved(db) && Harmless(db, request)
    ensures AllReserved(After(db, request))
  {
    var next := After(db, request);
    if Apply(db, request).Ok? {
      forall c | c in next.catalogs ensures Reserved(next, c) {
        if c in db.catalogs { ReservedIff(db, request, c); }
        else {
          forall p | p in db.enrollments ensures !Reserves(db.enrollments[p], c) { assert EnrollmentOk(db, p); }
          assert Reservations(next, c) == {};
        }
      }
    }
  }

  /** From the empty database, in every run whose requests are harmless when they commit,
      reservations always fit. */
  lemma {:induction false} RunReserved(requests: seq<Request>)
    requires forall i | 0 <= i < |requests| :: Harmless(Run(EMPTY, requests[..i]), requests[i])
    ensures AllReserved(Run(EMPTY, requests))
  {
    if requests != [] {
      var n := |requests| - 1;
      var prefix := requests[..n];
      forall i | 0 <= i < |prefix| ensures Harmless(Run(EMPTY, prefix[..i]), prefix[i]) {
        assert prefix[..i] == requests[..i];
      }
      RunReserved(prefix);
      RunKeeps(EMPTY, prefix);
      HarmlessKeeps(Run(EMPTY, prefix), requests[n]);
    }
  }

  /** Where reservations fit, accepting a pending enrollment never fails as full. */
  lemma PendingCanBeAccepted(db: DB, p: string, now: int)
    requires Consistent(db) && Updatable(db, p) && db.enrollments[p].status == Pending
    requires Reserved(db, db.enrollments[p].catalog)
    ensures DoUpdateStatus(db, p, Accepted, now).Ok?
  {
    var c := db.enrollments[p].catalog;
    assert Counted(db, c);
    assert Seats(db, c) + {p} <= Reservations(db, c);
    SubsetSize(Seats(db, c) + {p}, Reservations(db, c));
  }

  /** Lowering breaks the guarantee: two pending enrollments, then a limit of one. */
  lemma LoweringBreaks() returns (requests: seq<Request>)
    ensures !AllReserved(Run(EMPTY, requests))
  {
    var r1 := AddCatalog(1, Some(2), Planned, None, None, 0);
    var r2 := Create(1, 10, "ENR-000001", 0);
    var r3 := Create(1, 11, "ENR-000002", 0);
    var r4 := UpdateCatalog(1, CatalogUpdate(Some(1), None, None, None, 0));
    var db3 := TwoPending(2);
    var db4 := After(db3, r4);
    assert Reservations(db4, 1) == {"ENR-000001", "ENR-000002"};
    assert !Reserved(db4, 1);
    requests := [r1, r2, r3, r4];
    RunOfFour(r1, r2, r3, r4);
  }

  /** So does reinstating: with a limit of one, reject, enroll another, take the first back. */
  lemma ReinstatingBreaks() returns (requests: seq<Request>)
    ensures !AllReserved(Run(EMPTY, requests))
  {
    var r1 := AddCatalog(1, Some(1), Planned, None, None, 0);
    var r2 := Create(1, 10, "ENR-000001", 0);
    var r3 := UpdateStatus("ENR-000001", Rejected, 0);
    var r4 := Create(1, 11, "ENR-000002", 0);
    requests := [r1, r2, r3, r4] + [UpdateStatus("ENR-000001", Pending, 0)];
    RunOfFour(r1, r2, r3, r4);
    RunAppend([r1, r2, r3, r4], UpdateStatus("ENR-000001", Pending, 0));
    var db := RejectedAndPending();
    TakenBack(db);
  }

  lemma RejectedAndPending() returns (db: DB)
    ensures db == After(After(After(After(EMPTY, AddCatalog(1, Some(1), Planned, None, None, 0)),
              Create(1, 10, "ENR-000001", 0)),
                              UpdateStatus("ENR-000001", Rejected, 0)), Create(1, 11, "ENR-000002", 0))
    ensures db.catalogs == map[1 := Catalog(Some(1), Planned, None, None, 0, 0, None)]
    ensures db.enrollments == map["ENR-000001" := NewEnrollment(10, 1, 0).(status := Rejected),
                                  "ENR-000002" := NewEnrollment(11, 1, 0)]
  {
    var db1 := After(EMPTY, AddCatalog(1, Some(1), Planned, None, None, 0));
    assert Reservations(db1, 1) == {};
    var db3 := After(After(db1, Create(1, 10, "ENR-000001", 0)), UpdateStatus("ENR-000001", Rejected, 0));
    assert db3.catalogs == db1.catalogs;
    assert Reservations(db3, 1) == {};
    db := After(db3, Create(1, 11, "ENR-000002", 0));
  }

  lemma TakenBack(db: DB)
    requires db.catalogs == map[1 := Catalog(Some(1), Planned, None, None, 0, 0, None)]
    requires db.enrollments == map["ENR-000001" := NewEnrollment(10, 1, 0).(status := Rejected),
                                   "ENR-000002" := NewEnrollment(11, 1, 0)]
    ensures !AllReserved(After(db, UpdateStatus("ENR-000001", Pending, 0)))
  {
    var next := After(db, UpdateStatus("ENR-000001", Pending, 0));
    assert Reservations(next, 1) == {"ENR-000001", "ENR-000002"};
    assert !Reserved(next, 1);
  }

  lemma TwoPending(limit: int) returns (db: DB)
    requires limit >= 2
    ensures db == After(After(After(EMPTY, AddCatalog(1, Some(limit), Planned, None, None, 0)),
                              Create(1, 10, "ENR-000001", 0)), Create(1, 11, "ENR-000002", 0))
    ensures db.catalogs == map[1 := Catalog(Some(limit), Planned, None, None, 0, 0, None)]
    ensures db.enrollments == map["ENR-000001" := NewEnrollment(10, 1, 0), "ENR-000002" := NewEnrollment(11, 1, 0)]
  {
    var db1 := After(EMPTY, AddCatalog(1, Some(limit), Planned, None, None, 0));
    assert Reservations(db1, 1) == {};
    var db2 := After(db1, Create(1, 10, "ENR-000001", 0));
    assert Reservations(db2, 1) == {"ENR-000001"};
    db := After(db2, Create(1, 11, "ENR-000002", 0));
  }

  /** Lowering breaks seats too: two accepted enrollments, then a limit of one. */
  lemma LoweringCutsSeats() returns (requests: seq<Request>)
    ensures !AllSeatsWithin(Run(EMPTY, requests))
  {
    var r1 := AddCatalog(1, Some(2), Planned, None, None, 0);
    var r2 := Create(1, 10, "ENR-000001", 0);
    var r3 := Create(1, 11, "ENR-000002", 0);
    var r4 := UpdateStatus("ENR-000001", Accepted, 0);
    var r5 := UpdateStatus("ENR-000002", Accepted, 0);
    var r6 := UpdateCatalog(1, CatalogUpdate(Some(1), None, None, None, 0));
    requests := [r1, r2, r3, r4] + [r5] + [r6];
    RunOfFour(r1, r2, r3, r4);
    RunAppend([r1, r2, r3, r4], r5);
    RunAppend([r1, r2, r3, r4] + [r5], r6);
    var db := TwoPending(2);
    var full := BothAccepted(db);
    LimitBelowSeats(full);
  }

  lemma LimitBelowSeats(db: DB)
    requires 1 in db.catalogs && db.catalogs[1] == Catalog(Some(2), Planned, None, None, 2, 0, None)
    ensures !AllSeatsWithin(After(db, UpdateCatalog(1, CatalogUpdate(Some(1), None, None, None, 0))))
  {
    assert !SeatsWithin(After(db, UpdateCatalog(1, CatalogUpdate(Some(1), None, None, None, 0))), 1);
  }

  lemma RunAppend(requests: seq<Request>, last: Request)
    ensures Run(EMPTY, requests + [last]) == After(Run(EMPTY, requests), last)
  {
    assert (requests + [last])[..|requests|] == requests;
  }

  lemma BothAccepted(db: DB) returns (full: DB)
    requires db.catalogs == map[1 := Catalog(Some(2), Planned, None, None, 0, 0, None)]
    requires db.enrollments == map["ENR-000001" := NewEnrollment(10, 1, 0), "ENR-000002" := NewEnrollment(11, 1, 0)]
    ensures full == After(After(db, UpdateStatus("ENR-000001", Accepted, 0)), UpdateStatus("ENR-000002", Accepted, 0))
    ensures 1 in full.catalogs && full.catalogs[1] == Catalog(Some(2), Planned, None, None, 2, 0, None)
  {
    var one := After(db, UpdateStatus("ENR-000001", Accepted, 0));
    assert one.catalogs[1] == Catalog(Some(2), Planned, None, None, 1, 0, None);
    assert one.enrollments["ENR-000002"] == NewEnrollment(11, 1, 0);
    full := After(one, UpdateStatus("ENR-000002", Accepted, 0));
  }

  lemma RunOfFour(a: Request, b: Request, c: Request, d: Request)
    ensures Run(EMPTY, [a, b, c, d]) == After(After(After(After(EMPTY, a), b), c), d)
  {
    assert [a][..0] == [];
    assert Run(EMPTY, [a]) == After(EMPTY, a);
    assert [a, b][..1] == [a];
    assert Run(EMPTY, [a, b]) == After(Run(EMPTY, [a]), b);
    assert [a, b, c][..2] == [a, b];
    assert Run(EMPTY, [a, b, c]) == After(Run(EMPTY, [a, b]), c);
    assert [a, b, c, d][..3] == [a, b, c];
  }

  // ----- Lifecycle -----

  /** Cancelled rows never change again, in any run. */
  lemma {:induction false} CancelledIsFinal(db: DB, requests: seq<Request>, p: string)
    requires Consistent(db) && p in db.enrollments && db.enrollments[p].status == Cancelled
    ensures p in Run(db, requests).enrollments && Run(db, requests).enrollments[p] == db.enrollments[p]
  {
    if requests != [] {
      CancelledIsFinal(db, requests[..|requests| - 1], p);
      assert EnrollmentOk(db, p);
    }
  }

  /** The user and catalog of an enrollment are fixed and no enrollment disappears. */
  lemma {:induction false} IdentityIsFixed(db: DB, requests: seq<Request>, p: string)
    requires p in db.enrollments
    ensures p in Run(db, requests).enrollments
    ensures Run(db, requests).enrollments[p].user == db.enrollments[p].user
    ensures Run(db, requests).enrollments[p].catalog == db.enrollments[p].catalog
  {
    if requests != [] {
      IdentityIsFixed(db, requests[..|requests| - 1], p);
    }
  }

  /** After cancelling, the user can enroll in the same catalog again, subject only to the
      catalog being open and having a reservation left. */
  lemma ReenrollAfterCancel(db: DB, p: string, scope: nat, q: string, now: int)
    requires Consistent(db) && DoCancel(db, p, scope, now).Ok?
    requires CatalogOf(db, p).deletedAt.None? && IsOpen(CatalogOf(db, p)) && q !in db.enrollments
    ensures var next, e := DoCancel(db, p, scope, now).value, db.enrollments[p];
            DoCreate(next, e.catalog, e.user, q, now).Ok? <==>
              (CatalogOf(db, p).maxSlots.Some? ==> |Reservations(next, e.catalog)| < CatalogOf(db, p).maxSlots.value)
  {
    var next, e := DoCancel(db, p, scope, now).value, db.enrollments[p];
    forall r | r in next.enrollments ensures !Active(next.enrollments[r], e.catalog, e.user) {
      assert Unique(db, p, r);
    }
  }
}
