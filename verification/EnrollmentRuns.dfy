/** The guarantees of the atomic transactions, for every interleaving of locked statements. */
module EnrollmentRuns {
  import opened Options
  import opened Enrollments
  import opened EnrollmentTheorems
  import opened EnrollmentLocks

  /** Registered-count conservation, uniqueness and lifecycle hold of the committed data after
      every schedule of statements. */
  lemma InterleavedConsistent(steps: seq<Step>)
    requires Legal(steps)
    ensures Consistent(Exec(steps).db)
  {
    Serializable(steps);
    RunKeeps(EMPTY, History(steps));
  }

  /** No request that took effect lowered a limit below its reservations or reinstated a
      rejected enrollment into a catalog without one left. */
  ghost predicate HarmlessHistory(steps: seq<Step>)
    requires Legal(steps)
  {
    forall i | 0 <= i < |History(steps)| :: Harmless(Run(EMPTY, History(steps)[..i]), History(steps)[i])
  }

  /** In such schedules reservations fit at every moment, although Create compares a count
      that cancellations may have made stale; and the statement that accepts a pending
      enrollment never fails. */
  lemma InterleavedReserved(steps: seq<Step>, c: nat)
    requires Legal(steps) && HarmlessHistory(steps)
    ensures AllReserved(Exec(steps).db)
    ensures Enabled(Exec(steps), WriteStatus(c)) && TxOf(Exec(steps), c).before.status == Pending ==>
              Failure(Exec(steps), WriteStatus(c)).None?
  {
    Serializable(steps);
    RunReserved(History(steps));
    var s := Exec(steps);
    var tx := TxOf(s, c);
    if Enabled(s, WriteStatus(c)) && tx.before.status == Pending {
      InterleavedConsistent(steps);
      ScheduleKeeps(steps);
      assert TxOk(s, c, tx);
      PendingCanBeAccepted(s.db, tx.request.publicId, 0);
    }
  }

  /** No request that took effect set a limit below the seats then taken. */
  ghost predicate SparingHistory(steps: seq<Step>)
    requires Legal(steps)
  {
    forall i | 0 <= i < |History(steps)| :: SparesSeats(Run(EMPTY, History(steps)[..i]), History(steps)[i])
  }

  /** In such schedules, whatever the interleaving of statements, accepted enrollments never
      exceed a set limit. */
  lemma InterleavedSeats(steps: seq<Step>, catalog: nat)
    requires Legal(steps) && SparingHistory(steps) && catalog in Exec(steps).db.catalogs
    requires Exec(steps).db.catalogs[catalog].maxSlots.Some?
    ensures |Seats(Exec(steps).db, catalog)| <= Exec(steps).db.catalogs[catalog].maxSlots.value
  {
    Serializable(steps);
    RunSeats(History(steps));
  }

  /** The transaction is about to publish a decrement: of a cancellation, or of a status
      update that moves an accepted enrollment away. */
  predicate Decrements(tx: Tx) {
    || tx.CancelCounted?
    || (tx.StatusWritten? && tx.request.UpdateStatus? && tx.before.status == Accepted && tx.request.status != Accepted)
  }

  /** No decrement that a transaction is about to publish clamps at zero. */
  lemma InterleavedNeverClamps(steps: seq<Step>, c: nat)
    requires Legal(steps) && Decrements(TxOf(Exec(steps), c))
    ensures Decremented(TxOf(Exec(steps), c).row.registeredCount) == TxOf(Exec(steps), c).row.registeredCount - 1
  {
    InterleavedConsistent(steps);
    ScheduleKeeps(steps);
    var s, tx := Exec(steps), TxOf(Exec(steps), c);
    assert TxOk(s, c, tx);
    NeverClamps(s.db, tx.request.publicId);
  }

  /** A schedule cut short is a schedule, and its history is a prefix. */
  lemma {:induction false} HistoryPrefix(steps: seq<Step>, k: nat)
    requires Legal(steps) && k <= |steps|
    ensures Legal(steps[..k]) && History(steps[..k]) <= History(steps)
  {
    if k == |steps| {
      assert steps[..k] == steps;
    } else {
      var prefix := steps[..|steps| - 1];
      HistoryPrefix(prefix, k);
      assert prefix[..k] == steps[..k];
    }
  }

  lemma CancelledLater(h: seq<Request>, g: seq<Request>, p: string)
    requires h <= g && Consistent(Run(EMPTY, h))
    requires p in Run(EMPTY, h).enrollments && Run(EMPTY, h).enrollments[p].status == Cancelled
    ensures p in Run(EMPTY, g).enrollments && Run(EMPTY, g).enrollments[p] == Run(EMPTY, h).enrollments[p]
  {
    var rest := g[|h|..];
    assert g == h + rest;
    RunJoin(EMPTY, h, rest);
    CancelledIsFinal(Run(EMPTY, h), rest, p);
  }

  /** Cancelled enrollments are frozen between any two moments of a schedule. */
  lemma InterleavedCancelledIsFinal(steps: seq<Step>, k: nat, p: string)
    requires Legal(steps) && k <= |steps| && Legal(steps[..k])
    requires p in Exec(steps[..k]).db.enrollments && Exec(steps[..k]).db.enrollments[p].status == Cancelled
    ensures p in Exec(steps).db.enrollments
    ensures Exec(steps).db.enrollments[p] == Exec(steps[..k]).db.enrollments[p]
  {
    HistoryPrefix(steps, k);
    Serializable(steps);
    Serializable(steps[..k]);
    InterleavedConsistent(steps[..k]);
    CancelledLater(History(steps[..k]), History(steps), p);
  }

  lemma {:induction false} RunJoin(db: DB, first: seq<Request>, second: seq<Request>)
    ensures Run(db, first + second) == Run(Run(db, first), second)
  {
    if second == [] {
      assert first + second == first;
    } else {
      var n := |second| - 1;
      assert (first + second)[..|first| + n] == first + second[..n];
      RunJoin(db, first, second[..n]);
    }
  }
}
