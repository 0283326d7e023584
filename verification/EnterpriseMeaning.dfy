/** What each enterprise call refuses, writes and records, column by column. */
module EnterpriseMeaning {
  import opened Options
  import opened Enterprises
  import opened EnterpriseAudit
  import Turnover

  // ----- Update -----

  /** The value a call asks a field to have; turnovers in the column's spelling. */
  function Wanted(changes: Changes, e: Enterprise, f: Field): string {
    match Asked(changes, f)
    case None => Get(e, f)
    case Some(v) =>
      if (f.InitialTurnover? || f.CurrentTurnover?) && Turnover.Legible(v) then Turnover.Print(Turnover.Cents(v)) else v
  }

  /** The row after an update: every field as wanted, the time only if some field changed, and
      identity, owner and creation as they were. */
  ghost predicate RowWritten(a: Enterprise, b: Enterprise, changes: Changes, now: int) {
    && (forall f: Field :: Get(b, f) == Wanted(changes, a, f))
    && b.id == a.id && b.owner == a.owner && b.createdAt == a.createdAt && b.deletedAt == a.deletedAt
    && b.updatedAt == (if exists f: Field :: Wanted(changes, a, f) != Get(a, f) then now else a.updatedAt)
  }

  /** The event of an update: who, when, and for each field that changed its new value, null
      for an emptied one that is not among the five required. */
  ghost predicate EventWritten(event: Event, a: Enterprise, changes: Changes, actor: Actor, now: int) {
    && event.enterprise == a.id && event.actor == actor.id && event.action == Update && event.createdAt == now
    && (forall f: Field :: f in event.changes <==> Wanted(changes, a, f) != Get(a, f))
    && (forall f: Field | f in event.changes ::
          event.changes[f]
          == if Wanted(changes, a, f) == ""
                && f !in {EnterpriseName, BusinessSector, InitialTurnover, CurrentTurnover, Status} then None
             else Some(Wanted(changes, a, f)))
  }

  lemma TargetIsWanted(e: Enterprise, changes: Changes, f: Field)
    requires Validated(changes).Ok?
    ensures Target(e, Validated(changes).value, f) == Wanted(changes, e, f)
  {
    if f.InitialTurnover? || f.CurrentTurnover? { TurnoverIsWanted(e, changes, f); }
    else { OtherIsWanted(e, changes, f); }
  }

  lemma TurnoverIsWanted(e: Enterprise, changes: Changes, f: Field)
    requires Validated(changes).Ok? && (f.InitialTurnover? || f.CurrentTurnover?)
    ensures Target(e, Validated(changes).value, f) == Wanted(changes, e, f)
  {
    var u := Validated(changes).value;
    if f.InitialTurnover? {
      assert u.initialTurnover == Normal(changes.initialTurnover).value;
      OrNormal(changes.initialTurnover, e.initialTurnover);
    } else {
      assert u.currentTurnover == Normal(changes.currentTurnover).value;
      OrNormal(changes.currentTurnover, e.currentTurnover);
    }
  }

  lemma OrNormal(text: Option<string>, there: string)
    requires Normal(text).Ok?
    ensures text.None? ==> Or(Normal(text).value, there) == there
    ensures text.Some? ==>
              Turnover.Legible(text.value)
              && Or(Normal(text).value, there) == Turnover.Print(Turnover.Cents(text.value))
  {}

  lemma OtherIsWanted(e: Enterprise, changes: Changes, f: Field)
    requires Validated(changes).Ok? && !f.InitialTurnover? && !f.CurrentTurnover?
    ensures Target(e, Validated(changes).value, f) == Wanted(changes, e, f)
  {
    AskedOther(changes, Validated(changes).value, f);
  }

  lemma AskedOther(changes: Changes, u: Changes, f: Field)
    requires u == changes.(initialTurnover := u.initialTurnover, currentTurnover := u.currentTurnover)
    requires !f.InitialTurnover? && !f.CurrentTurnover?
    ensures Asked(u, f) == Asked(changes, f)
  {}

  /** A diff with nothing in it, or an update: what the transaction makes of a row it sees. */
  lemma UpdateOutcome(db: DB, p: string, owner: nat, changes: Changes, now: int, event: Event)
    requires Audited(db) && Visible(db, p, owner) && Validated(changes).Ok?
    ensures var e, u := db.rows[p], Validated(changes).value;
            DoUpdate(db, p, owner, u, now, event)
            == if changes.status == Some("") then Err(Internal)
               else if Diff(e, u) == map[] then Ok(db)
               else Ok(DB(db.rows[p := Merge(e, u, now)], db.nextId,
                          db.events + [event.(enterprise := e.id, changes := Diff(e, u))]))
  {
    AuditedRow(db, p);
    StoredOutcome(db.rows[p], changes, now);
    if changes.status == Some("") { BlankStatusDiffers(db.rows[p], changes); }
  }

  lemma StoredOutcome(e: Enterprise, changes: Changes, now: int)
    requires Spelled(e) && e.businessSector != "" && e.status != "" && Validated(changes).Ok?
    ensures var merged := Merge(e, Validated(changes).value, now);
            Stored(merged) == if changes.status == Some("") then None else Some(merged)
  {
    var merged := Merge(e, Validated(changes).value, now);
    MergeIsStored(e, changes, now);
    StatusAndSector(e, changes, now);
    BlankOrStored(merged, changes.status == Some(""));
  }

  lemma BlankOrStored(e: Enterprise, blank: bool)
    requires Stored(e) == if e.businessSector == "" || e.status == "" then None else Some(e)
    requires e.businessSector != "" && (e.status == "" <==> blank)
    ensures Stored(e) == if blank then None else Some(e)
  {}

  lemma BlankStatusDiffers(e: Enterprise, changes: Changes)
    requires e.status != "" && Validated(changes).Ok? && changes.status == Some("")
    ensures Diff(e, Validated(changes).value) != map[]
  {
    DiffTells(e, Validated(changes).value, Status);
  }

  lemma StatusAndSector(e: Enterprise, changes: Changes, now: int)
    requires e.businessSector != "" && e.status != "" && Validated(changes).Ok?
    ensures var merged := Merge(e, Validated(changes).value, now);
            merged.businessSector != "" && (merged.status == "" <==> changes.status == Some(""))
  {}

  lemma MergeWrites(e: Enterprise, changes: Changes, now: int)
    requires Validated(changes).Ok? && Diff(e, Validated(changes).value) != map[]
    ensures RowWritten(e, Merge(e, Validated(changes).value, now), changes, now)
  {
    var u := Validated(changes).value;
    forall f: Field ensures Get(Merge(e, u, now), f) == Wanted(changes, e, f) {
      MergeSets(e, u, now, f);
      TargetIsWanted(e, changes, f);
    }
    var f := SomeKey(Diff(e, u));
    DiffTells(e, u, f);
    TargetIsWanted(e, changes, f);
    assert Wanted(changes, e, f) != Get(e, f);
  }

  lemma NothingWritten(e: Enterprise, changes: Changes, now: int)
    requires Validated(changes).Ok? && Diff(e, Validated(changes).value) == map[]
    ensures RowWritten(e, e, changes, now) && forall f: Field :: Wanted(changes, e, f) == Get(e, f)
  {
    forall f: Field ensures Get(e, f) == Wanted(changes, e, f) {
      DiffTells(e, Validated(changes).value, f);
      TargetIsWanted(e, changes, f);
    }
  }

  lemma DiffIsWanted(e: Enterprise, changes: Changes, event: Event, actor: Actor, now: int)
    requires Validated(changes).Ok? && event == Event(e.id, actor.id, Update, Diff(e, Validated(changes).value), now)
    ensures EventWritten(event, e, changes, actor, now)
  {
    forall f: Field
      ensures f in event.changes <==> Wanted(changes, e, f) != Get(e, f)
      ensures f in event.changes ==>
                event.changes[f]
                == if Wanted(changes, e, f) == ""
                      && f !in {EnterpriseName, BusinessSector, InitialTurnover, CurrentTurnover, Status} then None
                   else Some(Wanted(changes, e, f))
    {
      DiffTells(e, Validated(changes).value, f);
      TargetIsWanted(e, changes, f);
      if f in Diff(e, Validated(changes).value) { RecordedValue(e, Validated(changes).value, f); }
    }
  }

  lemma RecordedValue(e: Enterprise, u: Changes, f: Field)
    requires f in Diff(e, u)
    ensures Diff(e, u)[f]
            == if Target(e, u, f) == ""
                  && f !in {EnterpriseName, BusinessSector, InitialTurnover, CurrentTurnover, Status} then None
               else Some(Target(e, u, f))
  {}

  /** The database after an accepted update: the row, and one event exactly if a field
      changed. */
  ghost predicate ChangeWritten(db: DB, next: DB, actor: Actor, p: string, changes: Changes, now: int) {
    && p in db.rows && next.rows.Keys == db.rows.Keys && next.nextId == db.nextId
    && (forall q | q in db.rows && q != p :: next.rows[q] == db.rows[q])
    && RowWritten(db.rows[p], next.rows[p], changes, now)
    && (if exists f: Field :: Wanted(changes, db.rows[p], f) != Get(db.rows[p], f) then
          && |next.events| == |db.events| + 1 && next.events[..|db.events|] == db.events
          && EventWritten(next.events[|db.events|], db.rows[p], changes, actor, now)
        else next.events == db.events)
  }

  lemma NoChangeWritten(db: DB, actor: Actor, p: string, changes: Changes, now: int)
    requires p in db.rows && Validated(changes).Ok? && Diff(db.rows[p], Validated(changes).value) == map[]
    ensures ChangeWritten(db, db, actor, p, changes, now)
  {
    NothingWritten(db.rows[p], changes, now);
  }

  lemma SomeChangeWritten(db: DB, next: DB, actor: Actor, p: string, changes: Changes, event: Event)
    requires p in db.rows && Validated(changes).Ok?
    requires event.changes == Diff(db.rows[p], Validated(changes).value) && event.changes != map[]
    requires event.enterprise == db.rows[p].id && event.actor == actor.id && event.action == Update
    requires next == DB(db.rows[p := Merge(db.rows[p], Validated(changes).value, event.createdAt)], db.nextId,
                        db.events + [event])
    ensures ChangeWritten(db, next, actor, p, changes, event.createdAt)
  {
    var e := db.rows[p];
    MergeWrites(e, changes, event.createdAt);
    DiffIsWanted(e, changes, event, actor, event.createdAt);
    var f := SomeKey(event.changes);
    assert Wanted(changes, e, f) != Get(e, f);
  }

  /** What an accepted update writes. */
  lemma ChangeWrites(db: DB, actor: Actor, p: string, changes: Changes, now: int)
    requires Audited(db) && Apply(db, Change(actor, p, changes, now)).Ok?
    ensures ChangeWritten(db, Apply(db, Change(actor, p, changes, now)).value, actor, p, changes, now)
  {
    var event := Event(0, actor.id, Update, map[], now);
    UpdateOutcome(db, p, Scope(actor), changes, now, event);
    var diff := Diff(db.rows[p], Validated(changes).value);
    if diff == map[] {
      NoChangeWritten(db, actor, p, changes, now);
    } else {
      SomeChangeWritten(db, Apply(db, Change(actor, p, changes, now)).value, actor, p, changes,
                        event.(enterprise := db.rows[p].id, changes := diff));
    }
  }

  /** When an update is refused: a member asking for one of nine assessment fields; an empty
      name or sector, or a turnover that is not one; a row that is missing, deleted or, for a
      member, of another owner; an empty status, which the column rejects. */
  lemma ChangeRefused(db: DB, actor: Actor, p: string, changes: Changes, now: int)
    requires Audited(db)
    ensures var r := Apply(db, Change(actor, p, changes, now));
            if !actor.admin && AsksForAssessment(changes) then r == Err(Forbidden)
            else if || changes.enterpriseName == Some("") || changes.businessSector == Some("")
                    || (changes.initialTurnover.Some? && !Turnover.Legible(changes.initialTurnover.value))
                    || (changes.currentTurnover.Some? && !Turnover.Legible(changes.currentTurnover.value)) then
              r == Err(BadRequest)
            else if || p !in db.rows || db.rows[p].deletedAt.Some?
                    || (!actor.admin && actor.id != 0 && db.rows[p].owner != actor.id) then
              r == Err(NotFound)
            else if changes.status == Some("") then r == Err(Internal)
            else r.Ok?
  {
    AssessmentIsRestricted(changes);
    if Validated(changes).Ok? && Visible(db, p, Scope(actor)) {
      UpdateOutcome(db, p, Scope(actor), changes, now, Event(0, actor.id, Update, map[], now));
    }
  }

  ghost predicate AsksForAssessment(changes: Changes) {
    exists f: Field ::
      && f in {LegalStatus, BusinessDigitization, InterventionNeeds, TrainingStatus, MentoringStatus, CapitalAccess,
               Partnership, DisporaSupport, Status}
      && Asked(changes, f).Some?
  }

  lemma AssessmentIsRestricted(changes: Changes)
    ensures AsksForAssessment(changes) <==> OwnerRestricted(changes)
  {
    assert Asked(changes, LegalStatus) == changes.legalStatus;
    assert Asked(changes, BusinessDigitization) == changes.businessDigitization;
    assert Asked(changes, InterventionNeeds) == changes.interventionNeeds;
    assert Asked(changes, TrainingStatus) == changes.trainingStatus;
    assert Asked(changes, MentoringStatus) == changes.mentoringStatus;
    assert Asked(changes, CapitalAccess) == changes.capitalAccess;
    assert Asked(changes, Partnership) == changes.partnership;
    assert Asked(changes, DisporaSupport) == changes.disporaSupport;
    assert Asked(changes, Status) == changes.status;
  }

  // ----- Create and delete -----

  /** Registering is refused without an owner id, for an empty name or sector or a turnover that
      is not one, and for a public id in use; otherwise it adds one active row of the caller
      with the columns given, both turnovers in the column's spelling, and a create event of
      the caller for it. */
  lemma RegisterWrites(db: DB, actor: Actor, d: Draft, p: string, now: int)
    ensures var r := Apply(db, Register(actor, d, p, now));
            if actor.id == 0 then r == Err(Forbidden)
            else if || d.enterpriseName == "" || d.businessSector == ""
                    || !Turnover.Legible(d.initialTurnover) || !Turnover.Legible(d.currentTurnover) then
              r == Err(BadRequest)
            else if p in db.rows then r == Err(DuplicatePublicId)
            else
              && r.Ok? && r.value.rows.Keys == db.rows.Keys + {p} && r.value.nextId == db.nextId + 1
              && (forall q | q in db.rows :: r.value.rows[q] == db.rows[q])
              && r.value.rows[p]
                 == Enterprise(db.nextId, actor.id, d.enterpriseName, d.description, d.address, d.focusCommodity, "",
                               d.businessSector, d.legalStatus, d.businessDigitization, d.interventionNeeds,
                               d.trainingStatus, d.mentoringStatus, d.capitalAccess, d.partnership,
                               Turnover.Print(Turnover.Cents(d.initialTurnover)),
                               Turnover.Print(Turnover.Cents(d.currentTurnover)), d.district, "active", now, now, None)
              && |r.value.events| == |db.events| + 1 && r.value.events[..|db.events|] == db.events
              && var event := r.value.events[|db.events|];
              && event.enterprise == db.nextId && event.actor == actor.id && event.action == Create
              && event.createdAt == now && AllRecorded(event.changes, r.value.rows[p])
  {
    if Acceptable(d) {
      NewRowIsStored(d, actor.id, now);
      CreateRecords(NewRow(d, actor.id, now).(id := db.nextId));
      SameChanges(NewRow(d, actor.id, now), db.nextId);
    }
  }

  /** Every field but dispora_support is recorded, with its value, or null for an empty one
      that is not among the five required. */
  ghost predicate Recorded(changes: map<Field, Option<string>>, e: Enterprise, f: Field) {
    && (f in changes <==> f != DisporaSupport)
    && (f in changes ==>
          changes[f]
          == if Get(e, f) == ""
                && f !in {EnterpriseName, BusinessSector, InitialTurnover, CurrentTurnover, Status} then None
             else Some(Get(e, f)))
  }

  ghost predicate AllRecorded(changes: map<Field, Option<string>>, e: Enterprise) {
    forall f: Field :: Recorded(changes, e, f)
  }

  lemma SameChanges(e: Enterprise, id: nat)
    ensures CreateChanges(e.(id := id)) == CreateChanges(e)
  {}

  lemma CreateRecords(e: Enterprise)
    ensures AllRecorded(CreateChanges(e), e)
  {
    forall f: Field ensures Recorded(CreateChanges(e), e, f) {
      if Rank(f) < 3 { RecordedNames(e, f); }
      else if Rank(f) < 6 { RecordedSupport(e, f); }
      else if Rank(f) < 9 { RecordedStanding(e, f); }
      else if Rank(f) < 13 { RecordedProgress(e, f); }
      else { RecordedRest(e, f); }
    }
  }

  lemma RecordedNames(e: Enterprise, f: Field)
    requires Rank(f) < 3
    ensures Recorded(CreateChanges(e), e, f)
  {}

  lemma RecordedSupport(e: Enterprise, f: Field)
    requires 3 <= Rank(f) < 6
    ensures Recorded(CreateChanges(e), e, f)
  {}

  lemma RecordedStanding(e: Enterprise, f: Field)
    requires 6 <= Rank(f) < 9
    ensures Recorded(CreateChanges(e), e, f)
  {}

  lemma RecordedProgress(e: Enterprise, f: Field)
    requires 9 <= Rank(f) < 13
    ensures Recorded(CreateChanges(e), e, f)
  {}

  lemma RecordedRest(e: Enterprise, f: Field)
    requires 13 <= Rank(f)
    ensures Recorded(CreateChanges(e), e, f)
  {}

  /** Deleting is refused for a row that is missing, deleted or, for a member, of another owner;
      otherwise it stamps the row and adds the caller's delete event, and changes no field. */
  lemma RemoveWrites(db: DB, actor: Actor, p: string, now: int)
    ensures var r := Apply(db, Remove(actor, p, now));
            if || p !in db.rows || db.rows[p].deletedAt.Some?
               || (!actor.admin && actor.id != 0 && db.rows[p].owner != actor.id) then
              r == Err(NotFound)
            else
              && r.Ok? && r.value.nextId == db.nextId
              && r.value.rows == db.rows[p := db.rows[p].(deletedAt := Some(now), updatedAt := now)]
              && r.value.events == db.events + [Event(db.rows[p].id, actor.id, Delete, map[], now)]
  {}
}
