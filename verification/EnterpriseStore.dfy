/** The enterprise repository and use case as an object that changes its tables in place.
    Repository methods carry out the transaction of the same name; use-case methods validate
    and call them, and keep every row in agreement with its log. */
module EnterpriseStore {
  import opened Options
  import opened Enterprises
  import opened EnterpriseAudit
  import Turnover

  const PUBLIC_ID_ATTEMPTS := 5

  /** Success publishes the transaction's result, failure nothing. */
  ghost predicate Performs(before: DB, after: DB, result: Result<DB, Error>, error: Option<Error>) {
    && (error.None? <==> result.Ok?)
    && (error.Some? ==> result == Err(error.value) && after == before)
    && (error.None? ==> result == Ok(after))
  }

  class Store {
    var rows: map<string, Enterprise>
    var nextId: nat
    var events: seq<Event>

    ghost function View(): DB
      reads this
    {
      DB(rows, nextId, events)
    }

    ghost predicate Valid()
      reads this
    {
      Audited(View())
    }

    constructor ()
      ensures Valid() && View() == EMPTY
    {
      rows := map[];
      nextId := 1;
      events := [];
    }

    // ----- Repository -----

    method InsertEnterprise(publicId: string, e: Enterprise, event: Event) returns (error: Option<Error>)
      modifies this
      ensures Performs(old(View()), View(), DoInsert(old(View()), publicId, e, event), error)
    {
      var stored := Stored(e);
      if stored.None? {
        return Some(Internal);
      }
      if publicId in rows {
        return Some(DuplicatePublicId);
      }
      rows := rows[publicId := stored.value.(id := nextId)];
      events := events + [event.(enterprise := nextId)];
      nextId := nextId + 1;
      return None;
    }

    method ChangeEnterprise(publicId: string, owner: nat, changes: Changes, updatedAt: int, event: Event)
      returns (error: Option<Error>)
      modifies this
      ensures Performs(old(View()), View(), DoUpdate(old(View()), publicId, owner, changes, updatedAt, event), error)
    {
      if publicId !in rows || rows[publicId].deletedAt.Some? || (owner != 0 && rows[publicId].owner != owner) {
        return Some(NotFound);
      }
      var locked := rows[publicId];
      var merged, changed := ApplyEnterpriseUpdate(locked, changes, updatedAt);
      if |changed| == 0 {
        return None;
      }
      var stored := Stored(merged);
      if stored.None? {
        return Some(Internal);
      }
      rows := rows[publicId := stored.value];
      events := events + [event.(enterprise := locked.id, changes := changed)];
      return None;
    }

    method SoftDeleteEnterprise(publicId: string, owner: nat, deletedAt: int, event: Event)
      returns (error: Option<Error>)
      modifies this
      ensures Performs(old(View()), View(), DoDelete(old(View()), publicId, owner, deletedAt, event), error)
    {
      if publicId !in rows || rows[publicId].deletedAt.Some? || (owner != 0 && rows[publicId].owner != owner) {
        return Some(NotFound);
      }
      rows := rows[publicId := rows[publicId].(deletedAt := Some(deletedAt), updatedAt := deletedAt)];
      events := events + [event.(enterprise := rows[publicId].id)];
      return None;
    }

    // ----- Use case -----

    /** Registers under the first of five random public ids that is free. */
    method CreateEnterprise(actor: Actor, draft: Draft, draws: seq<string>, now: int)
      returns (error: Option<Error>, ghost used: nat)
      requires Valid() && |draws| == PUBLIC_ID_ATTEMPTS
      modifies this
      ensures Valid()
      ensures error == Some(Forbidden) <==> actor.id == 0
      ensures error == Some(BadRequest) <==> actor.id != 0 && !Acceptable(draft)
      ensures error == Some(PublicIdExhausted) <==>
                actor.id != 0 && Acceptable(draft) && forall i | 0 <= i < |draws| :: draws[i] in old(rows)
      ensures error in {None, Some(Forbidden), Some(BadRequest), Some(PublicIdExhausted)}
      ensures error.Some? ==> View() == old(View())
      ensures error.None? ==>
                && used < |draws| && draws[used] !in old(rows) && (forall j | 0 <= j < used :: draws[j] in old(rows))
                && Apply(old(View()), Register(actor, draft, draws[used], now)) == Ok(View())
    {
      used := 0;
      if actor.id == 0 {
        return Some(Forbidden), used;
      }
      var row := BuildRow(actor, draft, now);
      if row.Err? {
        return Some(row.error), used;
      }
      for attempt := 0 to PUBLIC_ID_ATTEMPTS
        invariant View() == old(View()) && Valid()
        invariant forall j | 0 <= j < attempt :: draws[j] in rows
      {
        used := attempt;
        error := RegisterUnder(actor, draft, row.value, draws[attempt], now);
        if error != Some(DuplicatePublicId) {
          return;
        }
      }
      return Some(PublicIdExhausted), used;
    }

    /** Validates a draft and fills in the row. */
    method BuildRow(actor: Actor, draft: Draft, now: int) returns (row: Result<Enterprise, Error>)
      ensures row == if Acceptable(draft) then Ok(NewRow(draft, actor.id, now)) else Err(BadRequest)
    {
      if draft.enterpriseName == "" || draft.businessSector == "" {
        return Err(BadRequest);
      }
      var initialTurnover := Turnover.NormalizeTurnover(draft.initialTurnover);
      if initialTurnover.Err? {
        return Err(BadRequest);
      }
      var currentTurnover := Turnover.NormalizeTurnover(draft.currentTurnover);
      if currentTurnover.Err? {
        return Err(BadRequest);
      }
      return Ok(Enterprise(0, actor.id, draft.enterpriseName, draft.description, draft.address,
                           draft.focusCommodity, "", draft.businessSector, draft.legalStatus,
                           draft.businessDigitization, draft.interventionNeeds, draft.trainingStatus,
                           draft.mentoringStatus, draft.capitalAccess, draft.partnership,
                           initialTurnover.value, currentTurnover.value, draft.district, ACTIVE, now, now, None));
    }

    /** One attempt with one generated public id. */
    method RegisterUnder(actor: Actor, draft: Draft, row: Enterprise, publicId: string, now: int)
      returns (error: Option<Error>)
      requires Valid() && actor.id != 0 && Acceptable(draft) && row == NewRow(draft, actor.id, now)
      modifies this
      ensures Valid()
      ensures error == if publicId in old(rows) then Some(DuplicatePublicId) else None
      ensures error.Some? ==> View() == old(View())
      ensures error.None? ==> Apply(old(View()), Register(actor, draft, publicId, now)) == Ok(View())
    {
      ApplyKeeps(View(), Register(actor, draft, publicId, now));
      NewRowIsStored(draft, actor.id, now);
      error := InsertEnterprise(publicId, row, Event(0, actor.id, Create, CreateChanges(row), now));
    }

    method UpdateEnterprise(actor: Actor, publicId: string, changes: Changes, now: int) returns (error: Option<Error>)
      requires Valid()
      modifies this
      ensures Valid()
      ensures Performs(old(View()), View(), Apply(old(View()), Change(actor, publicId, changes, now)), error)
    {
      if !actor.admin && OwnerRestricted(changes) {
        return Some(Forbidden);
      }
      var update := Validate(changes);
      if update.Err? {
        return Some(BadRequest);
      }
      ApplyKeeps(View(), Change(actor, publicId, changes, now));
      error := ChangeEnterprise(publicId, Scope(actor), update.value, now, Event(0, actor.id, Update, map[], now));
    }

    /** The field checks, with both turnovers normalised. */
    method Validate(changes: Changes) returns (update: Result<Changes, Error>)
      ensures update == Validated(changes)
    {
      if changes.enterpriseName == Some("") || changes.businessSector == Some("") {
        return Err(BadRequest);
      }
      var next := changes;
      if changes.initialTurnover.Some? {
        var turnover := Turnover.NormalizeTurnover(changes.initialTurnover.value);
        if turnover.Err? {
          return Err(BadRequest);
        }
        next := next.(initialTurnover := Some(turnover.value));
      }
      if changes.currentTurnover.Some? {
        var turnover := Turnover.NormalizeTurnover(changes.currentTurnover.value);
        if turnover.Err? {
          return Err(BadRequest);
        }
        next := next.(currentTurnover := Some(turnover.value));
      }
      return Ok(next);
    }

    method DeleteEnterprise(actor: Actor, publicId: string, now: int) returns (error: Option<Error>)
      requires Valid()
      modifies this
      ensures Valid()
      ensures Performs(old(View()), View(), Apply(old(View()), Remove(actor, publicId, now)), error)
    {
      ApplyKeeps(View(), Remove(actor, publicId, now));
      if publicId !in rows || rows[publicId].deletedAt.Some?
          || (!actor.admin && actor.id != 0 && rows[publicId].owner != actor.id) {
        return Some(NotFound);
      }
      error := SoftDeleteEnterprise(publicId, Scope(actor), now, Event(0, actor.id, Delete, map[], now));
    }
  }
}
