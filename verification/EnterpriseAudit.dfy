/** Enterprises and their audit log: every committed create, update and delete appends one
    event in the same transaction. Each transaction is one atomic step. */
module EnterpriseAudit {
  import opened Options
  import opened Enterprises
  import Turnover

  datatype Action = Create | Update | Delete

  datatype Event = Event(enterprise: nat, actor: nat, action: Action, changes: map<Field, Option<string>>,
        createdAt: int)

  datatype Actor = Actor(id: nat, admin: bool)

  /** Rows by their unique public id, and the events in id order. */
  datatype DB = DB(rows: map<string, Enterprise>, nextId: nat, events: seq<Event>)

  const EMPTY := DB(map[], 1, [])

  datatype Error = Forbidden | BadRequest | NotFound | DuplicatePublicId | PublicIdExhausted | Internal

  // ----- What the database stores -----

  /** text to NUMERIC(15,2) and back. */
  function Canonical(text: string): Option<string> {
    if Turnover.Legible(text) && Turnover.TrimSpace(text) != "" then Some(Turnover.Print(Turnover.Cents(text)))
        else None
  }

  /** The row a write of `e` leaves behind, if the casts of the required enums and of the
      turnovers succeed. */
  function Stored(e: Enterprise): Option<Enterprise> {
    if e.businessSector == "" || e.status == "" || Canonical(e.initialTurnover).None?
        || Canonical(e.currentTurnover).None? then None
    else Some(e.(initialTurnover := Canonical(e.initialTurnover).value,
                 currentTurnover := Canonical(e.currentTurnover).value))
  }

  // ----- The repository's transactions -----

  predicate Visible(db: DB, publicId: string, owner: nat) {
    && publicId in db.rows && db.rows[publicId].deletedAt.None?
    && (owner == 0 || db.rows[publicId].owner == owner)
  }

  /** INSERT and the create event. */
  function DoInsert(db: DB, publicId: string, e: Enterprise, event: Event): Result<DB, Error> {
    if Stored(e).None? then Err(Internal)
    else if publicId in db.rows then Err(DuplicatePublicId)
    else Ok(DB(db.rows[publicId := Stored(e).value.(id := db.nextId)], db.nextId + 1,
               db.events + [event.(enterprise := db.nextId)]))
  }

  /** Lock, merge, and if anything changed the UPDATE and the update event. */
  function DoUpdate(db: DB, publicId: string, owner: nat, changes: Changes, updatedAt: int, event: Event):
    Result<DB, Error>
  {
    if !Visible(db, publicId, owner) then Err(NotFound)
    else
      var locked := db.rows[publicId];
      if Diff(locked, changes) == map[] then Ok(db)
      else
        var stored := Stored(Merge(locked, changes, updatedAt));
        if stored.None? then Err(Internal)
        else Ok(db.(rows := db.rows[publicId := stored.value],
                    events := db.events + [event.(enterprise := locked.id, changes := Diff(locked, changes))]))
  }

  /** The soft-deleting UPDATE and the delete event. */
  function DoDelete(db: DB, publicId: string, owner: nat, at: int, event: Event): Result<DB, Error> {
    if !Visible(db, publicId, owner) then Err(NotFound)
    else Ok(db.(rows := db.rows[publicId := db.rows[publicId].(deletedAt := Some(at), updatedAt := at)],
                events := db.events + [event.(enterprise := db.rows[publicId].id)]))
  }

  // ----- The use case -----

  function Scope(actor: Actor): nat {
    if actor.admin then 0 else actor.id
  }

  /** Fields only an admin may change. */
  predicate AdminOnly(f: Field) {
    f in {LegalStatus, BusinessDigitization, InterventionNeeds, TrainingStatus, MentoringStatus, CapitalAccess,
          Partnership, DisporaSupport, Status}
  }

  predicate OwnerRestricted(u: Changes) {
    || u.legalStatus.Some? || u.businessDigitization.Some? || u.interventionNeeds.Some? || u.trainingStatus.Some?
    || u.mentoringStatus.Some? || u.capitalAccess.Some? || u.partnership.Some? || u.disporaSupport.Some?
          || u.status.Some?
  }

  /** The turnover as normalizeTurnover returns it. */
  function Normal(text: Option<string>): Result<Option<string>, Error> {
    if text.None? then Ok(None)
    else if Turnover.Legible(text.value) then Ok(Some(Turnover.Print(Turnover.Cents(text.value))))
    else Err(BadRequest)
  }

  /** The update that validation passes on. Text fields arrive trimmed and within limits. */
  function Validated(u: Changes): Result<Changes, Error> {
    if u.enterpriseName == Some("") || u.businessSector == Some("") then Err(BadRequest)
    else if Normal(u.initialTurnover).Err? || Normal(u.currentTurnover).Err? then Err(BadRequest)
    else Ok(u.(initialTurnover := Normal(u.initialTurnover).value, currentTurnover := Normal(u.currentTurnover).value))
  }

  /** What a caller gives to register an enterprise. */
  datatype Draft = Draft(
    enterpriseName: string, description: string, address: string, focusCommodity: string,
    businessSector: string, legalStatus: string, businessDigitization: string, interventionNeeds: string,
    trainingStatus: string, mentoringStatus: string, capitalAccess: string, partnership: string,
    initialTurnover: string, currentTurnover: string, district: string)

  const ACTIVE := "active"

  predicate Acceptable(d: Draft) {
    && d.enterpriseName != "" && d.businessSector != ""
    && Turnover.Legible(d.initialTurnover) && Turnover.Legible(d.currentTurnover)
  }

  function NewRow(d: Draft, owner: nat, now: int): Enterprise
    requires Acceptable(d)
  {
    Enterprise(0, owner, d.enterpriseName, d.description, d.address, d.focusCommodity, "", d.businessSector,
               d.legalStatus, d.businessDigitization, d.interventionNeeds, d.trainingStatus, d.mentoringStatus,
               d.capitalAccess, d.partnership, Turnover.Print(Turnover.Cents(d.initialTurnover)),
               Turnover.Print(Turnover.Cents(d.currentTurnover)), d.district, ACTIVE, now, now, None)
  }

  /** The changed_fields of a create event: every field but dispora_support. */
  function CreateChanges(e: Enterprise): map<Field, Option<string>> {
    map[
      EnterpriseName := Some(e.enterpriseName),
      Description := AuditValue(Description, e.description),
      Address := AuditValue(Address, e.address),
      FocusCommodity := AuditValue(FocusCommodity, e.focusCommodity),
      BusinessSector := Some(e.businessSector),
      LegalStatus := AuditValue(LegalStatus, e.legalStatus),
      BusinessDigitization := AuditValue(BusinessDigitization, e.businessDigitization),
      InterventionNeeds := AuditValue(InterventionNeeds, e.interventionNeeds),
      TrainingStatus := AuditValue(TrainingStatus, e.trainingStatus),
      MentoringStatus := AuditValue(MentoringStatus, e.mentoringStatus),
      CapitalAccess := AuditValue(CapitalAccess, e.capitalAccess),
      Partnership := AuditValue(Partnership, e.partnership),
      InitialTurnover := Some(e.initialTurnover),
      CurrentTurnover := Some(e.currentTurnover),
      District := AuditValue(District, e.district),
      Status := Some(e.status)]
  }

  datatype Request =
    | Register(actor: Actor, draft: Draft, publicId: string, now: int)
    | Change(actor: Actor, publicId: string, changes: Changes, now: int)
    | Remove(actor: Actor, publicId: string, now: int)

  /** One use-case call; Register with one generated public id. */
  function Apply(db: DB, request: Request): Result<DB, Error> {
    match request
    case Register(actor, draft, publicId, now) =>
      if actor.id == 0 then Err(Forbidden)
      else if !Acceptable(draft) then Err(BadRequest)
      else
        var e := NewRow(draft, actor.id, now);
        DoInsert(db, publicId, e, Event(0, actor.id, Create, CreateChanges(e), now))
    case Change(actor, publicId, changes, now) =>
      if !actor.admin && OwnerRestricted(changes) then Err(Forbidden)
      else if Validated(changes).Err? then Err(BadRequest)
      else DoUpdate(db, publicId, Scope(actor), Validated(changes).value, now, Event(0, actor.id, Update, map[], now))
    case Remove(actor, publicId, now) =>
      DoDelete(db, publicId, Scope(actor), now, Event(0, actor.id, Delete, map[], now))
  }

  function After(db: DB, request: Request): DB {
    if Apply(db, request).Ok? then Apply(db, request).value else db
  }

  ghost function Run(db: DB, requests: seq<Request>): DB {
    if requests == [] then db else After(Run(db, requests[..|requests| - 1]), requests[|requests| - 1])
  }

  // ----- Replay -----

  /** The events of one enterprise, in id order. */
  function EventsOf(events: seq<Event>, id: nat): seq<Event> {
    if events == [] then []
    else
      var n := |events| - 1;
      EventsOf(events[..n], id) + (if events[n].enterprise == id then [events[n]] else [])
  }

  /** The field values of a record, after one event's changes. */
  function Changed(record: Field -> string, changes: map<Field, Option<string>>): Field -> string {
    f => if f in changes then Shown(changes[f]) else record(f)
  }

  /** Folding events over a record of empty fields. */
  function Replay(events: seq<Event>): Field -> string {
    if events == [] then (f => "")
    else Changed(Replay(events[..|events| - 1]), events[|events| - 1].changes)
  }

  /** The log of a row: created once and first, deleted at most once and last, rebuilding
      every field, and stamped with the row's times. */
  ghost predicate Logs(h: seq<Event>, e: Enterprise) {
    && h != []
    && (forall f: Field :: Replay(h)(f) == Get(e, f))
    && h[0].action == Create && h[0].createdAt == e.createdAt && h[|h| - 1].createdAt == e.updatedAt
    && (forall i | 0 < i < |h| :: h[i].action != Create)
    && (forall i | 0 <= i < |h| - 1 :: h[i].action != Delete)
    && (h[|h| - 1].action == Delete <==> e.deletedAt.Some?)
    && (e.deletedAt.Some? ==> e.deletedAt.value == e.updatedAt)
  }

  /** Update events record something, and exactly the fields whose value they changed. */
  ghost predicate Exact(h: seq<Event>) {
    forall k | 0 < k < |h| && h[k].action == Update :: ExactAt(h, k)
  }

  ghost predicate ExactAt(h: seq<Event>, k: nat)
    requires k < |h|
  {
    && h[k].changes != map[]
    && (forall f: Field :: f in h[k].changes <==> Replay(h[..k])(f) != Replay(h[..k + 1])(f))
  }

  /** Turnovers are stored in the column's spelling. */
  predicate Spelled(e: Enterprise) {
    && Canonical(e.initialTurnover) == Some(e.initialTurnover)
    && Canonical(e.currentTurnover) == Some(e.currentTurnover)
  }

  /** A row and its log. */
  ghost predicate Agree(e: Enterprise, h: seq<Event>) {
    Spelled(e) && e.businessSector != "" && e.status != "" && Logs(h, e) && Exact(h)
  }

  ghost predicate RowOk(db: DB, p: string, agree: (Enterprise, seq<Event>) -> bool)
    requires p in db.rows
  {
    db.rows[p].id < db.nextId && agree(db.rows[p], EventsOf(db.events, db.rows[p].id))
  }

  ghost predicate DistinctIds(rows: map<string, Enterprise>) {
    forall p, q | p in rows && q in rows && rows[p].id == rows[q].id :: p == q
  }

  ghost predicate IdsOk(db: DB) {
    && DistinctIds(db.rows)
    && (forall i | 0 <= i < |db.events| :: db.events[i].enterprise < db.nextId)
  }

  /** Every row agrees with its log. */
  ghost predicate AuditedBy(db: DB, agree: (Enterprise, seq<Event>) -> bool) {
    IdsOk(db) && forall p {:trigger RowOk(db, p, agree)} | p in db.rows :: RowOk(db, p, agree)
  }

  ghost predicate Audited(db: DB) {
    AuditedBy(db, Agree)
  }

  lemma AuditedRow(db: DB, p: string)
    requires Audited(db) && p in db.rows
    ensures db.rows[p].id < db.nextId && Agree(db.rows[p], EventsOf(db.events, db.rows[p].id))
  {
    assert RowOk(db, p, Agree);
  }

  // ----- How logs grow -----

  lemma EventsAppend(events: seq<Event>, e: Event, id: nat)
    ensures EventsOf(events + [e], id) == EventsOf(events, id) + (if e.enterprise == id then [e] else [])
  {
    assert (events + [e])[..|events|] == events;
  }

  lemma {:induction false} NoEvents(events: seq<Event>, id: nat)
    requires forall i | 0 <= i < |events| :: events[i].enterprise != id
    ensures EventsOf(events, id) == []
  {
    if events != [] { NoEvents(events[..|events| - 1], id); }
  }

  lemma ReplayAppend(h: seq<Event>, e: Event, f: Field)
    ensures Replay(h + [e])(f) == if f in e.changes then Shown(e.changes[f]) else Replay(h)(f)
  {
    assert (h + [e])[..|h|] == h;
  }

  /** A later event that tells the row's new values extends its log. */
  lemma LogsGrow(h: seq<Event>, before: Enterprise, after: Enterprise, e: Event)
    requires Logs(h, before) && before.deletedAt.None? && e.action != Create
    requires e.createdAt == after.updatedAt && after.createdAt == before.createdAt
    requires e.action == Delete <==> after.deletedAt.Some?
    requires after.deletedAt.Some? ==> after.deletedAt.value == after.updatedAt
    requires forall f: Field :: Get(after, f) == if f in e.changes then Shown(e.changes[f]) else Get(before, f)
    ensures Logs(h + [e], after)
  {
    forall f: Field ensures Replay(h + [e])(f) == Get(after, f) { ReplayAppend(h, e, f); }
  }

  lemma ExactGrows(h: seq<Event>, e: Event)
    requires Exact(h)
    requires e.action == Update ==>
               e.changes != map[] && forall f: Field :: f in e.changes <==> Replay(h)(f) != Replay(h + [e])(f)
    ensures Exact(h + [e])
  {
    var longer := h + [e];
    forall k | 0 < k < |longer| && longer[k].action == Update ensures ExactAt(longer, k) {
      if k < |h| {
        assert longer[..k] == h[..k] && longer[..k + 1] == h[..k + 1];
        assert ExactAt(h, k);
      } else {
        assert longer[..k] == h && longer[..k + 1] == longer;
      }
    }
  }

  /** What a diff tells of a field: it is there exactly when the field changes, with its new value. */
  lemma DiffTells(e: Enterprise, u: Changes, f: Field)
    ensures f in Diff(e, u) <==> Target(e, u, f) != Get(e, f)
    ensures f in Diff(e, u) ==> Shown(Diff(e, u)[f]) == Target(e, u, f)
  {}

  // ----- Turnovers keep the column's spelling -----

  lemma SpellingIsCanonical(text: string)
    requires Turnover.Legible(text)
    ensures var s := Turnover.Print(Turnover.Cents(text)); Canonical(s) == Some(s)
  {
    Turnover.AmountFits(text);
    Turnover.PrintReadsBack(Turnover.Cents(text));
    Turnover.PrintTrimmed(Turnover.Cents(text));
  }

  lemma NormalIsSpelled(text: Option<string>, there: string)
    requires Canonical(there) == Some(there) && Normal(text).Ok?
    ensures var t := Or(Normal(text).value, there); Canonical(t) == Some(t)
  {
    if text.Some? { SpellingIsCanonical(text.value); }
  }

  /** What the database stores of a validated merge is the merge. */
  lemma MergeIsStored(e: Enterprise, u: Changes, now: int)
    requires Spelled(e) && Validated(u).Ok?
    ensures var merged := Merge(e, Validated(u).value, now);
            && Spelled(merged)
            && Stored(merged) == if merged.businessSector == "" || merged.status == "" then None else Some(merged)
  {
    NormalIsSpelled(u.initialTurnover, e.initialTurnover);
    NormalIsSpelled(u.currentTurnover, e.currentTurnover);
    SpelledIsStored(Merge(e, Validated(u).value, now));
  }

  lemma SpelledIsStored(e: Enterprise)
    requires Spelled(e)
    ensures Stored(e) == if e.businessSector == "" || e.status == "" then None else Some(e)
  {}

  // ----- Every call keeps the log -----

  /** Whose log an event extends. */
  lemma OneLogGrows(rows: map<string, Enterprise>, events: seq<Event>, p: string, event: Event, q: string)
    requires p in rows && q in rows && event.enterprise == rows[p].id && DistinctIds(rows)
    ensures EventsOf(events + [event], rows[q].id)
            == if q == p then EventsOf(events, rows[q].id) + [event] else EventsOf(events, rows[q].id)
  {
    EventsAppend(events, event, rows[q].id);
  }

  /** A new row with its one event. */
  lemma RowArrives(db: DB, p: string, e: Enterprise, event: Event, agree: (Enterprise, seq<Event>) -> bool)
    requires AuditedBy(db, agree) && p !in db.rows && e.id == event.enterprise == db.nextId && agree(e, [event])
    ensures AuditedBy(DB(db.rows[p := e], db.nextId + 1, db.events + [event]), agree)
  {
    var next := DB(db.rows[p := e], db.nextId + 1, db.events + [event]);
    forall q | q in db.rows ensures next.rows[q].id < next.nextId && (q != p ==> next.rows[q].id < db.nextId) {
      assert RowOk(db, q, agree);
    }
    NoEvents(db.events, e.id);
    assert [] + [event] == [event];
    forall q | q in next.rows ensures RowOk(next, q, agree) {
      OneLogGrows(next.rows, db.events, p, event, q);
      if q != p { assert RowOk(db, q, agree); }
    }
  }

  /** One row and its log move together; the other rows stay. */
  lemma RowMoves(db: DB, p: string, after: Enterprise, event: Event, agree: (Enterprise, seq<Event>) -> bool)
    requires AuditedBy(db, agree) && p in db.rows && event.enterprise == after.id == db.rows[p].id
    requires agree(after, EventsOf(db.events, after.id) + [event])
    ensures AuditedBy(DB(db.rows[p := after], db.nextId, db.events + [event]), agree)
  {
    var next := DB(db.rows[p := after], db.nextId, db.events + [event]);
    assert RowOk(db, p, agree);
    forall q | q in next.rows ensures RowOk(next, q, agree) {
      OneLogGrows(next.rows, db.events, p, event, q);
      if q != p { assert RowOk(db, q, agree); }
    }
  }

  lemma RegisterKeeps(db: DB, actor: Actor, draft: Draft, p: string, now: int)
    requires Audited(db) && Apply(db, Register(actor, draft, p, now)).Ok?
    ensures Audited(Apply(db, Register(actor, draft, p, now)).value)
  {
    var e := NewRow(draft, actor.id, now);
    NewRowIsStored(draft, actor.id, now);
    CreateDescribes(e);
    var event := Event(0, actor.id, Create, CreateChanges(e), now);
    NewAgrees(e, event, db.nextId);
    InsertKeeps(db, p, e, event);
  }

  lemma InsertKeeps(db: DB, p: string, e: Enterprise, event: Event)
    requires Audited(db) && DoInsert(db, p, e, event).Ok? && Stored(e) == Some(e)
    requires Agree(e.(id := db.nextId), [event.(enterprise := db.nextId)])
    ensures Audited(DoInsert(db, p, e, event).value)
  {
    var row, logged := e.(id := db.nextId), event.(enterprise := db.nextId);
    assert DoInsert(db, p, e, event).value == DB(db.rows[p := row], db.nextId + 1, db.events + [logged]);
    RowArrives(db, p, row, logged, Agree);
  }

  lemma NewAgrees(e: Enterprise, event: Event, id: nat)
    requires Spelled(e) && e.businessSector != "" && e.status != ""
    requires event.action == Create && event.createdAt == e.createdAt == e.updatedAt
    requires e.deletedAt.None? && Describes(event.changes, e)
    ensures Agree(e.(id := id), [event.(enterprise := id)])
  {
    DescribesAnyId(event.changes, e, id);
    CreateLogs(event.(enterprise := id), e.(id := id));
  }

  lemma NewRowIsStored(draft: Draft, owner: nat, now: int)
    requires Acceptable(draft)
    ensures var e := NewRow(draft, owner, now); Spelled(e) && Stored(e) == Some(e)
  {
    SpellingIsCanonical(draft.initialTurnover);
    SpellingIsCanonical(draft.currentTurnover);
    SpelledIsStored(NewRow(draft, owner, now));
  }

  /** Changes that rebuild a row from an empty record. */
  ghost predicate Describes(changes: map<Field, Option<string>>, e: Enterprise) {
    forall f: Field :: (if f in changes then Shown(changes[f]) else "") == Get(e, f)
  }

  lemma DescribesAnyId(changes: map<Field, Option<string>>, e: Enterprise, id: nat)
    requires Describes(changes, e)
    ensures Describes(changes, e.(id := id))
  {
    forall f: Field ensures Get(e.(id := id), f) == Get(e, f) {}
  }

  lemma CreateLogs(event: Event, e: Enterprise)
    requires event.action == Create && event.createdAt == e.createdAt == e.updatedAt
    requires e.deletedAt.None? && Describes(event.changes, e)
    ensures Logs([event], e) && Exact([event])
  {
    assert [event][..0] == [];
    forall f: Field ensures Replay([event])(f) == Get(e, f) {
      assert [] + [event] == [event];
      ReplayAppend([], event, f);
    }
  }

  lemma CreateDescribes(e: Enterprise)
    requires e.disporaSupport == ""
    ensures Describes(CreateChanges(e), e)
  {
    forall f: Field ensures (if f in CreateChanges(e) then Shown(CreateChanges(e)[f]) else "") == Get(e, f) {
      if Rank(f) < 4 { TellsFirst(e, f); } else if Rank(f) < 8 { TellsEarly(e, f); } else { TellsLate(e, f); }
    }
  }

  lemma TellsFirst(e: Enterprise, f: Field)
    requires Rank(f) < 4
    ensures f in CreateChanges(e) && Shown(CreateChanges(e)[f]) == Get(e, f)
  {}

  lemma TellsEarly(e: Enterprise, f: Field)
    requires e.disporaSupport == "" && 4 <= Rank(f) < 8
    ensures (if f in CreateChanges(e) then Shown(CreateChanges(e)[f]) else "") == Get(e, f)
  {}

  lemma TellsLate(e: Enterprise, f: Field)
    requires Rank(f) >= 8
    ensures f in CreateChanges(e) && Shown(CreateChanges(e)[f]) == Get(e, f)
  {}

  lemma ChangeKeeps(db: DB, actor: Actor, p: string, changes: Changes, now: int)
    requires Audited(db) && Apply(db, Change(actor, p, changes, now)).Ok?
    ensures Audited(Apply(db, Change(actor, p, changes, now)).value)
  {
    UpdateKeeps(db, p, Scope(actor), changes, Validated(changes).value, now, Event(0, actor.id, Update, map[], now));
  }

  lemma UpdateKeeps(db: DB, p: string, owner: nat, changes: Changes, u: Changes, now: int, event: Event)
    requires Audited(db) && Validated(changes) == Ok(u) && event.action == Update && event.createdAt == now
    requires DoUpdate(db, p, owner, u, now, event).Ok?
    ensures Audited(DoUpdate(db, p, owner, u, now, event).value)
  {
    var stored := Written(db, p, owner, u, now, event);
    if stored.Some? {
      RowChanges(db, p, changes, stored.value, event.(enterprise := db.rows[p].id, changes := Diff(db.rows[p], u)));
    }
  }

  /** The row an update that goes through writes, if it writes. */
  lemma Written(db: DB, p: string, owner: nat, u: Changes, now: int, event: Event) returns (stored: Option<Enterprise>)
    requires DoUpdate(db, p, owner, u, now, event).Ok?
    ensures Visible(db, p, owner)
    ensures stored.None? ==> DoUpdate(db, p, owner, u, now, event).value == db
    ensures stored.Some? ==>
              && Diff(db.rows[p], u) != map[] && Stored(Merge(db.rows[p], u, now)) == stored
              && DoUpdate(db, p, owner, u, now, event).value
                 == DB(db.rows[p := stored.value], db.nextId,
                       db.events + [event.(enterprise := db.rows[p].id, changes := Diff(db.rows[p], u))])
  {
    stored := if Diff(db.rows[p], u) == map[] then None else Stored(Merge(db.rows[p], u, now));
  }

  lemma RowChanges(db: DB, p: string, changes: Changes, stored: Enterprise, event: Event)
    requires Audited(db) && p in db.rows && db.rows[p].deletedAt.None? && Validated(changes).Ok?
    requires event.enterprise == db.rows[p].id && event.action == Update
    requires event.changes == Diff(db.rows[p], Validated(changes).value) && event.changes != map[]
    requires Stored(Merge(db.rows[p], Validated(changes).value, event.createdAt)) == Some(stored)
    ensures Audited(DB(db.rows[p := stored], db.nextId, db.events + [event]))
  {
    AuditedRow(db, p);
    ChangeAgrees(EventsOf(db.events, db.rows[p].id), db.rows[p], changes, event);
    RowMoves(db, p, stored, event, Agree);
  }

  lemma ChangeAgrees(h: seq<Event>, e: Enterprise, changes: Changes, event: Event)
    requires Agree(e, h) && e.deletedAt.None? && Validated(changes).Ok? && event.action == Update
    requires event.changes == Diff(e, Validated(changes).value) && event.changes != map[]
    requires Stored(Merge(e, Validated(changes).value, event.createdAt)).Some?
    ensures var stored := Stored(Merge(e, Validated(changes).value, event.createdAt)).value;
            stored.id == e.id && Agree(stored, h + [event])
  {
    MergeIsStored(e, changes, event.createdAt);
    ChangeLogs(h, e, Validated(changes).value, event);
  }

  lemma ChangeLogs(h: seq<Event>, e: Enterprise, u: Changes, event: Event)
    requires Logs(h, e) && Exact(h) && e.deletedAt.None?
    requires event.action == Update && event.changes == Diff(e, u) && event.changes != map[]
    ensures Logs(h + [event], Merge(e, u, event.createdAt)) && Exact(h + [event])
  {
    var merged := Merge(e, u, event.createdAt);
    forall f: Field ensures Get(merged, f) == if f in event.changes then Shown(event.changes[f]) else Get(e, f) {
      MergeSets(e, u, event.createdAt, f);
      DiffTells(e, u, f);
    }
    LogsGrow(h, e, merged, event);
    forall f: Field ensures f in event.changes <==> Replay(h)(f) != Replay(h + [event])(f) {
      DiffTells(e, u, f);
      ReplayAppend(h, event, f);
    }
    ExactGrows(h, event);
  }

  lemma RemoveKeeps(db: DB, actor: Actor, p: string, now: int)
    requires Audited(db) && Apply(db, Remove(actor, p, now)).Ok?
    ensures Audited(Apply(db, Remove(actor, p, now)).value)
  {
    var e := db.rows[p];
    AuditedRow(db, p);
    var event := Event(e.id, actor.id, Delete, map[], now);
    RemoveLogs(EventsOf(db.events, e.id), e, event);
    RowMoves(db, p, e.(deletedAt := Some(now), updatedAt := now), event, Agree);
  }

  lemma RemoveLogs(h: seq<Event>, e: Enterprise, event: Event)
    requires Logs(h, e) && Exact(h) && e.deletedAt.None? && event.action == Delete && event.changes == map[]
    ensures Logs(h + [event], e.(deletedAt := Some(event.createdAt), updatedAt := event.createdAt))
    ensures Exact(h + [event])
  {
    var gone := e.(deletedAt := Some(event.createdAt), updatedAt := event.createdAt);
    forall f: Field ensures Get(gone, f) == Get(e, f) {}
    LogsGrow(h, e, gone, event);
    ExactGrows(h, event);
  }

  lemma ApplyKeeps(db: DB, request: Request)
    requires Audited(db)
    ensures Audited(After(db, request))
  {
    if Apply(db, request).Ok? {
      match request
      case Register(actor, draft, p, now) => RegisterKeeps(db, actor, draft, p, now);
      case Change(actor, p, changes, now) => ChangeKeeps(db, actor, p, changes, now);
      case Remove(actor, p, now) => RemoveKeeps(db, actor, p, now);
    }
  }

  lemma {:induction false} RunKeeps(db: DB, requests: seq<Request>)
    requires Audited(db)
    ensures Audited(Run(db, requests))
  {
    if requests != [] {
      RunKeeps(db, requests[..|requests| - 1]);
      ApplyKeeps(Run(db, requests[..|requests| - 1]), requests[|requests| - 1]);
    }
  }

  // ----- Theorems -----

  /** Audit replay: after any run of calls, folding a row's events in id order from an empty
      record rebuilds every mutable field, and the last event is stamped with updated_at. */
  lemma AuditReplay(requests: seq<Request>, p: string, f: Field)
    requires p in Run(EMPTY, requests).rows
    ensures var db := Run(EMPTY, requests); var e, h := db.rows[p], EventsOf(db.events, db.rows[p].id);
            && Replay(h)(f) == Get(e, f)
            && h != [] && h[|h| - 1].createdAt == e.updatedAt
            && h[0].action == Create && h[0].createdAt == e.createdAt
            && (e.deletedAt.Some? <==> h[|h| - 1].action == Delete)
  {
    RunKeeps(EMPTY, requests);
    AuditedRow(Run(EMPTY, requests), p);
  }

  /** The log has no noise: an update event names a field exactly when replaying it changes
      that field, and always names one. */
  lemma AuditIsExact(requests: seq<Request>, p: string, k: nat, f: Field)
    requires p in Run(EMPTY, requests).rows
    requires var db := Run(EMPTY, requests);
             0 < k < |EventsOf(db.events, db.rows[p].id)| && EventsOf(db.events, db.rows[p].id)[k].action == Update
    ensures var db := Run(EMPTY, requests); var h := EventsOf(db.events, db.rows[p].id);
            && h[k].changes != map[]
            && (f in h[k].changes <==> Replay(h[..k])(f) != Replay(h[..k + 1])(f))
  {
    RunKeeps(EMPTY, requests);
    var db := Run(EMPTY, requests);
    AuditedRow(db, p);
    assert ExactAt(EventsOf(db.events, db.rows[p].id), k);
  }

  /** A call that asks for a turnover records it exactly when the number changes. */
  lemma TurnoverRecordedIff(db: DB, actor: Actor, p: string, changes: Changes, now: int)
    requires Audited(db) && p in db.rows && Apply(db, Change(actor, p, changes, now)).Ok?
              && changes.currentTurnover.Some?
    ensures Turnover.Legible(changes.currentTurnover.value) && Turnover.Legible(db.rows[p].currentTurnover)
    ensures CurrentTurnover in Diff(db.rows[p], Validated(changes).value)
            <==> Turnover.Cents(changes.currentTurnover.value) != Turnover.Cents(db.rows[p].currentTurnover)
  {
    AuditedRow(db, p);
    TurnoverDiffers(db.rows[p], Validated(changes).value, changes.currentTurnover.value);
  }

  lemma TurnoverDiffers(e: Enterprise, u: Changes, text: string)
    requires Canonical(e.currentTurnover) == Some(e.currentTurnover) && Turnover.Legible(text)
    requires u.currentTurnover == Some(Turnover.Print(Turnover.Cents(text)))
    ensures Turnover.Legible(e.currentTurnover)
    ensures CurrentTurnover in Diff(e, u) <==> Turnover.Cents(text) != Turnover.Cents(e.currentTurnover)
  {
    DiffTells(e, u, CurrentTurnover);
    SpelledDiffersIff(e.currentTurnover, text);
  }

  lemma SpelledDiffersIff(stored: string, text: string)
    requires Canonical(stored) == Some(stored) && Turnover.Legible(text)
    ensures Turnover.Legible(stored)
    ensures Turnover.Print(Turnover.Cents(text)) != stored <==> Turnover.Cents(text) != Turnover.Cents(stored)
  {
    Turnover.AmountFits(stored);
    Turnover.SpellingsDifferIff(Turnover.Cents(stored), text, text);
  }

  /** Why the spelling matters. The repository alone, given a turnover as a caller spelled
      it, leaves a row its own event describes if and only if the text has no blanks around it,
      no leading zero and exactly two decimals. */
  lemma RawTurnoverDescribedIff(e: Enterprise, u: Changes, text: string, now: int)
    requires Spelled(e) && e.businessSector != "" && e.status != ""
    requires u.currentTurnover == Some(text) && u.initialTurnover.None? && u.businessSector.None? && u.status.None?
    requires Canonical(text).Some? && text != e.currentTurnover
    ensures Stored(Merge(e, u, now)).Some? && CurrentTurnover in Diff(e, u)
    ensures Shown(Diff(e, u)[CurrentTurnover]) == Stored(Merge(e, u, now)).value.currentTurnover
            <==> Turnover.ColumnSpelled(text)
  {
    Turnover.SpelledIff(text);
    AskedTurnover(e, u, text, now);
    CurrentIsStored(Merge(e, u, now), text);
  }

  lemma AskedTurnover(e: Enterprise, u: Changes, text: string, now: int)
    requires u.currentTurnover == Some(text) && u.initialTurnover.None? && u.businessSector.None? && u.status.None?
    requires text != e.currentTurnover
    ensures CurrentTurnover in Diff(e, u) && Shown(Diff(e, u)[CurrentTurnover]) == text
    ensures var m := Merge(e, u, now);
            && m.currentTurnover == text && m.initialTurnover == e.initialTurnover
            && m.businessSector == e.businessSector && m.status == e.status
  {
    DiffTells(e, u, CurrentTurnover);
  }

  lemma CurrentIsStored(e: Enterprise, text: string)
    requires e.businessSector != "" && e.status != "" && Canonical(e.initialTurnover).Some?
    requires e.currentTurnover == text && Canonical(text).Some?
    ensures Stored(e).Some? && Stored(e).value.currentTurnover == Turnover.Print(Turnover.Cents(text))
  {}

  /** The call would write row `p` if it could see it. */
  ghost predicate Writes(db: DB, request: Request, p: string)
    requires p in db.rows
  {
    && request.publicId == p && db.rows[p].deletedAt.None?
    && (request.Remove?
        || (request.Change? && !OwnerRestricted(request.changes) && Validated(request.changes).Ok?
            && Diff(db.rows[p], Validated(request.changes).value) != map[]))
  }

  /** Ownership, exactly. A call by a non-admin changes a row of another owner if and only if
      the caller's id is zero, which is the scope of an admin, and the call is one that writes
      that row: real members, whose ids are positive, are confined to their own rows. No
      non-admin, with whatever id, changes an admin-only field. */
  lemma MemberIsConfined(db: DB, request: Request, p: string)
    requires Audited(db) && p in db.rows && !request.actor.admin
    ensures p in After(db, request).rows
    ensures db.rows[p].owner != request.actor.id ==>
              (After(db, request).rows[p] != db.rows[p] <==> request.actor.id == 0 && Writes(db, request, p))
    ensures forall f | AdminOnly(f) :: Get(After(db, request).rows[p], f) == Get(db.rows[p], f)
  {
    CallShape(db, request);
    forall f | AdminOnly(f) ensures Get(After(db, request).rows[p], f) == Get(db.rows[p], f) {
      AdminFieldStays(db, request, p, f);
    }
    if request.actor.id == 0 && Writes(db, request, p) {
      WritingChanges(db, request, p);
    } else if db.rows[p].owner != request.actor.id {
      NotWriting(db, request, p);
    }
  }

  /** The escape is real: a non-admin with id zero deletes the enterprise of user 5. No such
      actor owns an enterprise, because registering refuses the id. */
  lemma IdZeroEscapes() returns (db: DB, request: Request, p: string)
    ensures Audited(db) && p in db.rows && !request.actor.admin && request.actor.id == 0
    ensures db.rows[p].owner == 5 && p in After(db, request).rows && After(db, request).rows[p] != db.rows[p]
  {
    var draft := Draft("SHOP", "", "", "", "Kuliner", "", "", "", "", "", "", "", "", "", "");
    BlankIsLegible();
    p := "ENT-000001";
    var register := Register(Actor(5, false), draft, p, 1);
    NewRowIsStored(draft, 5, 1);
    ApplyKeeps(EMPTY, register);
    db := After(EMPTY, register);
    request := Remove(Actor(0, false), p, 2);
    assert Writes(db, request, p);
    MemberIsConfined(db, request, p);
  }

  lemma BlankIsLegible()
    ensures Turnover.Legible("")
  {}

  lemma AdminFieldStays(db: DB, request: Request, p: string, f: Field)
    requires p in db.rows && !request.actor.admin && AdminOnly(f)
    ensures p in After(db, request).rows && Get(After(db, request).rows[p], f) == Get(db.rows[p], f)
  {
    CallShape(db, request);
    if request.Change? && Apply(db, request).Ok? && p == request.publicId {
      UpdateConfined(db, p, Scope(request.actor), Validated(request.changes).value, request.now,
                     Event(0, request.actor.id, Update, map[], request.now), f);
    }
  }

  lemma NotWriting(db: DB, request: Request, p: string)
    requires p in db.rows && !request.actor.admin && db.rows[p].owner != request.actor.id
    requires request.actor.id != 0 || !Writes(db, request, p)
    ensures p in After(db, request).rows && After(db, request).rows[p] == db.rows[p]
  {
    CallShape(db, request);
  }

  lemma WritingChanges(db: DB, request: Request, p: string)
    requires Audited(db) && p in db.rows && !request.actor.admin && request.actor.id == 0 && Writes(db, request, p)
    ensures p in After(db, request).rows && After(db, request).rows[p] != db.rows[p]
  {
    AuditedRow(db, p);
    if request.Change? {
      var u := Validated(request.changes).value;
      RestrictedMergeIsStored(db.rows[p], request.changes, request.now);
      DiffChanges(db.rows[p], u, request.now);
      var event := Event(0, request.actor.id, Update, map[], request.now);
      assert DoUpdate(db, p, 0, u, request.now, event).value.rows[p] == Merge(db.rows[p], u, request.now);
    }
  }

  lemma RestrictedMergeIsStored(e: Enterprise, changes: Changes, now: int)
    requires Spelled(e) && e.businessSector != "" && e.status != "" && !OwnerRestricted(changes)
              && Validated(changes).Ok?
    ensures Stored(Merge(e, Validated(changes).value, now)) == Some(Merge(e, Validated(changes).value, now))
  {
    MergeIsStored(e, changes, now);
  }

  lemma SomeKey<K, V>(m: map<K, V>) returns (k: K)
    requires m != map[]
    ensures k in m
  {
    k :| k in m;
  }

  /** A diff with a field in it means a different row. */
  lemma DiffChanges(e: Enterprise, u: Changes, now: int)
    requires Diff(e, u) != map[]
    ensures Merge(e, u, now) != e
  {
    var f := SomeKey(Diff(e, u));
    DiffTells(e, u, f);
    MergeSets(e, u, now, f);
  }

  lemma UpdateConfined(db: DB, p: string, owner: nat, u: Changes, now: int, event: Event, f: Field)
    requires AdminOnly(f) && !OwnerRestricted(u) && DoUpdate(db, p, owner, u, now, event).Ok?
    ensures var next := DoUpdate(db, p, owner, u, now, event).value;
            p in db.rows && p in next.rows && Get(next.rows[p], f) == Get(db.rows[p], f)
  {
    RestrictedUntouched(db.rows[p], u, now, f);
  }

  lemma RestrictedUntouched(e: Enterprise, u: Changes, now: int, f: Field)
    requires AdminOnly(f) && !OwnerRestricted(u)
    ensures Stored(Merge(e, u, now)).Some? ==> Get(Stored(Merge(e, u, now)).value, f) == Get(e, f)
  {
    NotAsked(u, f);
    MergeSets(e, u, now, f);
    if Stored(Merge(e, u, now)).Some? { StoredKeeps(Merge(e, u, now), f); }
  }

  lemma NotAsked(u: Changes, f: Field)
    requires AdminOnly(f) && !OwnerRestricted(u)
    ensures Asked(u, f).None?
  {}

  lemma StoredKeeps(e: Enterprise, f: Field)
    requires AdminOnly(f) && Stored(e).Some?
    ensures Get(Stored(e).value, f) == Get(e, f)
  {
    OtherFieldKept(e, Stored(e).value.initialTurnover, Stored(e).value.currentTurnover, f);
  }

  lemma OtherFieldKept(e: Enterprise, initial: string, current: string, f: Field)
    requires !f.InitialTurnover? && !f.CurrentTurnover?
    ensures Get(e.(initialTurnover := initial, currentTurnover := current), f) == Get(e, f)
  {}

  /** Over whole runs: while only other members act, a row and its log stand still. */
  lemma {:induction false} OthersLeaveAlone(db: DB, requests: seq<Request>, p: string)
    requires Audited(db) && p in db.rows
    requires forall i | 0 <= i < |requests| :: !requests[i].actor.admin
              && requests[i].actor.id !in {0, db.rows[p].owner}
    ensures var end := Run(db, requests);
            && p in end.rows && end.rows[p] == db.rows[p]
            && EventsOf(end.events, db.rows[p].id) == EventsOf(db.events, db.rows[p].id)
  {
    if requests != [] {
      var before := Run(db, requests[..|requests| - 1]);
      OthersLeaveAlone(db, requests[..|requests| - 1], p);
      RunKeeps(db, requests[..|requests| - 1]);
      UntouchedRow(before, requests[|requests| - 1], p);
    }
  }

  /** Rows are created once, never removed and keep their identity; deleted ones and their
      logs are frozen. */
  lemma {:induction false} DeletedIsFinal(db: DB, requests: seq<Request>, p: string)
    requires Audited(db) && p in db.rows && db.rows[p].deletedAt.Some?
    ensures var end := Run(db, requests);
            && p in end.rows && end.rows[p] == db.rows[p]
            && EventsOf(end.events, db.rows[p].id) == EventsOf(db.events, db.rows[p].id)
  {
    if requests != [] {
      var before := Run(db, requests[..|requests| - 1]);
      DeletedIsFinal(db, requests[..|requests| - 1], p);
      RunKeeps(db, requests[..|requests| - 1]);
      UntouchedRow(before, requests[|requests| - 1], p);
    }
  }

  /** What any call does: nothing, or one new event, of a row it may see or creates. */
  lemma CallShape(db: DB, request: Request)
    ensures var next := After(db, request); var p := request.publicId;
            || next == db
            || (&& p in next.rows && next.rows == db.rows[p := next.rows[p]]
                && |next.events| == |db.events| + 1 && next.events[..|db.events|] == db.events
                && next.events[|db.events|].enterprise == next.rows[p].id
                && (if p in db.rows then Visible(db, p, Scope(request.actor)) && next.rows[p].id == db.rows[p].id
                    else next.rows[p].id == db.nextId))
  {
    if Apply(db, request).Ok? {
      match request
      case Register(actor, draft, p, now) =>
      case Change(actor, p, changes, now) => UpdateShape(db, p, Scope(actor), Validated(changes).value, now,
          Event(0, actor.id, Update, map[], now));
      case Remove(actor, p, now) =>
    }
  }

  lemma UpdateShape(db: DB, p: string, owner: nat, u: Changes, now: int, event: Event)
    requires DoUpdate(db, p, owner, u, now, event).Ok?
    ensures var next := DoUpdate(db, p, owner, u, now, event).value;
            && Visible(db, p, owner)
            && (|| next == db
                || (&& p in next.rows && next.rows == db.rows[p := next.rows[p]] && next.rows[p].id == db.rows[p].id
                    && |next.events| == |db.events| + 1 && next.events[..|db.events|] == db.events
                    && next.events[|db.events|].enterprise == db.rows[p].id))
  {}

  /** A row a call may not see is left with its log. */
  lemma UntouchedRow(db: DB, request: Request, p: string)
    requires Audited(db) && p in db.rows && !Visible(db, p, Scope(request.actor))
    ensures var next := After(db, request);
            && p in next.rows && next.rows[p] == db.rows[p]
            && EventsOf(next.events, db.rows[p].id) == EventsOf(db.events, db.rows[p].id)
  {
    CallShape(db, request);
    AuditedRow(db, p);
    if After(db, request) != db { OtherLogStays(db, After(db, request), request.publicId, p); }
  }

  /** An event appended for one row leaves the log of another. */
  lemma OtherLogStays(db: DB, next: DB, p: string, q: string)
    requires IdsOk(db) && q in db.rows && p != q && p in next.rows && db.rows[q].id < db.nextId
    requires |next.events| == |db.events| + 1 && next.events[..|db.events|] == db.events
    requires next.events[|db.events|].enterprise == next.rows[p].id
    requires if p in db.rows then next.rows[p].id == db.rows[p].id else next.rows[p].id == db.nextId
    ensures EventsOf(next.events, db.rows[q].id) == EventsOf(db.events, db.rows[q].id)
  {
    assert next.events == db.events + [next.events[|db.events|]];
    EventsAppend(db.events, next.events[|db.events|], db.rows[q].id);
  }
}
