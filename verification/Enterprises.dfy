/** The enterprise row, the optional field changes of an update, and how an update is merged
    into the locked row while the fields that really change are collected for the audit
    event. */
module Enterprises {
  import opened Options

  /** The mutable columns; a field also names its key in an event's changed_fields. */
  datatype Field =
    | EnterpriseName | Description | Address | FocusCommodity | DisporaSupport
    | BusinessSector | LegalStatus | BusinessDigitization | InterventionNeeds | TrainingStatus
    | MentoringStatus | CapitalAccess | Partnership | InitialTurnover | CurrentTurnover
    | District | Status

  /** A row as the repository reads it: a NULL column reads as an empty string. */
  datatype Enterprise = Enterprise(
    id: nat,
    owner: nat,
    enterpriseName: string, description: string, address: string,
    focusCommodity: string, disporaSupport: string, businessSector: string,
    legalStatus: string, businessDigitization: string, interventionNeeds: string,
    trainingStatus: string, mentoringStatus: string, capitalAccess: string,
    partnership: string, initialTurnover: string, currentTurnover: string,
    district: string, status: string,
    createdAt: int,
    updatedAt: int,
    deletedAt: Option<int>)

  /** The changes an update asks for; None leaves a field alone. */
  datatype Changes = Changes(
    enterpriseName: Option<string>, description: Option<string>,
    address: Option<string>, focusCommodity: Option<string>,
    disporaSupport: Option<string>, businessSector: Option<string>,
    legalStatus: Option<string>, businessDigitization: Option<string>,
    interventionNeeds: Option<string>, trainingStatus: Option<string>,
    mentoringStatus: Option<string>, capitalAccess: Option<string>,
    partnership: Option<string>, initialTurnover: Option<string>,
    currentTurnover: Option<string>, district: Option<string>,
    status: Option<string>)

  function Get(e: Enterprise, f: Field): string {
    match f
    case EnterpriseName => e.enterpriseName
    case Description => e.description
    case Address => e.address
    case FocusCommodity => e.focusCommodity
    case DisporaSupport => e.disporaSupport
    case BusinessSector => e.businessSector
    case LegalStatus => e.legalStatus
    case BusinessDigitization => e.businessDigitization
    case InterventionNeeds => e.interventionNeeds
    case TrainingStatus => e.trainingStatus
    case MentoringStatus => e.mentoringStatus
    case CapitalAccess => e.capitalAccess
    case Partnership => e.partnership
    case InitialTurnover => e.initialTurnover
    case CurrentTurnover => e.currentTurnover
    case District => e.district
    case Status => e.status
  }

  function Asked(u: Changes, f: Field): Option<string> {
    match f
    case EnterpriseName => u.enterpriseName
    case Description => u.description
    case Address => u.address
    case FocusCommodity => u.focusCommodity
    case DisporaSupport => u.disporaSupport
    case BusinessSector => u.businessSector
    case LegalStatus => u.legalStatus
    case BusinessDigitization => u.businessDigitization
    case InterventionNeeds => u.interventionNeeds
    case TrainingStatus => u.trainingStatus
    case MentoringStatus => u.mentoringStatus
    case CapitalAccess => u.capitalAccess
    case Partnership => u.partnership
    case InitialTurnover => u.initialTurnover
    case CurrentTurnover => u.currentTurnover
    case District => u.district
    case Status => u.status
  }

  /** Fields an event records raw; every other one records null when empty. */
  predicate Required(f: Field) {
    f.EnterpriseName? || f.BusinessSector? || f.InitialTurnover? || f.CurrentTurnover? || f.Status?
  }

  /** The JSON value an event records for a field; None is null. */
  function AuditValue(f: Field, v: string): Option<string> {
    if v == "" && !Required(f) then None else Some(v)
  }

  /** What a recorded value says the field became. */
  function Shown(v: Option<string>): string {
    if v.Some? then v.value else ""
  }

  /** What is asked for, or what is there. */
  function Or(asked: Option<string>, there: string): string {
    if asked.Some? then asked.value else there
  }

  /** The value a field gets. */
  function Target(e: Enterprise, u: Changes, f: Field): string {
    Or(Asked(u, f), Get(e, f))
  }

  /** The fields that really change, with their recorded values. */
  function Diff(e: Enterprise, u: Changes): map<Field, Option<string>> {
    map f: Field | Target(e, u, f) != Get(e, f) :: AuditValue(f, Target(e, u, f))
  }

  /** The row with everything asked for. */
  function Merge(e: Enterprise, u: Changes, updatedAt: int): Enterprise {
    e.(enterpriseName := Or(u.enterpriseName, e.enterpriseName),
       description := Or(u.description, e.description),
       address := Or(u.address, e.address),
       focusCommodity := Or(u.focusCommodity, e.focusCommodity),
       disporaSupport := Or(u.disporaSupport, e.disporaSupport),
       businessSector := Or(u.businessSector, e.businessSector),
       legalStatus := Or(u.legalStatus, e.legalStatus),
       businessDigitization := Or(u.businessDigitization, e.businessDigitization),
       interventionNeeds := Or(u.interventionNeeds, e.interventionNeeds),
       trainingStatus := Or(u.trainingStatus, e.trainingStatus),
       mentoringStatus := Or(u.mentoringStatus, e.mentoringStatus),
       capitalAccess := Or(u.capitalAccess, e.capitalAccess),
       partnership := Or(u.partnership, e.partnership),
       initialTurnover := Or(u.initialTurnover, e.initialTurnover),
       currentTurnover := Or(u.currentTurnover, e.currentTurnover),
       district := Or(u.district, e.district),
       status := Or(u.status, e.status),
       updatedAt := updatedAt)
  }

  /** Merging gives every field its target and touches nothing else but the time. */
  lemma MergeSets(e: Enterprise, u: Changes, updatedAt: int, f: Field)
    ensures Get(Merge(e, u, updatedAt), f) == Target(e, u, f)
  {
  }

  /** The order in which an update looks at the fields. */
  function Rank(f: Field): nat {
    match f
    case EnterpriseName => 0
    case Description => 1
    case Address => 2
    case FocusCommodity => 3
    case DisporaSupport => 4
    case BusinessSector => 5
    case LegalStatus => 6
    case BusinessDigitization => 7
    case InterventionNeeds => 8
    case TrainingStatus => 9
    case MentoringStatus => 10
    case CapitalAccess => 11
    case Partnership => 12
    case InitialTurnover => 13
    case CurrentTurnover => 14
    case District => 15
    case Status => 16
  }

  lemma RankIsUnique(f: Field, g: Field)
    requires Rank(f) == Rank(g)
    ensures f == g
  {}

  /** What is collected after looking at the first `n` fields. */
  ghost predicate Collected(e: Enterprise, u: Changes, n: nat, changed: map<Field, Option<string>>) {
    && (forall f: Field :: f in changed <==> Rank(f) < n && Target(e, u, f) != Get(e, f))
    && (forall f: Field | f in changed :: changed[f] == AuditValue(f, Target(e, u, f)))
  }

  lemma Visit(e: Enterprise, u: Changes, changed: map<Field, Option<string>>, f: Field)
    requires Collected(e, u, Rank(f), changed)
    ensures Collected(e, u, Rank(f) + 1,
                      if Target(e, u, f) != Get(e, f) then changed[f := AuditValue(f, Target(e, u, f))] else changed)
  {
    var now := if Target(e, u, f) != Get(e, f) then changed[f := AuditValue(f, Target(e, u, f))] else changed;
    forall g: Field ensures g in now <==> Rank(g) < Rank(f) + 1 && Target(e, u, g) != Get(e, g) {
      if Rank(g) == Rank(f) { RankIsUnique(f, g); }
    }
  }

  lemma AllVisited(e: Enterprise, u: Changes, changed: map<Field, Option<string>>)
    requires Collected(e, u, 17, changed)
    ensures changed == Diff(e, u)
  {
    assert changed.Keys == Diff(e, u).Keys;
  }

  /** One field of applyEnterpriseUpdate. */
  method ApplyField(ghost e: Enterprise, ghost u: Changes, f: Field, asked: Option<string>, locked: string,
                    changed: map<Field, Option<string>>)
    returns (value: string, now: map<Field, Option<string>>)
    requires asked == Asked(u, f) && locked == Get(e, f) && Collected(e, u, Rank(f), changed)
    ensures value == Or(asked, locked)
    ensures Collected(e, u, Rank(f) + 1, now)
  {
    value := locked;
    now := changed;
    Visit(e, u, changed, f);
    if asked.Some? {
      if asked.value != locked {
        now := changed[f := AuditValue(f, asked.value)];
      }
      value := asked.value;
    }
  }

  /** Name and text. */
  method ApplyProfile(locked: Enterprise, update: Changes, before: Enterprise, recorded: map<Field, Option<string>>)
    returns (merged: Enterprise, changed: map<Field, Option<string>>)
    requires Collected(locked, update, 0, recorded)
    ensures Collected(locked, update, 4, changed)
    ensures merged == before.(enterpriseName := Or(update.enterpriseName, locked.enterpriseName),
                              description := Or(update.description, locked.description),
                              address := Or(update.address, locked.address),
                              focusCommodity := Or(update.focusCommodity, locked.focusCommodity))
  {
    var value;
    merged, changed := before, recorded;
    value, changed := ApplyField(locked, update, EnterpriseName, update.enterpriseName, locked.enterpriseName, changed);
    merged := merged.(enterpriseName := value);
    value, changed := ApplyField(locked, update, Description, update.description, locked.description, changed);
    merged := merged.(description := value);
    value, changed := ApplyField(locked, update, Address, update.address, locked.address, changed);
    merged := merged.(address := value);
    value, changed := ApplyField(locked, update, FocusCommodity, update.focusCommodity, locked.focusCommodity, changed);
    merged := merged.(focusCommodity := value);
  }

  /** Support, sector and standing. */
  method ApplyStanding(locked: Enterprise, update: Changes, before: Enterprise, recorded: map<Field, Option<string>>)
    returns (merged: Enterprise, changed: map<Field, Option<string>>)
    requires Collected(locked, update, 4, recorded)
    ensures Collected(locked, update, 8, changed)
    ensures merged == before.(disporaSupport := Or(update.disporaSupport, locked.disporaSupport),
                              businessSector := Or(update.businessSector, locked.businessSector),
                              legalStatus := Or(update.legalStatus, locked.legalStatus),
                              businessDigitization := Or(update.businessDigitization, locked.businessDigitization))
  {
    var value;
    merged, changed := before, recorded;
    value, changed := ApplyField(locked, update, DisporaSupport, update.disporaSupport, locked.disporaSupport, changed);
    merged := merged.(disporaSupport := value);
    value, changed := ApplyField(locked, update, BusinessSector, update.businessSector, locked.businessSector, changed);
    merged := merged.(businessSector := value);
    value, changed := ApplyField(locked, update, LegalStatus, update.legalStatus, locked.legalStatus, changed);
    merged := merged.(legalStatus := value);
    value, changed := ApplyField(locked, update, BusinessDigitization, update.businessDigitization,
        locked.businessDigitization, changed);
    merged := merged.(businessDigitization := value);
  }

  /** Needs and progress. */
  method ApplyProgress(locked: Enterprise, update: Changes, before: Enterprise, recorded: map<Field, Option<string>>)
    returns (merged: Enterprise, changed: map<Field, Option<string>>)
    requires Collected(locked, update, 8, recorded)
    ensures Collected(locked, update, 11, changed)
    ensures merged == before.(interventionNeeds := Or(update.interventionNeeds, locked.interventionNeeds),
                              trainingStatus := Or(update.trainingStatus, locked.trainingStatus),
                              mentoringStatus := Or(update.mentoringStatus, locked.mentoringStatus))
  {
    var value;
    merged, changed := before, recorded;
    value, changed := ApplyField(locked, update, InterventionNeeds, update.interventionNeeds, locked.interventionNeeds,
        changed);
    merged := merged.(interventionNeeds := value);
    value, changed := ApplyField(locked, update, TrainingStatus, update.trainingStatus, locked.trainingStatus, changed);
    merged := merged.(trainingStatus := value);
    value, changed := ApplyField(locked, update, MentoringStatus, update.mentoringStatus, locked.mentoringStatus,
        changed);
    merged := merged.(mentoringStatus := value);
  }

  /** Capital, partnership and initial turnover. */
  method ApplyFinance(locked: Enterprise, update: Changes, before: Enterprise, recorded: map<Field, Option<string>>)
    returns (merged: Enterprise, changed: map<Field, Option<string>>)
    requires Collected(locked, update, 11, recorded)
    ensures Collected(locked, update, 14, changed)
    ensures merged == before.(capitalAccess := Or(update.capitalAccess, locked.capitalAccess),
                              partnership := Or(update.partnership, locked.partnership),
                              initialTurnover := Or(update.initialTurnover, locked.initialTurnover))
  {
    var value;
    merged, changed := before, recorded;
    value, changed := ApplyField(locked, update, CapitalAccess, update.capitalAccess, locked.capitalAccess, changed);
    merged := merged.(capitalAccess := value);
    value, changed := ApplyField(locked, update, Partnership, update.partnership, locked.partnership, changed);
    merged := merged.(partnership := value);
    value, changed := ApplyField(locked, update, InitialTurnover, update.initialTurnover, locked.initialTurnover,
        changed);
    merged := merged.(initialTurnover := value);
  }

  /** Current turnover, district and status. */
  method ApplyRest(locked: Enterprise, update: Changes, before: Enterprise, recorded: map<Field, Option<string>>)
    returns (merged: Enterprise, changed: map<Field, Option<string>>)
    requires Collected(locked, update, 14, recorded)
    ensures Collected(locked, update, 17, changed)
    ensures merged == before.(currentTurnover := Or(update.currentTurnover, locked.currentTurnover),
                              district := Or(update.district, locked.district),
                              status := Or(update.status, locked.status))
  {
    var value;
    merged, changed := before, recorded;
    value, changed := ApplyField(locked, update, CurrentTurnover, update.currentTurnover, locked.currentTurnover,
        changed);
    merged := merged.(currentTurnover := value);
    value, changed := ApplyField(locked, update, District, update.district, locked.district, changed);
    merged := merged.(district := value);
    value, changed := ApplyField(locked, update, Status, update.status, locked.status, changed);
    merged := merged.(status := value);
  }

  /** applyEnterpriseUpdate: field by field, filling the changed map as it goes. */
  method ApplyEnterpriseUpdate(locked: Enterprise, update: Changes, updatedAt: int)
    returns (merged: Enterprise, changed: map<Field, Option<string>>)
    ensures merged == Merge(locked, update, updatedAt)
    ensures changed == Diff(locked, update)
  {
    merged, changed := locked.(updatedAt := updatedAt), map[];
    merged, changed := ApplyProfile(locked, update, merged, changed);
    merged, changed := ApplyStanding(locked, update, merged, changed);
    merged, changed := ApplyProgress(locked, update, merged, changed);
    merged, changed := ApplyFinance(locked, update, merged, changed);
    merged, changed := ApplyRest(locked, update, merged, changed);
    AllVisited(locked, update, changed);
  }
}
