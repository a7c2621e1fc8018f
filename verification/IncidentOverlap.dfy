/** Incidents when requests overlap: an update or a status change checks what it has read before its write, and others
    write in between (apps/api/src/modules/incidents/incidents.service.ts). */
module IncidentOverlap {
  import opened Common
  import opened Incidents
  import opened IncidentRuns
  import Text

  type RequestId = nat

  predicate Splits(step: Step) {
    step.Update? || step.ChangeStatus?
  }

  type SplitStep = step: Step | Splits(step) witness ChangeStatus("", New, "", false, 0)

  /** A request that has passed its checks, with the incident and the responders it read. */
  datatype Pending = Pending(step: SplitStep, read: Incident, staff: Roster)

  datatype State = State(db: Db, pending: map<RequestId, Pending>)

  /** The other steps read nothing that their write does not check again. */
  datatype Move =
    | Read(request: RequestId, step: Step)
    | Write(request: RequestId)
    | Abandon(request: RequestId)
    | Atomic(step: Step)

  /** Whether an update was taken to change the assignee. */
  predicate Reassigns(p: Pending)
    requires p.step.Update?
  {
    !p.step.assignment.Keep? && Wanted(p.read, p.step.assignment) != p.read.assignee
  }

  /** The triggers let the write pass: the assignee responds, in the department that was read for a new assignment. */
  predicate Passes(staff: Roster, p: Pending) {
    p.step.Update? ==>
      && CanAssign(staff, p.step.assignment)
      && (p.step.assignment.Set? && Reassigns(p) ==>
            p.step.assignment.value in p.staff && p.staff[p.step.assignment.value] == staff[p.step.assignment.value])
  }

  function Or<T>(value: Option<T>, default: T): T {
    if value.Some? then value.value else default
  }

  /** The priority goes by the impact and urgency that were read, the assignments by the assignee that was read. */
  function UpdatedFrom(incident: Incident, p: Pending, staff: Roster): Incident
    requires p.step.Update? && Passes(staff, p)
  {
    var step := p.step;
    var stamped := incident.(assignee := Wanted(incident, step.assignment),
                             texts := AppliedTexts(incident.texts, step.texts),
                             department := StampedDepartment(staff, incident, step.assignment));
    var data := WithPriority(stamped, Or(step.newImpact, p.read.impact), Or(step.newUrgency, p.read.urgency));
    var released := if Reassigns(p) then Released(incident.assignments, step.now) else incident.assignments;
    data.(impact := Or(step.newImpact, incident.impact), urgency := Or(step.newUrgency, incident.urgency),
          assignments := if Reassigns(p) && step.assignment.Set?
                         then released + [Assignment(step.assignment.value, staff[step.assignment.value], None, None)]
                         else released,
          log := incident.log + [Note(if Reassigns(p) then "ASSIGNED" else "UPDATED")])
  }

  function MovedFrom(incident: Incident, p: Pending): Incident
    requires p.step.ChangeStatus?
  {
    var to, now := p.step.to, p.step.now;
    Moved(incident, to, now).(
      startedAt := if to == InProgress then Some(Or(p.read.startedAt, now)) else incident.startedAt,
      log := incident.log + [StatusEntry(Some(p.read.status), to)])
  }

  function WrittenIncident(incident: Incident, p: Pending, staff: Roster): Incident
    requires Passes(staff, p)
  {
    if p.step.Update? then UpdatedFrom(incident, p, staff) else MovedFrom(incident, p)
  }

  predicate Commits(db: Db, p: Pending) {
    p.step.id in db.incidents && Passes(Staff(db), p)
  }

  function Written(db: Db, p: Pending): Db {
    if Commits(db, p)
    then db.(incidents := db.incidents[p.step.id := WrittenIncident(db.incidents[p.step.id], p, Staff(db))])
    else db
  }

  function Next(state: State, move: Move): State {
    match move
    case Read(request, step) =>
      if Splits(step) && Enabled(state.db, step)
      then state.(pending := state.pending[request := Pending(step, state.db.incidents[step.id], Staff(state.db))])
      else state
    case Write(request) =>
      if request in state.pending
      then State(Written(state.db, state.pending[request]), state.pending - {request})
      else state
    case Abandon(request) => state.(pending := state.pending - {request})
    case Atomic(step) => if Splits(step) || !NewKey(state, step) then state else state.(db := Perform(state.db, step))
  }

  /** The keys the database generates are new, to the requests as well. */
  predicate NewKey(state: State, step: Step) {
    step.Create? ==> forall r | r in state.pending :: state.pending[r].step.id != step.id
  }

  // ---------------------------------------------------------------------------------------------
  // Writes on what was read
  // ---------------------------------------------------------------------------------------------

  /** A request that writes the incident as it read it, its log apart, with the responders as they were, is one atomic
      step. */
  lemma FreshWriteIsAtomic(db: Db, p: Pending)
    requires Enabled(db, p.step) && p.staff == Staff(db)
    requires Inv(db) && p.read == db.incidents[p.step.id].(log := p.read.log)
    ensures Commits(db, p) && Written(db, p) == Perform(db, p.step)
  {
    hide Inv, Gate, Has, AppliedTexts, Released, Accepted, PriorityOf, SlaOf, Responders;
    var incident := db.incidents[p.step.id];
    if p.step.ChangeStatus? {
      assert MovedFrom(incident, p) == Moved(incident, p.step.to, p.step.now);
    } else {
      assert UpdatedFrom(incident, p, Staff(db)) == Updated(db, incident, p.step);
    }
  }

  /** A late status change overwrites whatever has come in between, except that a start read as missing is set to now,
      and one read as set is set to what was read; its log entry starts from the status that was read. */
  lemma LateMoveMeans(db: Db, p: Pending)
    requires p.step.ChangeStatus? && p.step.id in db.incidents
    ensures var before, after, to, now :=
        db.incidents[p.step.id], Written(db, p).incidents[p.step.id], p.step.to, p.step.now;
      && after.status == to && after.log == before.log + [StatusEntry(Some(p.read.status), to)]
      && after.acknowledgedAt == (if to.Acknowledged? then Some(now) else before.acknowledgedAt)
      && after.startedAt == (if !to.InProgress? then before.startedAt
                             else if p.read.startedAt == None then Some(now) else p.read.startedAt)
      && after.resolvedAt == (if to.Resolved? then Some(now) else before.resolvedAt)
      && after.closedAt == (if to.Closed? || to.Cancelled? then Some(now) else before.closedAt)
      && after.assignments == (if to.Acknowledged? then Accepted(before.assignments, now)
                               else if to.Closed? || to.Cancelled? then Released(before.assignments, now)
                               else before.assignments)
      && after == before.(status := to, log := after.log, acknowledgedAt := after.acknowledgedAt,
                          startedAt := after.startedAt, resolvedAt := after.resolvedAt, closedAt := after.closedAt,
                          assignments := after.assignments)
      && Written(db, p) == db.(incidents := db.incidents[p.step.id := after])
  {
    hide Accepted, Released;
  }

  /** The database takes a late update while its assignee responds, and while a new assignee is in the department that
      was read for the assignment; a late status change it always takes. */
  lemma LateWriteIff(db: Db, p: Pending)
    requires p.step.id in db.incidents
    ensures p.step.ChangeStatus? ==> Commits(db, p)
    ensures p.step.Update? && !p.step.assignment.Set? ==> Commits(db, p)
    ensures p.step.Update? && p.step.assignment.Set? ==>
      var user := p.step.assignment.value;
      Commits(db, p) <==>
        && user in Staff(db)
        && (p.read.assignee == Some(user) || (user in p.staff && p.staff[user] == Staff(db)[user]))
    ensures !Commits(db, p) ==> Written(db, p) == db
  {
    hide Responders;
  }

  /** A late update writes what it names over whatever has come in between, keeps the rest, and takes the priority from
      what was read where it does not name it. */
  lemma LateUpdateMeans(db: Db, p: Pending)
    requires p.step.Update? && Commits(db, p)
    ensures var before, after := db.incidents[p.step.id], Written(db, p).incidents[p.step.id];
      && after.status == before.status && after.texts == AppliedTexts(before.texts, p.step.texts)
      && after.impact == (if p.step.newImpact == None then before.impact else p.step.newImpact.value)
      && after.urgency == (if p.step.newUrgency == None then before.urgency else p.step.newUrgency.value)
      && after.priority == PriorityOf(if p.step.newImpact == None then p.read.impact else p.step.newImpact.value,
                                      if p.step.newUrgency == None then p.read.urgency else p.step.newUrgency.value)
      && after.responseDue == before.reportedAt + 60_000 * SlaOf(after.priority).responseMinutes
      && after.resolutionDue == before.reportedAt + 60_000 * SlaOf(after.priority).resolutionMinutes
      && (p.step.assignment.Keep? ==> after.assignee == before.assignee && after.department == before.department)
      && (p.step.assignment.Clear? ==> after.assignee == None && after.department == None)
      && (p.step.assignment.Set? ==>
            && after.assignee == Some(p.step.assignment.value)
            && after.department == Some(Staff(db)[p.step.assignment.value]))
      && after == before.(texts := after.texts, impact := after.impact, urgency := after.urgency,
                          priority := after.priority, responseDue := after.responseDue,
                          resolutionDue := after.resolutionDue, assignee := after.assignee,
                          department := after.department, assignments := after.assignments, log := after.log)
      && Written(db, p) == db.(incidents := db.incidents[p.step.id := after])
  {
    hide AppliedTexts, PriorityOf, SlaOf, Released;
  }

  /** What a request has read of an incident and checked stays true of it only in part. */
  ghost predicate ReadOk(incident: Incident, p: Pending) {
    && Ok(p.read) && p.read.reportedAt == incident.reportedAt
    && (p.read.acknowledgedAt.Some? ==> incident.acknowledgedAt.Some?)
    && (p.read.startedAt.Some? ==> incident.startedAt.Some?)
    && (p.read.resolvedAt.Some? ==> incident.resolvedAt.Some?)
    && (p.step.ChangeStatus? ==> Allowed(p.read.status, p.step.to))
    && (p.step.Update? ==> !Terminal(p.read.status))
  }

  /** A status change that breaks what holds of an incident: its status has changed since it was read, or it is closed
      with a field that has been blanked since. */
  predicate SpoilsMove(incident: Incident, p: Pending)
    requires p.step.ChangeStatus?
  {
    || p.read.status != incident.status
    || (p.step.to == Closed && exists field :: !Has(incident, field))
  }

  lemma MoveOkIff(incident: Incident, p: Pending)
    requires p.step.ChangeStatus? && Ok(incident) && ReadOk(incident, p)
    ensures Ok(MovedFrom(incident, p)) <==> !SpoilsMove(incident, p)
  {
    hide Has, LedgerOk, DueOk, LogOk, TimesOk;
    var after := MovedFrom(incident, p);
    LogAfterMoveIff(incident, p);
    TimesAfterMove(incident, p);
    LedgerAfterFreshMove(incident, p);
    DueAfterMove(incident, p);
    forall field
      ensures Has(after, field) == Has(incident, field)
    {
      SameFields(incident, after, field);
    }
    hide Moved, MovedFrom, Ok;
    OkParts(after);
    OkParts(incident);
  }

  lemma OkParts(incident: Incident)
    ensures Ok(incident) <==>
      && LedgerOk(incident) && LogOk(incident) && DueOk(incident) && TimesOk(incident) && ContentsOk(incident)
      && DepartmentOk(incident)
  {
    hide LedgerOk, LogOk, DueOk, TimesOk, ContentsOk, DepartmentOk;
  }

  lemma SameFields(incident: Incident, after: Incident, field: Field)
    requires after.assignee == incident.assignee && after.texts == incident.texts
    ensures Has(after, field) == Has(incident, field)
  {
  }

  lemma LogAfterMoveIff(incident: Incident, p: Pending)
    requires p.step.ChangeStatus? && LogOk(incident) && Allowed(p.read.status, p.step.to)
    ensures LogOk(MovedFrom(incident, p)) <==> p.read.status == incident.status
  {
    hide Accepted, Released;
    var after := MovedFrom(incident, p);
    assert after.log[..|incident.log|] == incident.log;
  }

  lemma TimesAfterMove(incident: Incident, p: Pending)
    requires p.step.ChangeStatus? && TimesOk(incident) && ReadOk(incident, p)
    ensures p.read.status == incident.status ==> TimesOk(MovedFrom(incident, p))
  {
    hide LedgerOk, LogOk, DueOk, ContentsOk, DepartmentOk, Accepted, Released;
    assert TimesOk(p.read);
  }

  lemma LedgerAfterFreshMove(incident: Incident, p: Pending)
    requires p.step.ChangeStatus? && LedgerOk(incident) && Allowed(p.read.status, p.step.to)
    ensures p.read.status == incident.status ==> LedgerOk(MovedFrom(incident, p))
  {
    if p.read.status == incident.status {
      LedgerAfterMove(incident, p.step.to, p.step.now);
      var moved, after := Moved(incident, p.step.to, p.step.now), MovedFrom(incident, p);
      assert after.assignments == moved.assignments && after.status == moved.status && after.assignee == moved.assignee;
    }
  }

  lemma DueAfterMove(incident: Incident, p: Pending)
    requires p.step.ChangeStatus?
    ensures DueOk(MovedFrom(incident, p)) <==> DueOk(incident)
    ensures DepartmentOk(MovedFrom(incident, p)) <==> DepartmentOk(incident)
  {
    hide Accepted, Released, PriorityOf, SlaOf;
  }

  // Updates.

  /** The priority was computed from an impact or an urgency that has changed since. */
  predicate StalePriority(incident: Incident, p: Pending)
    requires p.step.Update?
  {
    PriorityOf(Or(p.step.newImpact, p.read.impact), Or(p.step.newUrgency, p.read.urgency)) !=
    PriorityOf(Or(p.step.newImpact, incident.impact), Or(p.step.newUrgency, incident.urgency))
  }

  /** The assignee is written without its assignment, or an assignment is opened on a finished incident. */
  predicate StaleAssignment(incident: Incident, p: Pending)
    requires p.step.Update?
  {
    if Terminal(incident.status) then Reassigns(p) && p.step.assignment.Set?
    else !Reassigns(p) && Wanted(incident, p.step.assignment) != incident.assignee
  }

  predicate SpoilsUpdate(incident: Incident, p: Pending, staff: Roster)
    requires p.step.Update? && Passes(staff, p)
  {
    || StalePriority(incident, p)
    || StaleAssignment(incident, p)
    || (incident.status == Closed && exists field :: !Has(UpdatedFrom(incident, p, staff), field))
  }

  lemma UpdateOkIff(incident: Incident, p: Pending, staff: Roster)
    requires p.step.Update? && Passes(staff, p) && Ok(incident) && ReadOk(incident, p)
    ensures Ok(UpdatedFrom(incident, p, staff)) <==> !SpoilsUpdate(incident, p, staff)
  {
    hide Has, LedgerOk, DueOk, LogOk, TimesOk, DepartmentOk;
    OkParts(incident);
    var after := UpdatedFrom(incident, p, staff);
    UpdatedFromFrame(incident, p, staff);
    LedgerAfterUpdateIff(incident, p, staff);
    DueAfterUpdateIff(incident, p, staff);
    hide UpdatedFrom, Ok, StalePriority, StaleAssignment;
    OkParts(after);
  }

  lemma UpdatedFromFrame(incident: Incident, p: Pending, staff: Roster)
    requires p.step.Update? && Passes(staff, p) && LogOk(incident) && TimesOk(incident) && DepartmentOk(incident)
    ensures var after := UpdatedFrom(incident, p, staff);
      after.status == incident.status && LogOk(after) && TimesOk(after) && DepartmentOk(after)
  {
    hide AppliedTexts, Released, PriorityOf, SlaOf;
    var after := UpdatedFrom(incident, p, staff);
    assert after.log[..|incident.log|] == incident.log;
  }

  lemma DueAfterUpdateIff(incident: Incident, p: Pending, staff: Roster)
    requires p.step.Update? && Passes(staff, p)
    ensures DueOk(UpdatedFrom(incident, p, staff)) <==> !StalePriority(incident, p)
  {
    hide AppliedTexts, Released, PriorityOf, SlaOf;
  }

  lemma LedgerAfterUpdateIff(incident: Incident, p: Pending, staff: Roster)
    requires p.step.Update? && Passes(staff, p) && LedgerOk(incident)
    ensures LedgerOk(UpdatedFrom(incident, p, staff)) <==> !StaleAssignment(incident, p)
  {
    hide AppliedTexts, PriorityOf, SlaOf, Released, NoneOpen, OneOpen;
    var after := UpdatedFrom(incident, p, staff);
    var wanted := Wanted(incident, p.step.assignment);
    assert after.assignee == wanted && after.status == incident.status;
    if Reassigns(p) {
      var released := Released(incident.assignments, p.step.now);
      ReleasedIsClosed(incident.assignments, p.step.now);
      if p.step.assignment.Set? {
        var latest := Assignment(wanted.value, staff[wanted.value], None, None);
        assert after.assignments == released + [latest];
        NewAssignmentIsOpen(released, latest);
        OneIsNotNone(after.assignments, wanted.value);
      }
    } else if !Terminal(incident.status) && wanted != incident.assignee {
      assert after.assignments == incident.assignments;
      OneNamesOne(incident, wanted);
    }
  }

  lemma OneIsNotNone(assignments: seq<Assignment>, user: UserId)
    requires OneOpen(assignments, user)
    ensures !NoneOpen(assignments)
  {
  }

  lemma OneNamesOne(incident: Incident, wanted: Option<UserId>)
    requires LedgerOk(incident) && !Terminal(incident.status) && wanted != incident.assignee
    ensures !LedgerOk(incident.(assignee := wanted))
  {
  }

  // ---------------------------------------------------------------------------------------------
  // Over whole interleavings
  // ---------------------------------------------------------------------------------------------

  /** What no write takes back. */
  predicate Later(before: Incident, after: Incident) {
    && after.reportedAt == before.reportedAt
    && (before.acknowledgedAt.Some? ==> after.acknowledgedAt.Some?)
    && (before.startedAt.Some? ==> after.startedAt.Some?)
    && (before.resolvedAt.Some? ==> after.resolvedAt.Some?)
  }

  lemma ReadStaysOk(before: Incident, after: Incident, p: Pending)
    requires ReadOk(before, p) && Later(before, after)
    ensures ReadOk(after, p)
  {
    hide Ok;
  }

  lemma StepIsLater(db: Db, step: Step, id: IncidentId)
    requires id in db.incidents && id in Perform(db, step).incidents
    ensures Later(db.incidents[id], Perform(db, step).incidents[id])
  {
    hide AppliedTexts, Released, Accepted, PriorityOf, SlaOf, Responders, Created, Gate;
  }

  lemma WriteIsLater(db: Db, p: Pending, id: IncidentId)
    requires id in db.incidents
    ensures id in Written(db, p).incidents && Later(db.incidents[id], Written(db, p).incidents[id])
  {
    hide AppliedTexts, Released, Accepted, PriorityOf, SlaOf, Responders;
  }

  ghost predicate PendingInv(state: State) {
    forall r | r in state.pending && state.pending[r].step.id in state.db.incidents ::
      ReadOk(state.db.incidents[state.pending[r].step.id], state.pending[r])
  }

  predicate Spoils(state: State, move: Move) {
    && move.Write? && move.request in state.pending && Commits(state.db, state.pending[move.request])
    && var p := state.pending[move.request];
       var incident := state.db.incidents[p.step.id];
       if p.step.Update? then SpoilsUpdate(incident, p, Staff(state.db)) else SpoilsMove(incident, p)
  }

  lemma PendingStays(state: State, move: Move)
    requires Inv(state.db) && PendingInv(state)
    ensures PendingInv(Next(state, move))
  {
    hide Inv, Written, Perform, Enabled, ReadOk, Later, Responders;
    var after := Next(state, move);
    forall r | r in after.pending && after.pending[r].step.id in after.db.incidents
      ensures ReadOk(after.db.incidents[after.pending[r].step.id], after.pending[r])
    {
      var id := after.pending[r].step.id;
      if move.Read? && r == move.request && Splits(move.step) && Enabled(state.db, move.step) {
        ReadIsOk(state.db, move.step);
      } else {
        assert r in state.pending && after.pending[r] == state.pending[r];
        if move.Write? && move.request in state.pending {
          KnownBefore(state.db, state.pending[move.request], id);
          WriteIsLater(state.db, state.pending[move.request], id);
          ReadStaysOk(state.db.incidents[id], after.db.incidents[id], after.pending[r]);
        } else if move.Atomic? && !Splits(move.step) && NewKey(state, move.step) {
          StoredBefore(state.db, move.step, id);
          StepIsLater(state.db, move.step, id);
          ReadStaysOk(state.db.incidents[id], after.db.incidents[id], after.pending[r]);
        }
      }
    }
  }

  lemma ReadIsOk(db: Db, step: Step)
    requires Inv(db) && Splits(step) && Enabled(db, step)
    ensures ReadOk(db.incidents[step.id], Pending(step, db.incidents[step.id], Staff(db)))
  {
    assert Ok(db.incidents[step.id]);
    hide Inv, Ok, Has, Responders;
  }

  lemma KnownBefore(db: Db, p: Pending, id: IncidentId)
    requires id in Written(db, p).incidents
    ensures id in db.incidents
  {
    hide WrittenIncident, Passes;
  }

  lemma StoredBefore(db: Db, step: Step, id: IncidentId)
    requires id in Perform(db, step).incidents && (step.Create? ==> step.id != id)
    ensures id in db.incidents
  {
    hide Created, Updated, Moved, Gate, Responders;
  }

  ghost predicate Sound(state: State) {
    Inv(state.db) && PendingInv(state)
  }

  /** A move keeps what holds of every incident exactly when it does not write on a stale read in one of the ways of
      SpoilsUpdate and SpoilsMove. */
  lemma SoundIff(state: State, move: Move)
    requires Sound(state)
    ensures Sound(Next(state, move)) <==> !Spoils(state, move)
  {
    hide Inv, PendingInv, Written, SpoilsUpdate, SpoilsMove, Perform, Enabled;
    PendingStays(state, move);
    if move.Write? && move.request in state.pending {
      WrittenOkIff(state, move.request);
    } else if move.Atomic? {
      PerformKeepsInv(state.db, move.step);
    }
  }

  lemma WrittenOkIff(state: State, request: RequestId)
    requires Sound(state) && request in state.pending
    ensures Inv(Written(state.db, state.pending[request])) <==> !Spoils(state, Write(request))
  {
    hide Ok, SpoilsUpdate, SpoilsMove, ReadOk, UpdatedFrom, MovedFrom, Passes;
    var p := state.pending[request];
    if Commits(state.db, p) {
      var incident := state.db.incidents[p.step.id];
      assert Ok(incident) && ReadOk(incident, p);
      if p.step.Update? {
        UpdateOkIff(incident, p, Staff(state.db));
      } else {
        MoveOkIff(incident, p);
      }
      var after := Written(state.db, p);
      assert forall id | id in state.db.incidents && id != p.step.id :: after.incidents[id] == state.db.incidents[id];
      assert after.incidents[p.step.id] == WrittenIncident(incident, p, Staff(state.db));
    }
  }

  ghost predicate SoundAlong(state: State, moves: seq<Move>)
    decreases |moves|
  {
    Sound(state) && (moves != [] ==> SoundAlong(Next(state, moves[0]), moves[1..]))
  }

  predicate NeverSpoiled(state: State, moves: seq<Move>)
    decreases |moves|
  {
    moves != [] ==> !Spoils(state, moves[0]) && NeverSpoiled(Next(state, moves[0]), moves[1..])
  }

  /** However requests overlap, every incident keeps a sound ledger, log, due times, milestones and contents throughout
      exactly when no write changes a status that has changed since it was read, computes a priority from an impact or
      urgency that has, moves an assignee without the assignment, opens an assignment on a finished incident, or leaves
      a closed incident without one of its fields. */
  lemma {:induction false} SoundAlongIff(state: State, moves: seq<Move>)
    requires Sound(state)
    ensures SoundAlong(state, moves) <==> NeverSpoiled(state, moves)
    decreases |moves|
  {
    if moves != [] {
      SoundIff(state, moves[0]);
      hide Sound, Spoils, Next;
      if !Spoils(state, moves[0]) {
        SoundAlongIff(Next(state, moves[0]), moves[1..]);
      }
    }
  }

  // ---------------------------------------------------------------------------------------------
  // The interleavings that break it
  // ---------------------------------------------------------------------------------------------

  function ReadOf(db: Db, step: SplitStep): Pending
    requires step.id in db.incidents
  {
    Pending(step, db.incidents[step.id], Staff(db))
  }

  function ReadReadWrite(db: Db, first: SplitStep, second: SplitStep): State {
    Next(Next(Next(State(db, map[]), Read(1, first)), Read(2, second)), Write(2))
  }

  lemma AfterReadReadWrite(db: Db, first: SplitStep, second: SplitStep)
    requires Enabled(db, first) && Enabled(db, second)
    ensures ReadReadWrite(db, first, second).db == Written(db, ReadOf(db, second))
    ensures ReadReadWrite(db, first, second).pending == map[1 := ReadOf(db, first)]
  {
    hide Written, Gate, Responders;
    assert map[1 := ReadOf(db, first), 2 := ReadOf(db, second)] - {2} == map[1 := ReadOf(db, first)];
  }

  /** A resolved incident is closed between the check and the write of its reopening: the closed incident goes on. */
  lemma ClosedIsReopened(db: Db, id: IncidentId, actor: UserId, now: Time)
    requires Enabled(db, ChangeStatus(id, InProgress, actor, true, now))
    requires Enabled(db, ChangeStatus(id, Closed, actor, true, now)) && db.incidents[id].status == Resolved
    ensures var reopen, close :=
      ChangeStatus(id, InProgress, actor, true, now), ChangeStatus(id, Closed, actor, true, now);
      var closed := ReadReadWrite(db, reopen, close);
      && id in closed.db.incidents && closed.db.incidents[id].status == Closed
      && Spoils(closed, Write(1))
      && Next(closed, Write(1)).db.incidents[id].status == InProgress
      && Next(closed, Write(1)).db.incidents[id].closedAt.Some?
  {
    var reopen, close := ChangeStatus(id, InProgress, actor, true, now), ChangeStatus(id, Closed, actor, true, now);
    AfterReadReadWrite(db, reopen, close);
    hide Enabled, Responders, Accepted, Released, ReadReadWrite;
  }

  /** One request raises the impact and another the urgency: each computes the priority from what it has read, and an
      incident of high impact and high urgency ends up as P3 instead of P1. */
  lemma PriorityIsLost(db: Db, id: IncidentId, now: Time)
    requires id in db.incidents && !Terminal(db.incidents[id].status)
    requires db.incidents[id].impact == ImpactLow && db.incidents[id].urgency == UrgencyLow
    ensures var graver := Update(id, Some(ImpactHigh), None, Keep, map[], true, now);
      var faster := Update(id, None, Some(UrgencyHigh), Keep, map[], true, now);
      var raised := ReadReadWrite(db, graver, faster);
      && Spoils(raised, Write(1))
      && var after := Next(raised, Write(1)).db.incidents;
         id in after && after[id].impact == ImpactHigh && after[id].urgency == UrgencyHigh && after[id].priority == P3
  {
    var graver := Update(id, Some(ImpactHigh), None, Keep, map[], true, now);
    var faster := Update(id, None, Some(UrgencyHigh), Keep, map[], true, now);
    AfterReadReadWrite(db, graver, faster);
    hide AppliedTexts, Released, Responders, SlaOf, StaleAssignment, ReadReadWrite, Enabled;
  }
}
