/** What every incident keeps over whole runs: its assignment ledger, its activity log, its due times and,
    once closed, its contents. */
module IncidentRuns {
  import opened Common
  import opened Incidents
  import Text

  function Run(db: Db, steps: seq<Step>): Db
    decreases |steps|
  {
    if steps == [] then db else Run(Perform(db, steps[0]), steps[1..])
  }

  // ---------------------------------------------------------------------------------------------
  // The invariant
  // ---------------------------------------------------------------------------------------------

  predicate OpenAt(assignments: seq<Assignment>, i: int) {
    0 <= i < |assignments| && assignments[i].released.None?
  }

  ghost predicate NoneOpen(assignments: seq<Assignment>) {
    forall i :: !OpenAt(assignments, i)
  }

  ghost predicate OneOpen(assignments: seq<Assignment>, assignee: UserId) {
    && (exists i :: OpenAt(assignments, i))
    && (forall i :: OpenAt(assignments, i) ==> assignments[i].assignee == assignee)
    && (forall i, j :: OpenAt(assignments, i) && OpenAt(assignments, j) ==> i == j)
  }

  /** Exactly one open assignment, naming the assignee, of an incident that is assigned and not finished; else none. */
  ghost predicate LedgerOk(incident: Incident) {
    if !Terminal(incident.status) && incident.assignee.Some?
    then OneOpen(incident.assignments, incident.assignee.value)
    else NoneOpen(incident.assignments)
  }

  /** The status a log leads to. */
  function Replay(log: seq<Activity>): Option<Status> {
    if log == [] then None
    else if log[|log| - 1].StatusEntry? then Some(log[|log| - 1].to)
    else Replay(log[..|log| - 1])
  }

  /** Every status entry starts where the log has led so far and follows an allowed edge. */
  predicate Legal(log: seq<Activity>) {
    log == []
    || (var front, last := log[..|log| - 1], log[|log| - 1];
        && Legal(front)
        && (last.StatusEntry? ==>
          && last.from == Replay(front)
          && (if last.from.Some? then Allowed(last.from.value, last.to) else last.to == New)))
  }

  predicate LogOk(incident: Incident) {
    Legal(incident.log) && Replay(incident.log) == Some(incident.status)
  }

  predicate DueOk(incident: Incident) {
    && incident.priority == PriorityOf(incident.impact, incident.urgency)
    && incident.responseDue == incident.reportedAt + SlaOf(incident.priority).responseMinutes * MINUTE
    && incident.resolutionDue == incident.reportedAt + SlaOf(incident.priority).resolutionMinutes * MINUTE
  }

  /** A status past a milestone has the time of it. */
  predicate TimesOk(incident: Incident) {
    && (incident.status !in {New, Cancelled} ==> incident.acknowledgedAt.Some?)
    && (incident.status in {InProgress, Monitoring, Resolved, Closed} ==> incident.startedAt.Some?)
    && (incident.status in {Resolved, Closed} ==> incident.resolvedAt.Some?)
    && (Terminal(incident.status) <==> incident.closedAt.Some?)
  }

  predicate DepartmentOk(incident: Incident) {
    incident.department.Some? <==> incident.assignee.Some?
  }

  predicate ContentsOk(incident: Incident) {
    incident.status == Closed ==> forall field :: Has(incident, field)
  }

  ghost predicate Ok(incident: Incident) {
    && LedgerOk(incident) && LogOk(incident) && DueOk(incident) && TimesOk(incident) && ContentsOk(incident)
    && DepartmentOk(incident)
  }

  ghost predicate Inv(db: Db) {
    forall id | id in db.incidents :: Ok(db.incidents[id])
  }

  // ---------------------------------------------------------------------------------------------
  // Ledger
  // ---------------------------------------------------------------------------------------------

  lemma ReleasedIsClosed(assignments: seq<Assignment>, now: Time)
    ensures NoneOpen(Released(assignments, now))
    ensures NoneOpen(assignments) ==> Released(assignments, now) == assignments
  {
    if NoneOpen(assignments) {
      forall i | 0 <= i < |assignments|
        ensures assignments[i].released.Some?
      {
        assert !OpenAt(assignments, i);
      }
    }
  }

  lemma AcceptedKeepsOpen(assignments: seq<Assignment>, now: Time)
    ensures forall i :: OpenAt(Accepted(assignments, now), i) <==> OpenAt(assignments, i)
    ensures forall i | OpenAt(assignments, i) :: Accepted(assignments, now)[i].assignee == assignments[i].assignee
  {
  }

  lemma NewAssignmentIsOpen(assignments: seq<Assignment>, assignment: Assignment)
    requires NoneOpen(assignments) && assignment.released.None?
    ensures OneOpen(assignments + [assignment], assignment.assignee)
  {
    var longer := assignments + [assignment];
    forall i
      ensures OpenAt(longer, i) <==> i == |assignments|
    {
      assert !OpenAt(assignments, i);
    }
    assert OpenAt(longer, |assignments|);
  }

  lemma LedgerAfterUpdate(db: Db, incident: Incident, step: Step)
    requires step.Update? && CanAssign(Staff(db), step.assignment)
    requires LedgerOk(incident) && !Terminal(incident.status)
    ensures LedgerOk(Updated(db, incident, step))
  {
    hide WithPriority, AppliedTexts, NoneOpen, OneOpen, Released;
    var wanted, after := Wanted(incident, step.assignment), Updated(db, incident, step);
    assert after.assignee == wanted && after.status == incident.status by { UpdatedFrame(db, incident, step); }
    if wanted != incident.assignee {
      ReleasedIsClosed(incident.assignments, step.now);
      if wanted.Some? {
        NewAssignmentIsOpen(Released(incident.assignments, step.now),
                            Assignment(wanted.value, Staff(db)[wanted.value], None, None));
      }
    }
  }

  lemma UpdatedFrame(db: Db, incident: Incident, step: Step)
    requires step.Update? && CanAssign(Staff(db), step.assignment)
    ensures var after := Updated(db, incident, step);
      && after.assignee == Wanted(incident, step.assignment)
      && after == incident.(impact := after.impact, urgency := after.urgency, priority := after.priority,
                            responseDue := after.responseDue, resolutionDue := after.resolutionDue,
                            assignee := after.assignee, department := after.department, texts := after.texts,
                            assignments := after.assignments, log := after.log)
      && DueOk(after)
      && |after.log| == |incident.log| + 1 && after.log[..|incident.log|] == incident.log
      && after.log[|incident.log|].Note?
  {
    hide AppliedTexts, Released, PriorityOf, SlaOf;
  }

  lemma LedgerAfterMove(incident: Incident, to: Status, now: Time)
    requires LedgerOk(incident) && Allowed(incident.status, to)
    ensures LedgerOk(Moved(incident, to, now))
    ensures Terminal(incident.status) ==>
      Moved(incident, to, now).assignments == incident.assignments && to == incident.status
  {
    if Terminal(to) {
      ReleasedIsClosed(incident.assignments, now);
    } else if to == Acknowledged {
      AcceptedKeepsOpen(incident.assignments, now);
    }
  }

  // ---------------------------------------------------------------------------------------------
  // Steps keep the invariant
  // ---------------------------------------------------------------------------------------------

  lemma CreatedIsOk(db: Db, step: Step)
    requires step.Create? && Enabled(db, step)
    ensures Ok(Created(db, step))
  {
    hide AppliedTexts, PriorityOf, SlaOf;
    var incident := Created(db, step);
    assert incident.log == [StatusEntry(None, New)] && incident.log[..0] == [];
    if step.assignee.Some? {
      NewAssignmentIsOpen([], incident.assignments[0]);
      assert [] + [incident.assignments[0]] == incident.assignments;
    }
  }

  lemma UpdatedIsOk(db: Db, incident: Incident, step: Step)
    requires step.Update? && CanAssign(Staff(db), step.assignment) && Ok(incident) && !Terminal(incident.status)
    ensures Ok(Updated(db, incident, step))
  {
    LedgerAfterUpdate(db, incident, step);
    UpdatedFrame(db, incident, step);
    hide Updated, LedgerOk, DueOk;
  }

  lemma MovedIsOk(incident: Incident, to: Status, actor: UserId, admin: bool, now: Time)
    requires Ok(incident) && Gate(incident, to, actor, admin)
    ensures Ok(Moved(incident, to, now))
  {
    LedgerAfterMove(incident, to, now);
    var after := Moved(incident, to, now);
    assert after.log[..|incident.log|] == incident.log;
    assert ContentsOk(after) by { ContentsAfterMove(incident, to, actor, admin, now); }
    hide LedgerOk, Accepted, Released, Gate, ContentsOk, SlaOf, PriorityOf;
  }

  lemma ContentsAfterMove(incident: Incident, to: Status, actor: UserId, admin: bool, now: Time)
    requires Gate(incident, to, actor, admin)
    ensures ContentsOk(Moved(incident, to, now))
  {
    hide Accepted, Released;
    if to == Closed {
      forall field
        ensures Has(Moved(incident, to, now), field)
      {
        assert Needs(to, field);
        assert Has(incident, field);
      }
    }
  }

  lemma NotedIsOk(incident: Incident, kind: string)
    requires Ok(incident)
    ensures Ok(incident.(log := incident.log + [Note(kind)]))
  {
    var after := incident.(log := incident.log + [Note(kind)]);
    assert after.log[..|incident.log|] == incident.log;
    forall field
      ensures Has(after, field) == Has(incident, field)
    {
    }
    hide Has;
  }

  lemma PerformKeepsInv(db: Db, step: Step)
    requires Inv(db)
    ensures Inv(Perform(db, step))
  {
    hide Ok, Created, Updated, Moved, Gate;
    if Enabled(db, step) {
      match step
      case Create(_, _, _, _, _, _, _, _) => CreatedIsOk(db, step);
      case Update(id, _, _, _, _, _, _) => UpdatedIsOk(db, db.incidents[id], step);
      case ChangeStatus(id, to, actor, admin, now) => MovedIsOk(db.incidents[id], to, actor, admin, now);
      case AddActivity(id, kind) => NotedIsOk(db.incidents[id], Text.Upper(Text.Trim(kind)));
      case _ =>
    }
  }

  lemma {:induction false} RunKeepsInv(db: Db, steps: seq<Step>)
    requires Inv(db)
    ensures Inv(Run(db, steps))
    decreases |steps|
  {
    hide Inv, Perform;
    if steps != [] {
      PerformKeepsInv(db, steps[0]);
      RunKeepsInv(Perform(db, steps[0]), steps[1..]);
    }
  }

  /** Every incident of every reachable state has a sound ledger, log, due times, milestones and, when closed,
      contents, and a department exactly when it has an assignee. */
  lemma ReachableStates(users: map<UserId, User>, teams: set<DepartmentId>, steps: seq<Step>, id: IncidentId)
    requires id in Run(Db(users, teams, map[]), steps).incidents
    ensures var incident := Run(Db(users, teams, map[]), steps).incidents[id];
      && LedgerOk(incident) && LogOk(incident) && DueOk(incident) && TimesOk(incident) && ContentsOk(incident)
      && (incident.department.Some? <==> incident.assignee.Some?)
  {
    var start := Db(users, teams, map[]);
    assert Inv(start);
    RunKeepsInv(start, steps);
    hide Run, LedgerOk, LogOk, DueOk, TimesOk, ContentsOk;
  }

  // ---------------------------------------------------------------------------------------------
  // Finished incidents
  // ---------------------------------------------------------------------------------------------

  predicate NeverRemoved(steps: seq<Step>, id: IncidentId) {
    Remove(id) !in steps
  }

  /** A closed or cancelled incident never changes again, but for the time of closing and an activity log that only
      grows. */
  lemma {:induction false} FinishedIsFrozen(db: Db, id: IncidentId, steps: seq<Step>)
    requires Inv(db) && id in db.incidents && Terminal(db.incidents[id].status) && NeverRemoved(steps, id)
    ensures id in Run(db, steps).incidents
    ensures var before, after := db.incidents[id], Run(db, steps).incidents[id];
      after == before.(closedAt := after.closedAt, log := after.log) && before.log <= after.log
    decreases |steps|
  {
    if steps != [] {
      FinishedStep(db, id, steps[0]);
      PerformKeepsInv(db, steps[0]);
      hide Inv, Perform;
      FinishedIsFrozen(Perform(db, steps[0]), id, steps[1..]);
    }
  }

  lemma FinishedStep(db: Db, id: IncidentId, step: Step)
    requires Inv(db) && id in db.incidents && Terminal(db.incidents[id].status) && step != Remove(id)
    ensures id in Perform(db, step).incidents
    ensures var before, after := db.incidents[id], Perform(db, step).incidents[id];
      after == before.(closedAt := after.closedAt, log := after.log) && before.log <= after.log
  {
    hide Created, Updated, LogOk, DueOk, TimesOk, ContentsOk;
    if step.ChangeStatus? && step.id == id && Enabled(db, step) {
      LedgerAfterMove(db.incidents[id], step.to, step.now);
      hide Accepted, Released, LedgerOk;
    }
  }

  /** A finished incident is closed, or cancelled, once more by someone who may, at another time. */
  predicate Refinishes(db: Db, id: IncidentId, step: Step) {
    && id in db.incidents && step.ChangeStatus? && step.id == id
    && var incident := db.incidents[id];
       && step.to == incident.status
       && (incident.assignee.None? || step.admin || incident.assignee.value == step.actor)
       && incident.closedAt != Some(step.now)
  }

  /** The time of closing is all that is not frozen, and only finishing the incident again rewrites it. */
  lemma ClosingTimeChangesIff(db: Db, id: IncidentId, step: Step)
    requires Inv(db) && id in db.incidents && Terminal(db.incidents[id].status) && step != Remove(id)
    ensures id in Perform(db, step).incidents
    ensures Perform(db, step).incidents[id].closedAt != db.incidents[id].closedAt <==> Refinishes(db, id, step)
  {
    FinishedStep(db, id, step);
    assert Ok(db.incidents[id]);
    if step.ChangeStatus? && step.id == id {
      GateOfFinished(db.incidents[id], step);
    }
    hide Created, Updated, Ok, Gate, Has, Released, Accepted;
  }

  /** In particular, an administrator can always rewrite the time of a closed incident. */
  lemma ClosingAgainRewritesTheTime(db: Db, id: IncidentId, actor: UserId, now: Time)
    requires Inv(db) && id in db.incidents && db.incidents[id].status == Closed
    ensures var again := ChangeStatus(id, Closed, actor, true, now);
      Enabled(db, again) && Apply(db, again).incidents[id].closedAt == Some(now)
  {
    hide LedgerOk, LogOk, DueOk, TimesOk;
  }

  lemma GateOfFinished(incident: Incident, step: Step)
    requires Ok(incident) && Terminal(incident.status) && step.ChangeStatus?
    ensures Gate(incident, step.to, step.actor, step.admin) <==>
      step.to == incident.status && (incident.assignee.None? || step.admin || incident.assignee.value == step.actor)
  {
    hide LedgerOk, LogOk, DueOk, TimesOk, Has;
  }

  /** The incident, its log apart, in every state of a run. */
  predicate SameAlong(db: Db, steps: seq<Step>, id: IncidentId, incident: Incident)
    decreases |steps|
  {
    && id in db.incidents && db.incidents[id] == incident.(log := db.incidents[id].log)
    && (steps != [] ==> SameAlong(Perform(db, steps[0]), steps[1..], id, incident))
  }

  predicate NeverRefinished(db: Db, steps: seq<Step>, id: IncidentId)
    decreases |steps|
  {
    steps != [] ==> !Refinishes(db, id, steps[0]) && NeverRefinished(Perform(db, steps[0]), steps[1..], id)
  }

  /** Apart from its log, a finished incident stays the same throughout a run exactly when it is never finished
      again. */
  lemma {:induction false} FinishedIsSameIff(db: Db, id: IncidentId, steps: seq<Step>, incident: Incident)
    requires Inv(db) && id in db.incidents && Terminal(incident.status) && NeverRemoved(steps, id)
    requires db.incidents[id] == incident.(log := db.incidents[id].log)
    ensures SameAlong(db, steps, id, incident) <==> NeverRefinished(db, steps, id)
    decreases |steps|
  {
    if steps != [] {
      var next := Perform(db, steps[0]);
      FinishedStep(db, id, steps[0]);
      ClosingTimeChangesIff(db, id, steps[0]);
      PerformKeepsInv(db, steps[0]);
      hide Inv, Perform, Refinishes;
      if next.incidents[id].closedAt == db.incidents[id].closedAt {
        FinishedIsSameIff(next, id, steps[1..], incident);
      }
    }
  }

  // ---------------------------------------------------------------------------------------------
  // What an update may undo
  // ---------------------------------------------------------------------------------------------

  /** A required text can be blanked again by a later update; the incident keeps its status, and every status that asks
      for the text, its own included, is refused until it is back. */
  lemma UpdateMayBlank(db: Db, id: IncidentId, field: Field, now: Time)
    requires id in db.incidents && !Terminal(db.incidents[id].status) && field != AssignedTo
    ensures var blank := Update(id, None, None, Keep, map[field := Clear], true, now);
      && Enabled(db, blank)
      && var after := Apply(db, blank).incidents[id];
         && after.status == db.incidents[id].status && !Has(after, field)
         && forall to, actor, admin | Needs(to, field) :: !Gate(after, to, actor, admin)
  {
    var blank: Step := Update(id, None, None, Keep, map[field := Clear], true, now);
    var after := Apply(db, blank).incidents[id];
    assert after == Updated(db, db.incidents[id], blank);
    BlankedText(db, db.incidents[id], blank, field);
    hide Updated, Has, Needs, Allowed;
  }

  lemma BlankedText(db: Db, incident: Incident, step: Step, field: Field)
    requires step.Update? && CanAssign(Staff(db), step.assignment)
    requires field != AssignedTo && field in step.texts && step.texts[field] == Clear
    ensures !Has(Updated(db, incident, step), field) && Updated(db, incident, step).status == incident.status
  {
    hide Released, PriorityOf, SlaOf;
    var texts := AppliedTexts(incident.texts, step.texts);
    assert Applied(incident.texts, step.texts, field) == None;
    assert field !in texts;
    hide AppliedTexts;
    assert Text.Trim("") == "";
  }
}
