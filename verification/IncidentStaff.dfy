/** The department of an incident, the one its assignment was opened with, and the one its assignee belongs to now
    (apps/api/prisma/migrations/202608250002_incident_assignee_integrity/migration.sql and
    apps/api/src/modules/incidents/incidents.service.ts). */
module IncidentStaff {
  import opened Common
  import opened Incidents
  import opened IncidentRuns

  // ---------------------------------------------------------------------------------------------
  // The incident and its open assignment
  // ---------------------------------------------------------------------------------------------

  /** The department of an incident is the one its open assignment names. */
  ghost predicate Agrees(incident: Incident) {
    OpenWith(incident, incident.department)
  }

  ghost predicate OpenWith(incident: Incident, department: Option<DepartmentId>) {
    forall i :: OpenAt(incident.assignments, i) ==> department == Some(incident.assignments[i].department)
  }

  predicate OnIncident(db: Db, id: IncidentId, step: Step) {
    id in db.incidents && Enabled(db, step) && step.Update? && step.id == id
  }

  /** An update that names the present assignee once more: the department is written anew, the assignment is not. */
  predicate Restamps(db: Db, id: IncidentId, step: Step) {
    OnIncident(db, id, step) && step.assignment.Set? && db.incidents[id].assignee == Some(step.assignment.value)
  }

  /** The assignee has moved since the assignment was opened. */
  ghost predicate Drifts(db: Db, id: IncidentId, step: Step) {
    Restamps(db, id, step) && !OpenWith(db.incidents[id], Some(Staff(db)[step.assignment.value]))
  }

  /** The open assignment is closed, and another one opened or none. */
  predicate Settles(db: Db, id: IncidentId, step: Step) {
    || (OnIncident(db, id, step) && Wanted(db.incidents[id], step.assignment) != db.incidents[id].assignee)
    || (id in db.incidents && Enabled(db, step) && step.ChangeStatus? && step.id == id && Terminal(step.to))
  }

  /** When the two departments agree after a step. */
  lemma AgreementIff(db: Db, id: IncidentId, step: Step)
    requires Inv(db) && id in db.incidents && step != Remove(id)
    ensures id in Perform(db, step).incidents
    ensures Agrees(Perform(db, step).incidents[id]) <==>
      !Drifts(db, id, step) && (Settles(db, id, step) || Restamps(db, id, step) || Agrees(db.incidents[id]))
  {
    assert Ok(db.incidents[id]);
    hide Inv, Ok, Created, Agrees, Updated, Moved, Gate, OpenWith;
    if OnIncident(db, id, step) {
      AgreementAfterUpdate(db, db.incidents[id], step) by { OkLedger(db, id); }
      assert Perform(db, step).incidents[id] == Updated(db, db.incidents[id], step);
    } else if Enabled(db, step) && step.ChangeStatus? && step.id == id {
      AgreementAfterMove(db.incidents[id], step.to, step.now) by { OkLedger(db, id); }
    } else if Enabled(db, step) && step.AddActivity? && step.id == id {
      AgreementAfterNote(db.incidents[id], Perform(db, step).incidents[id]);
    }
  }

  lemma OkLedger(db: Db, id: IncidentId)
    requires Inv(db) && id in db.incidents
    ensures LedgerOk(db.incidents[id]) && DepartmentOk(db.incidents[id])
  {
    assert Ok(db.incidents[id]);
    hide Inv, LedgerOk, DepartmentOk, LogOk, DueOk, TimesOk, ContentsOk;
  }

  lemma AgreementAfterNote(incident: Incident, after: Incident)
    requires after == incident.(log := after.log)
    ensures Agrees(after) <==> Agrees(incident)
  {
  }

  lemma AgreementAfterUpdate(db: Db, incident: Incident, step: Step)
    requires step.Update? && CanAssign(Staff(db), step.assignment) && LedgerOk(incident) && DepartmentOk(incident)
    requires !Terminal(incident.status)
    ensures Agrees(Updated(db, incident, step)) <==>
      || Wanted(incident, step.assignment) != incident.assignee
      || (if step.assignment.Set? then OpenWith(incident, Some(Staff(db)[step.assignment.value])) else Agrees(incident))
  {
    hide WithPriority, AppliedTexts, Released, PriorityOf, SlaOf, LedgerOk, NoneOpen;
    var after, wanted := Updated(db, incident, step), Wanted(incident, step.assignment);
    UpdatedAssignments(db, incident, step);
    if wanted != incident.assignee {
      var released := Released(incident.assignments, step.now);
      ReleasedIsClosed(incident.assignments, step.now);
      forall i | OpenAt(after.assignments, i)
        ensures after.department == Some(after.assignments[i].department)
      {
        NotOpen(released, i);
      }
    }
  }

  lemma NotOpen(assignments: seq<Assignment>, i: int)
    requires NoneOpen(assignments)
    ensures !OpenAt(assignments, i)
  {
  }

  lemma UpdatedAssignments(db: Db, incident: Incident, step: Step)
    requires step.Update? && CanAssign(Staff(db), step.assignment)
    ensures var after, wanted := Updated(db, incident, step), Wanted(incident, step.assignment);
      && after.department == StampedDepartment(Staff(db), incident, step.assignment)
      && after.assignments ==
        if wanted == incident.assignee then incident.assignments
        else if wanted.None? then Released(incident.assignments, step.now)
        else Released(incident.assignments, step.now) + [Assignment(wanted.value, Staff(db)[wanted.value], None, None)]
  {
    hide AppliedTexts, Released, PriorityOf, SlaOf;
  }

  lemma AgreementAfterMove(incident: Incident, to: Status, now: Time)
    requires LedgerOk(incident) && Allowed(incident.status, to)
    ensures Agrees(Moved(incident, to, now)) <==> Terminal(to) || Agrees(incident)
  {
    var after := Moved(incident, to, now);
    assert after.department == incident.department;
    if Terminal(to) {
      ReleasedIsClosed(incident.assignments, now);
      hide LedgerOk, Released;
    } else if to == Acknowledged {
      assert forall i :: OpenAt(after.assignments, i) <==> OpenAt(incident.assignments, i);
      assert forall i | OpenAt(incident.assignments, i) ::
        after.assignments[i].department == incident.assignments[i].department;
      hide LedgerOk, Accepted;
    }
  }

  ghost predicate AgreesAlong(db: Db, steps: seq<Step>, id: IncidentId)
    decreases |steps|
  {
    && id in db.incidents && Agrees(db.incidents[id])
    && (steps != [] ==> AgreesAlong(Perform(db, steps[0]), steps[1..], id))
  }

  ghost predicate NeverDrifts(db: Db, steps: seq<Step>, id: IncidentId)
    decreases |steps|
  {
    steps != [] ==> !Drifts(db, id, steps[0]) && NeverDrifts(Perform(db, steps[0]), steps[1..], id)
  }

  /** An incident agrees with its open assignment throughout a run exactly when it is never assigned anew to an assignee
      who has moved. */
  lemma {:induction false} AgreesAlongIff(db: Db, steps: seq<Step>, id: IncidentId)
    requires Inv(db) && id in db.incidents && Agrees(db.incidents[id]) && NeverRemoved(steps, id)
    ensures AgreesAlong(db, steps, id) <==> NeverDrifts(db, steps, id)
    decreases |steps|
  {
    if steps != [] {
      AgreementIff(db, id, steps[0]);
      PerformKeepsInv(db, steps[0]);
      var next := Perform(db, steps[0]);
      hide Inv, Perform, Agrees, Drifts, Settles;
      if Agrees(next.incidents[id]) {
        AgreesAlongIff(next, steps[1..], id);
      }
    }
  }

  // ---------------------------------------------------------------------------------------------
  // The incident and its assignee
  // ---------------------------------------------------------------------------------------------

  /** An active incident that has never been resolved is assigned to a responder, and names the department this
      responder belongs to, as its open assignment does. */
  ghost predicate StaffOk(users: map<UserId, User>, teams: set<DepartmentId>, incident: Incident) {
    Active(incident.status) && incident.resolvedAt.None? && incident.assignee.Some? ==>
      && Responds(users, teams, incident.assignee.value)
      && incident.department == users[incident.assignee.value].department
      && Agrees(incident)
  }

  ghost predicate StaffInv(db: Db) {
    Inv(db) && forall id | id in db.incidents :: StaffOk(db.users, db.teams, db.incidents[id])
  }

  lemma CreatedIsStaffed(db: Db, step: Step)
    requires step.Create? && Enabled(db, step)
    ensures StaffOk(db.users, db.teams, Created(db, step))
  {
    hide AppliedTexts, PriorityOf, SlaOf;
  }

  lemma UpdatedIsStaffed(db: Db, id: IncidentId, step: Step)
    requires StaffInv(db) && OnIncident(db, id, step)
    ensures StaffOk(db.users, db.teams, Updated(db, db.incidents[id], step))
  {
    hide Inv, Agrees, Updated, OpenWith;
    var incident := db.incidents[id];
    OkLedger(db, id);
    UpdatedFrame(db, incident, step);
    UpdatedAssignments(db, incident, step);
    AgreementAfterUpdate(db, incident, step);
    assert StaffOk(db.users, db.teams, incident);
    if step.assignment.Set? && incident.assignee == Some(step.assignment.value) && Agrees(incident) {
      AgreesIsOpenWith(incident);
    }
  }

  lemma AgreesIsOpenWith(incident: Incident)
    ensures Agrees(incident) <==> OpenWith(incident, incident.department)
  {
  }

  lemma MovedIsStaffed(db: Db, id: IncidentId, step: Step)
    requires StaffInv(db) && id in db.incidents && step.ChangeStatus? && step.id == id && Enabled(db, step)
    ensures StaffOk(db.users, db.teams, Moved(db.incidents[id], step.to, step.now))
  {
    hide Inv, Agrees, Has, Released, Accepted;
    OkLedger(db, id);
    TimesOfActive(db, id);
    AgreementAfterMove(db.incidents[id], step.to, step.now);
    assert StaffOk(db.users, db.teams, db.incidents[id]);
  }

  /** A resolved incident has been resolved, and a finished one is not opened again. */
  lemma TimesOfActive(db: Db, id: IncidentId)
    requires Inv(db) && id in db.incidents
    ensures db.incidents[id].status == Resolved ==> db.incidents[id].resolvedAt.Some?
  {
    assert Ok(db.incidents[id]);
    hide Inv, LedgerOk, DepartmentOk, LogOk, DueOk, ContentsOk;
  }

  /** The triggers on users and departments keep the assignees of active incidents in place. */
  lemma OthersStayStaffed(db: Db, step: Step, id: IncidentId)
    requires StaffInv(db) && id in db.incidents && (step.SetUser? || step.SetTeam?) && Enabled(db, step)
    ensures StaffOk(Apply(db, step).users, Apply(db, step).teams, db.incidents[id])
  {
    hide Inv, Agrees;
    assert StaffOk(db.users, db.teams, db.incidents[id]);
    if step.SetUser? && Assigned(db.incidents[id], step.user) && db.incidents[id].resolvedAt.None? {
      assert step.user in db.users;
    }
  }

  lemma StepKeepsStaff(db: Db, step: Step)
    requires StaffInv(db)
    ensures StaffInv(Perform(db, step))
  {
    hide Inv, StaffOk, Created, Updated, Moved, Gate, UserMayBecome, TeamMayBecome, CanAssign;
    PerformKeepsInv(db, step);
    var after := Perform(db, step);
    forall id | id in after.incidents
      ensures StaffOk(after.users, after.teams, after.incidents[id])
    {
      if !Enabled(db, step) {
      } else if step.Create? && step.id == id {
        CreatedIsStaffed(db, step);
      } else if OnIncident(db, id, step) {
        UpdatedIsStaffed(db, id, step);
      } else if step.ChangeStatus? && step.id == id {
        MovedIsStaffed(db, id, step);
      } else if step.AddActivity? && step.id == id {
        NotedIsStaffed(db, id, after.incidents[id]);
      } else if step.SetUser? || step.SetTeam? {
        OthersStayStaffed(db, step, id);
      }
    }
  }

  lemma NotedIsStaffed(db: Db, id: IncidentId, after: Incident)
    requires StaffInv(db) && id in db.incidents && after == db.incidents[id].(log := after.log)
    ensures StaffOk(db.users, db.teams, after)
  {
    AgreementAfterNote(db.incidents[id], after);
    hide Inv, Agrees;
  }

  lemma {:induction false} RunKeepsStaff(db: Db, steps: seq<Step>)
    requires StaffInv(db)
    ensures StaffInv(Run(db, steps))
    decreases |steps|
  {
    hide StaffInv, Perform;
    if steps != [] {
      StepKeepsStaff(db, steps[0]);
      RunKeepsStaff(Perform(db, steps[0]), steps[1..]);
    }
  }

  /** In every reachable state, the assignee of an active incident that has never been resolved responds, and belongs to
      the department that the incident and its open assignment name. */
  lemma ReachableStaff(users: map<UserId, User>, teams: set<DepartmentId>, steps: seq<Step>, id: IncidentId)
    requires id in Run(Db(users, teams, map[]), steps).incidents
    ensures var db := Run(Db(users, teams, map[]), steps);
      var incident := db.incidents[id];
      Active(incident.status) && incident.resolvedAt.None? && incident.assignee.Some? ==>
        && incident.assignee.value in Staff(db)
        && incident.department == Some(Staff(db)[incident.assignee.value])
        && forall i :: OpenAt(incident.assignments, i) ==>
          incident.department == Some(incident.assignments[i].department)
  {
    var start := Db(users, teams, map[]);
    assert StaffInv(start);
    RunKeepsStaff(start, steps);
    assert StaffOk(Run(start, steps).users, Run(start, steps).teams, Run(start, steps).incidents[id]);
    hide Run, Inv;
  }

  /** So an incident drifts from its assignment only after it has been resolved. */
  lemma OnlyResolvedDrift(db: Db, id: IncidentId, step: Step)
    requires StaffInv(db) && Drifts(db, id, step)
    ensures db.incidents[id].resolvedAt.Some?
  {
    hide Inv, Responds;
    assert StaffOk(db.users, db.teams, db.incidents[id]);
    ActiveUnlessResolved(db, id);
  }

  lemma ActiveUnlessResolved(db: Db, id: IncidentId)
    requires Inv(db) && id in db.incidents
    ensures Ok(db.incidents[id])
    ensures db.incidents[id].resolvedAt.None? && !Terminal(db.incidents[id].status) ==> Active(db.incidents[id].status)
  {
    assert Ok(db.incidents[id]);
    hide Inv, LedgerOk, DepartmentOk, LogOk, DueOk, ContentsOk;
  }

  /** And any resolved incident can: its assignee, when not held by an active incident, moves to another department and
      is named once more. */
  lemma ResolvedCanDrift(db: Db, id: IncidentId, user: UserId, department: DepartmentId, i: nat, now: Time)
    requires Inv(db) && id in db.incidents && db.incidents[id].status == Resolved
    requires db.incidents[id].assignee == Some(user)
    requires user in Staff(db) && department in db.teams
    requires forall other | other in db.incidents :: !Assigned(db.incidents[other], user)
    requires OpenAt(db.incidents[id].assignments, i) && db.incidents[id].assignments[i].department != department
    ensures var moves := SetUser(user, User(Some(department), true));
      var again := Update(id, None, None, Set(user), map[], true, now);
      && Enabled(db, moves) && Drifts(Perform(db, moves), id, again)
      && !Agrees(Perform(Perform(db, moves), again).incidents[id])
  {
    var moves := SetUser(user, User(Some(department), true));
    var again := Update(id, None, None, Set(user), map[], true, now);
    hide Inv, Updated, Agrees;
    assert Enabled(db, moves);
    var moved := Perform(db, moves);
    assert user in Staff(moved) && Staff(moved)[user] == department;
    PerformKeepsInv(db, moves);
    AgreementIff(moved, id, again);
  }

  function Texts(): map<Field, Change<string>> {
    map[ContainmentAction := Set("c"), Resolution := Set("r"), RootCause := Set("w"), CorrectiveAction := Set("f")]
  }

  /** From an empty table to a resolved incident. */
  function UntilResolved(id: IncidentId, user: UserId, now: Time): seq<Step> {
    [Create(id, ImpactLow, UrgencyLow, Some(user), Set("a"), true, now, now),
     Update(id, None, None, Keep, Texts(), true, now),
     ChangeStatus(id, Acknowledged, user, false, now),
     ChangeStatus(id, InProgress, user, false, now),
     ChangeStatus(id, Resolved, user, false, now)]
  }

  /** What the way to the resolution relies on. */
  ghost predicate OnTheWay(db: Db, start: Db, id: IncidentId, user: UserId, status: Status) {
    && db.users == start.users && db.teams == start.teams && db.incidents.Keys == {id}
    && user in Staff(start)
    && var incident := db.incidents[id];
       && incident.status == status && incident.assignee == Some(user)
       && |incident.assignments| == 1 && incident.assignments[0].released.None?
       && incident.assignments[0].department == Staff(start)[user]
  }

  ghost predicate Prepared(incident: Incident) {
    forall field | Needs(Resolved, field) :: Has(incident, field)
  }

  lemma CreatedOnTheWay(start: Db, id: IncidentId, user: UserId, now: Time)
    requires start.incidents == map[] && user in Staff(start)
    ensures var step := UntilResolved(id, user, now)[0];
      Enabled(start, step) && OnTheWay(Perform(start, step), start, id, user, New)
      && TextIn(Perform(start, step).incidents[id], InitialAssessment) == "a"
  {
    hide PriorityOf, SlaOf, Responds;
    assert Text.Trim("a") == "a";
    assert Applied(map[], map[InitialAssessment := Set("a")], InitialAssessment) == Some("a");
  }

  lemma PreparedOnTheWay(db: Db, start: Db, id: IncidentId, user: UserId, now: Time)
    requires OnTheWay(db, start, id, user, New) && TextIn(db.incidents[id], InitialAssessment) == "a"
    ensures var step := UntilResolved(id, user, now)[1];
      Enabled(db, step) && OnTheWay(Perform(db, step), start, id, user, New)
      && Prepared(Perform(db, step).incidents[id])
  {
    hide Responds, Updated, AppliedTexts, Texts, Prepared;
    var incident, step := db.incidents[id], UntilResolved(id, user, now)[1];
    UpdatedFrame(db, incident, step);
    UpdatedAssignments(db, incident, step);
    UpdatedTexts(db, incident, step);
    PreparedTexts(incident, Updated(db, incident, step));
  }

  lemma UpdatedTexts(db: Db, incident: Incident, step: Step)
    requires step.Update? && CanAssign(Staff(db), step.assignment)
    ensures Updated(db, incident, step).texts == AppliedTexts(incident.texts, step.texts)
  {
    hide AppliedTexts, Released, PriorityOf, SlaOf;
  }

  lemma PreparedTexts(incident: Incident, after: Incident)
    requires TextIn(incident, InitialAssessment) == "a"
    requires after.texts == AppliedTexts(incident.texts, Texts()) && after.assignee.Some?
    ensures Prepared(after)
  {
    forall field | Needs(Resolved, field)
      ensures Has(after, field)
    {
      if field != AssignedTo {
        AppliedLetter(incident, field);
      }
    }
  }

  lemma AppliedLetter(incident: Incident, field: Field)
    requires TextIn(incident, InitialAssessment) == "a" && Needs(Resolved, field) && field != AssignedTo
    ensures var texts := AppliedTexts(incident.texts, Texts());
      field in texts && |texts[field]| == 1 && Text.Trim(texts[field]) == texts[field]
  {
    TrimOfLetter('a');
    TrimOfLetter('c');
    TrimOfLetter('r');
    TrimOfLetter('w');
    TrimOfLetter('f');
    hide Text.Trim;
    assert Applied(incident.texts, Texts(), field).Some?;
    assert TEXT_FIELDS[Order(field) - 1] == field;
  }

  lemma TrimOfLetter(letter: char)
    requires !Text.IsSpace(letter)
    ensures Text.Trim([letter]) == [letter]
  {
  }

  lemma MovesOnTheWay(db: Db, start: Db, id: IncidentId, user: UserId, from: Status, to: Status, now: Time)
    requires OnTheWay(db, start, id, user, from) && Prepared(db.incidents[id])
    requires to in Successors(from) && to in {Acknowledged, InProgress, Resolved}
    ensures var step := ChangeStatus(id, to, user, false, now);
      Enabled(db, step) && OnTheWay(Perform(db, step), start, id, user, to) && Prepared(Perform(db, step).incidents[id])
  {
    hide Responds;
    var after := Moved(db.incidents[id], to, now);
    forall field
      ensures Has(after, field) == Has(db.incidents[id], field)
      ensures Needs(to, field) ==> Needs(Resolved, field)
    {
    }
    hide Has, Needs;
  }

  /** Such a drift is reachable for every responder of every staff with a second team: from an empty table, the incident
      is resolved, its assignee moves, and is named once more. */
  lemma DriftIsReachable(users: map<UserId, User>, teams: set<DepartmentId>, id: IncidentId, user: UserId,
                         department: DepartmentId, now: Time)
    requires user in Responders(users, teams) && department in teams && department != Responders(users, teams)[user]
    ensures var again := Update(id, None, None, Set(user), map[], true, now);
      var db := Run(Db(users, teams, map[]),
                    UntilResolved(id, user, now) + [SetUser(user, User(Some(department), true))]);
      && Drifts(db, id, again)
      && !Agrees(Perform(db, again).incidents[id])
  {
    var start, steps := Db(users, teams, map[]), UntilResolved(id, user, now);
    var moves := SetUser(user, User(Some(department), true));
    hide Responders, Enabled, Perform, OnTheWay, Prepared, Drifts, Agrees, Inv;
    CreatedOnTheWay(start, id, user, now);
    var db1 := Perform(start, steps[0]);
    PreparedOnTheWay(db1, start, id, user, now);
    var db2 := Perform(db1, steps[1]);
    MovesOnTheWay(db2, start, id, user, New, Acknowledged, now);
    var db3 := Perform(db2, steps[2]);
    MovesOnTheWay(db3, start, id, user, Acknowledged, InProgress, now);
    var db4 := Perform(db3, steps[3]);
    MovesOnTheWay(db4, start, id, user, InProgress, Resolved, now);
    var db5 := Perform(db4, steps[4]);
    ResolvedOnTheWay(db5, start, id, user);
    StartIsOk(start);
    RunKeepsInv(start, steps);
    SixSteps(start, steps + [moves]);
    FiveSteps(start, steps);
    ResolvedCanDrift(db5, id, user, department, 0, now);
  }

  lemma StartIsOk(start: Db)
    requires start.incidents == map[]
    ensures Inv(start)
  {
  }

  lemma FiveSteps(db: Db, steps: seq<Step>)
    requires |steps| == 5
    ensures Run(db, steps) ==
      Perform(Perform(Perform(Perform(Perform(db, steps[0]), steps[1]), steps[2]), steps[3]), steps[4])
  {
    hide Perform;
    var first := Perform(db, steps[0]);
    var second := Perform(first, steps[1]);
    var third := Perform(second, steps[2]);
    RunNext(db, steps, 0);
    RunNext(first, steps, 1);
    RunNext(second, steps, 2);
    RunNext(third, steps, 3);
    RunNext(Perform(third, steps[3]), steps, 4);
    assert steps[0..] == steps && steps[5..] == [];
  }

  lemma RunNext(db: Db, steps: seq<Step>, n: nat)
    requires n < |steps|
    ensures Run(db, steps[n..]) == Run(Perform(db, steps[n]), steps[n + 1..])
  {
    hide Perform;
    assert steps[n..][1..] == steps[n + 1..];
  }

  lemma SixSteps(db: Db, steps: seq<Step>)
    requires |steps| == 6
    ensures Run(db, steps) ==
      Perform(Perform(Perform(Perform(Perform(Perform(db, steps[0]), steps[1]), steps[2]), steps[3]),
                      steps[4]), steps[5])
  {
    hide Perform;
    FiveSteps(Perform(db, steps[0]), steps[1..]);
  }

  lemma ResolvedOnTheWay(db: Db, start: Db, id: IncidentId, user: UserId)
    requires OnTheWay(db, start, id, user, Resolved)
    ensures id in db.incidents && db.incidents[id].status == Resolved && db.incidents[id].assignee == Some(user)
    ensures db.users == start.users && db.teams == start.teams && Staff(db) == Staff(start)
    ensures forall other | other in db.incidents :: !Assigned(db.incidents[other], user)
    ensures OpenAt(db.incidents[id].assignments, 0) && user in Staff(start)
    ensures db.incidents[id].assignments[0].department == Staff(start)[user]
  {
    hide Responds;
  }
}
