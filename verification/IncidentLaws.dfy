/** The incident rules told by fields: what each priority means, which way a status is reached, what each write leaves
    (apps/api/src/modules/incidents/incidents.rules.ts and incidents.service.ts). */
module IncidentLaws {
  import opened Common
  import opened Text
  import opened Incidents
  import opened IncidentRuns

  // ---------------------------------------------------------------------------------------------
  // Priorities and due times
  // ---------------------------------------------------------------------------------------------

  /** The priority depends on the sum of impact and urgency alone, and falls by one class with each point of it. */
  lemma PriorityMeans(impact: Impact, urgency: Urgency)
    ensures PriorityOf(impact, urgency) == P1 <==> Severity(impact) + Haste(urgency) >= 4
    ensures PriorityOf(impact, urgency) == P2 <==> Severity(impact) + Haste(urgency) == 3
    ensures PriorityOf(impact, urgency) == P3 <==> Severity(impact) + Haste(urgency) == 2
    ensures PriorityOf(impact, urgency) == P4 <==> Severity(impact) + Haste(urgency) <= 1
    ensures Severity(ImpactCritical) == 3 && Severity(ImpactHigh) == 2 && Severity(ImpactMedium) == 1
    ensures Severity(ImpactLow) == 0 && Haste(UrgencyHigh) == 2 && Haste(UrgencyMedium) == 1 && Haste(UrgencyLow) == 0
  {
  }

  /** In every reachable state an incident is due a quarter of an hour, half an hour, four hours or eight hours after
      its report, and solved after four hours, eight hours, three days or five days, by the sum of its present impact
      and urgency. */
  lemma DueTimesOf(users: map<UserId, User>, teams: set<DepartmentId>, steps: seq<Step>, id: IncidentId)
    requires id in Run(Db(users, teams, map[]), steps).incidents
    ensures var incident := Run(Db(users, teams, map[]), steps).incidents[id];
      var response, resolution, sum := incident.responseDue - incident.reportedAt,
        incident.resolutionDue - incident.reportedAt, Severity(incident.impact) + Haste(incident.urgency);
      && (sum >= 4 ==> incident.priority == P1 && response == 15 * 60_000 && resolution == 4 * 3_600_000)
      && (sum == 3 ==> incident.priority == P2 && response == 30 * 60_000 && resolution == 8 * 3_600_000)
      && (sum == 2 ==> incident.priority == P3 && response == 4 * 3_600_000 && resolution == 3 * 86_400_000)
      && (sum <= 1 ==> incident.priority == P4 && response == 8 * 3_600_000 && resolution == 5 * 86_400_000)
  {
    ReachableStates(users, teams, steps, id);
    var incident := Run(Db(users, teams, map[]), steps).incidents[id];
    hide Run, LedgerOk, LogOk, TimesOk, ContentsOk, Severity, Haste, PriorityOf;
    PriorityMeans(incident.impact, incident.urgency);
  }

  // ---------------------------------------------------------------------------------------------
  // Statuses
  // ---------------------------------------------------------------------------------------------

  /** The statuses a status can follow, itself aside. */
  function Predecessors(to: Status): set<Status> {
    match to
    case New => {}
    case Acknowledged => {New}
    case InProgress => {Acknowledged, Monitoring, Resolved}
    case Monitoring => {InProgress}
    case Resolved => {InProgress, Monitoring}
    case Closed => {Resolved}
    case Cancelled => {New, Acknowledged}
  }

  lemma AllowedMeans(from: Status, to: Status)
    ensures Allowed(from, to) <==> from == to || from in Predecessors(to)
  {
  }

  /** What a status asks for. */
  lemma NeedsMean(status: Status)
    ensures Needs(status, AssignedTo) <==> status != New && status != Cancelled
    ensures Needs(status, InitialAssessment) <==> status in {InProgress, Monitoring, Resolved, Closed}
    ensures Needs(status, ContainmentAction) <==> status in {Monitoring, Resolved, Closed}
    ensures forall field | field in {Resolution, RootCause, CorrectiveAction} ::
      Needs(status, field) <==> status in {Resolved, Closed}
    ensures forall field | field in {PreventiveAction, LessonsLearned} :: Needs(status, field) <==> status == Closed
  {
  }

  /** The statuses a log names after the first entry, each with the one before it. */
  predicate Edge(log: seq<Activity>, i: nat, from: Status, to: Status) {
    i < |log| && log[i] == StatusEntry(Some(from), to)
  }

  lemma {:induction false} LegalEdge(log: seq<Activity>, i: nat, from: Status, to: Status)
    requires Legal(log) && Edge(log, i, from, to)
    ensures from == to || from in Predecessors(to)
    decreases |log|
  {
    AllowedMeans(from, to);
    hide Allowed, Predecessors;
    if i < |log| - 1 {
      LegalEdge(log[..|log| - 1], i, from, to);
    }
  }

  /** In every run, a status change in a log follows the workflow; a closed incident has an assignee and every text, and
      no open assignment; and an incident is closed or cancelled exactly when it has a time of closing. */
  lemma HistoryOf(users: map<UserId, User>, teams: set<DepartmentId>, steps: seq<Step>, id: IncidentId)
    requires id in Run(Db(users, teams, map[]), steps).incidents
    ensures var incident := Run(Db(users, teams, map[]), steps).incidents[id];
      && (forall i: nat, from, to | Edge(incident.log, i, from, to) :: from == to || from in Predecessors(to))
      && (incident.status == Closed ==> incident.assignee.Some?)
      && (incident.status == Closed ==>
            forall field | field != AssignedTo :: field in incident.texts && Trim(incident.texts[field]) != "")
      && (incident.status == Closed || incident.status == Cancelled <==> incident.closedAt.Some?)
      && (incident.status == Closed || incident.status == Cancelled || incident.assignee.None? ==>
            forall i | 0 <= i < |incident.assignments| :: incident.assignments[i].released.Some?)
  {
    ReachableStates(users, teams, steps, id);
    var incident := Run(Db(users, teams, map[]), steps).incidents[id];
    hide Run, Legal, Predecessors, DueOk;
    forall i: nat, from, to | Edge(incident.log, i, from, to) ensures from == to || from in Predecessors(to) {
      LegalEdge(incident.log, i, from, to);
    }
    if incident.status == Closed {
      assert Has(incident, AssignedTo);
      assert Trim("") == "";
      forall field | field != AssignedTo ensures field in incident.texts && Trim(incident.texts[field]) != "" {
        assert Has(incident, field);
      }
    }
    forall i | 0 <= i < |incident.assignments| && NoneOpen(incident.assignments)
      ensures incident.assignments[i].released.Some?
    {
      assert !OpenAt(incident.assignments, i);
    }
  }

  // ---------------------------------------------------------------------------------------------
  // What each step writes, field by field
  // ---------------------------------------------------------------------------------------------

  /** An active user with a department that responds. */
  predicate Answers(db: Db, user: UserId, department: DepartmentId) {
    user in db.users && db.users[user] == User(Some(department), true) && department in db.teams
  }

  lemma StaffAnswers(db: Db, user: UserId)
    ensures user in Staff(db) <==> exists department :: Answers(db, user, department)
    ensures user in Staff(db) ==> Answers(db, user, Staff(db)[user])
  {
    if user in Staff(db) {
      assert Answers(db, user, Staff(db)[user]);
    }
  }

  /** The text a change leaves: its own without the blanks around it, and none when nothing is left. */
  lemma TextMeans(texts: map<Field, string>, changes: map<Field, Change<string>>, field: Field)
    requires field != AssignedTo
    ensures field in changes && changes[field].Set? && Trim(changes[field].value) != "" ==>
      field in AppliedTexts(texts, changes) && AppliedTexts(texts, changes)[field] == Trim(changes[field].value)
    ensures field in changes && changes[field].Set? && Trim(changes[field].value) == "" ==>
      field !in AppliedTexts(texts, changes)
    ensures field in changes && changes[field].Clear? ==> field !in AppliedTexts(texts, changes)
    ensures field !in changes || changes[field].Keep? ==>
      && (field in AppliedTexts(texts, changes) <==> field in texts)
      && (field in texts ==> AppliedTexts(texts, changes)[field] == texts[field])
    ensures AssignedTo !in AppliedTexts(texts, changes)
  {
  }

  lemma CreatedMeans(db: Db, step: Step)
    requires step.Create?
    ensures Enabled(db, step) <==>
      && step.id !in db.incidents && step.referencesOk && step.detectedAt - step.now <= 300_000
      && (step.assignee.Some? ==> exists department :: Answers(db, step.assignee.value, department))
    ensures Enabled(db, step) ==>
      var after := Perform(db, step);
      && after.users == db.users && after.teams == db.teams
      && after.incidents.Keys == db.incidents.Keys + {step.id}
      && forall other :: other in db.incidents ==> after.incidents[other] == db.incidents[other]
    ensures Enabled(db, step) ==>
      var incident := Perform(db, step).incidents[step.id];
      && incident.status == New && incident.impact == step.impact && incident.urgency == step.urgency
      && incident.reportedAt == step.now && incident.assignee == step.assignee
      && incident.log == [StatusEntry(None, New)]
      && incident.acknowledgedAt == incident.startedAt == incident.resolvedAt == incident.closedAt == None
      && (step.assignee == None ==> incident.department == None && incident.assignments == [])
      && (step.assignee.Some? ==>
            && incident.department.Some? && Answers(db, step.assignee.value, incident.department.value)
            && incident.assignments == [Assignment(step.assignee.value, incident.department.value, None, None)])
      && incident.texts == AppliedTexts(map[], map[InitialAssessment := step.assessment])
  {
    hide PriorityOf, SlaOf, AppliedTexts;
    if step.assignee.Some? {
      StaffAnswers(db, step.assignee.value);
    }
  }

  /** The change names another assignee, or none where there was one. */
  predicate Moves(assignee: Option<UserId>, assignment: Change<UserId>) {
    if assignment.Set? then assignee != Some(assignment.value) else assignment.Clear? && assignee != None
  }

  /** A changed assignee releases the open assignment at that moment and opens one with the assignee's department. */
  lemma UpdatedMeans(db: Db, step: Step)
    requires step.Update?
    ensures Enabled(db, step) <==>
      && step.id in db.incidents && step.referencesOk
      && db.incidents[step.id].status != Closed && db.incidents[step.id].status != Cancelled
      && (step.assignment.Set? ==> exists department :: Answers(db, step.assignment.value, department))
    ensures Enabled(db, step) ==>
      var after := Perform(db, step); after == db.(incidents := db.incidents[step.id := after.incidents[step.id]])
    ensures Enabled(db, step) ==>
      var before, incident := db.incidents[step.id], Perform(db, step).incidents[step.id];
      && incident.status == before.status && incident.reportedAt == before.reportedAt
      && incident.impact == (if step.newImpact.Some? then step.newImpact.value else before.impact)
      && incident.urgency == (if step.newUrgency.Some? then step.newUrgency.value else before.urgency)
      && incident.acknowledgedAt == before.acknowledgedAt && incident.startedAt == before.startedAt
      && incident.resolvedAt == before.resolvedAt && incident.closedAt == before.closedAt
      && incident.texts == AppliedTexts(before.texts, step.texts)
    ensures Enabled(db, step) && !Moves(db.incidents[step.id].assignee, step.assignment) ==>
      var before, incident := db.incidents[step.id], Perform(db, step).incidents[step.id];
      && incident.assignee == before.assignee && incident.assignments == before.assignments
      && incident.log == before.log + [Note("UPDATED")]
      && (step.assignment.Keep? ==> incident.department == before.department)
      && (step.assignment.Set? ==>
            incident.department.Some? && Answers(db, step.assignment.value, incident.department.value))
    ensures Enabled(db, step) && step.assignment.Set? && Moves(db.incidents[step.id].assignee, step.assignment) ==>
      var before, incident := db.incidents[step.id], Perform(db, step).incidents[step.id];
      && incident.assignee == Some(step.assignment.value)
      && incident.department.Some? && Answers(db, step.assignment.value, incident.department.value)
      && incident.assignments[..|before.assignments|] == Released(before.assignments, step.now)
      && incident.assignments[|before.assignments|..] ==
         [Assignment(step.assignment.value, incident.department.value, None, None)]
      && incident.log == before.log + [Note("ASSIGNED")]
    ensures Enabled(db, step) && step.assignment.Clear? && db.incidents[step.id].assignee.Some? ==>
      var before, incident := db.incidents[step.id], Perform(db, step).incidents[step.id];
      && incident.assignee == None && incident.department == None
      && incident.assignments == Released(before.assignments, step.now)
      && incident.log == before.log + [Note("ASSIGNED")]
  {
    hide PriorityOf, SlaOf, AppliedTexts, Released;
    if step.assignment.Set? {
      StaffAnswers(db, step.assignment.value);
    }
  }

  /** What releasing and accepting do to an assignment. */
  lemma ReleasedMeans(assignments: seq<Assignment>, now: Time, i: nat)
    requires i < |assignments|
    ensures var a := assignments[i];
      && Released(assignments, now)[i] == Assignment(a.assignee, a.department, a.accepted,
                                                     if a.released == None then Some(now) else a.released)
      && Accepted(assignments, now)[i] == Assignment(a.assignee, a.department,
           if a.released == None && a.accepted == None then Some(now) else a.accepted, a.released)
  {
  }

  /** Each milestone is stamped on the way to its status, the start only for the first time. */
  lemma MovedMeans(db: Db, id: IncidentId, to: Status, actor: UserId, admin: bool, now: Time)
    requires id in db.incidents
    ensures var before := db.incidents[id];
      Enabled(db, ChangeStatus(id, to, actor, admin, now)) <==>
        && (before.status == to || before.status in Predecessors(to))
        && (forall field | Needs(to, field) :: Has(before, field))
        && (admin || before.assignee == None || before.assignee == Some(actor))
    ensures Enabled(db, ChangeStatus(id, to, actor, admin, now)) ==>
      var before, after := db.incidents[id], Perform(db, ChangeStatus(id, to, actor, admin, now));
      && after.users == db.users && after.teams == db.teams
      && after.incidents.Keys == db.incidents.Keys
      && (forall other :: other in db.incidents && other != id ==> after.incidents[other] == db.incidents[other])
      && var incident := after.incidents[id];
      && incident.status == to
      && incident.log == before.log + [StatusEntry(Some(before.status), to)]
      && incident.acknowledgedAt == (if to.Acknowledged? then Some(now) else before.acknowledgedAt)
      && incident.startedAt == (if to.InProgress? && before.startedAt == None then Some(now) else before.startedAt)
      && incident.resolvedAt == (if to.Resolved? then Some(now) else before.resolvedAt)
      && incident.closedAt == (if to.Closed? || to.Cancelled? then Some(now) else before.closedAt)
      && (to.Acknowledged? ==> incident.assignments == Accepted(before.assignments, now))
      && (to.Closed? || to.Cancelled? ==> incident.assignments == Released(before.assignments, now))
      && (!to.Acknowledged? && !to.Closed? && !to.Cancelled? ==> incident.assignments == before.assignments)
      && incident.impact == before.impact && incident.urgency == before.urgency
      && incident.priority == before.priority && incident.reportedAt == before.reportedAt
      && incident.responseDue == before.responseDue && incident.resolutionDue == before.resolutionDue
      && incident.assignee == before.assignee && incident.department == before.department
      && incident.texts == before.texts
  {
    AllowedMeans(db.incidents[id].status, to);
    hide Allowed, Predecessors, Needs, Has, Accepted, Released;
  }

  /** A note, a removal, and what other services may write about users and departments. */
  lemma OthersMean(db: Db, id: IncidentId, kind: string, user: UserId, row: User, department: DepartmentId,
                   responds: bool)
    ensures Enabled(db, AddActivity(id, kind)) <==> id in db.incidents
    ensures Enabled(db, Remove(id)) <==> id in db.incidents
    ensures id in db.incidents ==>
      && Perform(db, AddActivity(id, kind)) == db.(incidents := db.incidents[id :=
           db.incidents[id].(log := db.incidents[id].log + [Note(Upper(Trim(kind)))])])
      && Perform(db, Remove(id)) == db.(incidents := db.incidents - {id})
    ensures Enabled(db, SetUser(user, row)) <==>
      || user !in db.users
      || (forall other | other in db.incidents && db.incidents[other].assignee == Some(user) ::
            db.incidents[other].status in {Resolved, Closed, Cancelled})
      || (row.department == db.users[user].department && row.operator
          && row.department.Some? && row.department.value in db.teams)
    ensures Enabled(db, SetUser(user, row)) ==> Perform(db, SetUser(user, row)) == db.(users := db.users[user := row])
    ensures Enabled(db, SetTeam(department, responds)) <==>
      || responds
      || (forall other | other in db.incidents && db.incidents[other].department == Some(department) ::
            db.incidents[other].status in {Resolved, Closed, Cancelled})
    ensures Enabled(db, SetTeam(department, true))
      && Perform(db, SetTeam(department, true)) == db.(teams := db.teams + {department})
    ensures Enabled(db, SetTeam(department, false)) ==>
      Perform(db, SetTeam(department, false)) == db.(teams := db.teams - {department})
  {
    forall other | other in db.incidents
      ensures Active(db.incidents[other].status) <==> db.incidents[other].status !in {Resolved, Closed, Cancelled}
    {
      ActiveMeans(db.incidents[other].status);
    }
    hide Active;
    assert user in db.users ==> forall other | other in db.incidents && db.incidents[other].assignee == Some(user) ::
      Assigned(db.incidents[other], user) <==> Active(db.incidents[other].status);
  }

  lemma ActiveMeans(status: Status)
    ensures Active(status) <==> status !in {Resolved, Closed, Cancelled}
  {
    assert status in {New, Acknowledged, InProgress, Monitoring, Resolved, Closed, Cancelled};
  }
}
