/** The incident workflow: priorities, response times, status changes, assignments and the activity log
    (apps/api/src/modules/incidents/incidents.rules.ts and incidents.service.ts), with the database triggers on
    assignees (apps/api/prisma/migrations/202608250002_incident_assignee_integrity/migration.sql). */
module Incidents {
  import opened Common
  import opened Text

  type IncidentId = string
  type UserId = string
  type DepartmentId = string
  type Time = int

  // ---------------------------------------------------------------------------------------------
  // Rules
  // ---------------------------------------------------------------------------------------------

  datatype Impact = ImpactCritical | ImpactHigh | ImpactMedium | ImpactLow

  datatype Urgency = UrgencyHigh | UrgencyMedium | UrgencyLow

  datatype Priority = P1 | P2 | P3 | P4

  function PriorityOf(impact: Impact, urgency: Urgency): Priority {
    match impact
    case ImpactCritical => if urgency == UrgencyLow then P2 else P1
    case ImpactHigh => if urgency == UrgencyHigh then P1 else if urgency == UrgencyMedium then P2 else P3
    case ImpactMedium => if urgency == UrgencyHigh then P2 else if urgency == UrgencyMedium then P3 else P4
    case ImpactLow => if urgency == UrgencyHigh then P3 else P4
  }

  datatype Sla = Sla(responseMinutes: nat, resolutionMinutes: nat)

  function SlaOf(priority: Priority): Sla {
    match priority
    case P1 => Sla(15, 4 * 60)
    case P2 => Sla(30, 8 * 60)
    case P3 => Sla(4 * 60, 3 * 24 * 60)
    case P4 => Sla(8 * 60, 5 * 24 * 60)
  }

  function Severity(impact: Impact): nat {
    match impact case ImpactLow => 0 case ImpactMedium => 1 case ImpactHigh => 2 case ImpactCritical => 3
  }

  function Haste(urgency: Urgency): nat {
    match urgency case UrgencyLow => 0 case UrgencyMedium => 1 case UrgencyHigh => 2
  }

  /** A graver or more urgent incident never has a later response or resolution time. */
  lemma GraverIsNeverSlower(impact: Impact, urgency: Urgency, impact': Impact, urgency': Urgency)
    requires Severity(impact) <= Severity(impact') && Haste(urgency) <= Haste(urgency')
    ensures SlaOf(PriorityOf(impact', urgency')).responseMinutes <= SlaOf(PriorityOf(impact, urgency)).responseMinutes
    ensures SlaOf(PriorityOf(impact', urgency')).resolutionMinutes <=
      SlaOf(PriorityOf(impact, urgency)).resolutionMinutes
  {
    assert impact.ImpactCritical? || impact.ImpactHigh? || impact.ImpactMedium? || impact.ImpactLow?;
  }

  datatype Status = New | Acknowledged | InProgress | Monitoring | Resolved | Closed | Cancelled

  function Successors(from: Status): set<Status> {
    match from
    case New => {Acknowledged, Cancelled}
    case Acknowledged => {InProgress, Cancelled}
    case InProgress => {Monitoring, Resolved}
    case Monitoring => {InProgress, Resolved}
    case Resolved => {InProgress, Closed}
    case Closed => {}
    case Cancelled => {}
  }

  predicate Allowed(from: Status, to: Status) {
    from == to || to in Successors(from)
  }

  predicate Terminal(status: Status) {
    status in {Closed, Cancelled}
  }

  /** The statuses in which an incident protects its assignee. */
  predicate Active(status: Status) {
    status in {New, Acknowledged, InProgress, Monitoring}
  }

  datatype Field = AssignedTo | InitialAssessment | ContainmentAction | Resolution | RootCause | CorrectiveAction
                 | PreventiveAction | LessonsLearned

  const TEXT_FIELDS :=
    [InitialAssessment, ContainmentAction, Resolution, RootCause, CorrectiveAction, PreventiveAction, LessonsLearned]

  /** The first status of the regular path that asks for a field, as a number. */
  function NeededFrom(field: Field): nat {
    match field
    case AssignedTo => 1
    case InitialAssessment => 2
    case ContainmentAction => 3
    case Resolution => 4
    case RootCause => 4
    case CorrectiveAction => 4
    case PreventiveAction => 5
    case LessonsLearned => 5
  }

  /** Position on the regular path; a cancelled incident asks for nothing, like a new one. */
  function Stage(status: Status): nat {
    match status
    case New => 0
    case Acknowledged => 1
    case InProgress => 2
    case Monitoring => 3
    case Resolved => 4
    case Closed => 5
    case Cancelled => 0
  }

  predicate Needs(status: Status, field: Field) {
    NeededFrom(field) <= Stage(status)
  }

  // ---------------------------------------------------------------------------------------------
  // Tables
  // ---------------------------------------------------------------------------------------------

  datatype Assignment = Assignment(assignee: UserId, department: DepartmentId, accepted: Option<Time>,
                                   released: Option<Time>)

  datatype Activity =
    | StatusEntry(from: Option<Status>, to: Status)
    | Note(kind: string)

  datatype Incident = Incident(status: Status, impact: Impact, urgency: Urgency, priority: Priority, reportedAt: Time,
                               responseDue: Time, resolutionDue: Time, assignee: Option<UserId>,
                               department: Option<DepartmentId>, texts: map<Field, string>,
                               acknowledgedAt: Option<Time>, startedAt: Option<Time>, resolvedAt: Option<Time>,
                               closedAt: Option<Time>, assignments: seq<Assignment>, log: seq<Activity>)

  /** `operator` tells an active user with the role ADMIN or IT. */
  datatype User = User(department: Option<DepartmentId>, operator: bool)

  /** `teams` are the active departments that respond to incidents. */
  datatype Db = Db(users: map<UserId, User>, teams: set<DepartmentId>, incidents: map<IncidentId, Incident>)

  predicate Responds(users: map<UserId, User>, teams: set<DepartmentId>, user: UserId) {
    user in users && users[user].operator && users[user].department.Some? && users[user].department.value in teams
  }

  /** The users an incident can be assigned to, with their departments. */
  type Roster = map<UserId, DepartmentId>

  function Responders(users: map<UserId, User>, teams: set<DepartmentId>): (r: Roster)
    ensures forall user :: user in r <==> Responds(users, teams, user)
    ensures forall user | user in r :: user in users && users[user].department == Some(r[user])
  {
    map user | user in users && Responds(users, teams, user) :: users[user].department.value
  }

  function Staff(db: Db): Roster {
    Responders(db.users, db.teams)
  }

  datatype Error = NotFound | BadReference | BadAssignee | InFuture | ReadOnly | TransitionNotAllowed
                 | FieldsMissing(fields: seq<Field>) | NotResponsible | Protected

  type Result = Outcome<Error>

  function TextIn(incident: Incident, field: Field): string {
    if field in incident.texts then incident.texts[field] else ""
  }

  predicate Has(incident: Incident, field: Field) {
    if field == AssignedTo then incident.assignee.Some? else Trim(TextIn(incident, field)) != ""
  }

  /** The order in which fields are asked for. */
  function Order(field: Field): nat {
    match field
    case AssignedTo => 0
    case InitialAssessment => 1
    case ContainmentAction => 2
    case Resolution => 3
    case RootCause => 4
    case CorrectiveAction => 5
    case PreventiveAction => 6
    case LessonsLearned => 7
  }

  /** The list names the missing fields among the first n, each once and in order. */
  ghost predicate Lists(missing: seq<Field>, status: Status, incident: Incident, n: nat) {
    && (forall field :: field in missing <==> Order(field) < n && Needs(status, field) && !Has(incident, field))
    && (forall i, j | 0 <= i < j < |missing| :: Order(missing[i]) < Order(missing[j]))
  }

  method Ask(missing: seq<Field>, ghost status: Status, incident: Incident, needed: bool, field: Field)
    returns (longer: seq<Field>)
    requires Lists(missing, status, incident, Order(field)) && (needed <==> Needs(status, field))
    ensures Lists(longer, status, incident, Order(field) + 1)
  {
    OrderTellsApart(field);
    hide Needs, Has, Order;
    longer := if needed && !Has(incident, field) then missing + [field] else missing;
    forall i | 0 <= i < |missing|
      ensures Order(missing[i]) < Order(field)
    {
      assert missing[i] in missing;
    }
  }

  lemma OrderTellsApart(field: Field)
    ensures forall other | Order(other) == Order(field) :: other == field
  {
  }

  /** incidentMissingFields: the fields a status asks for that the incident does not have. */
  method MissingFields(status: Status, incident: Incident) returns (missing: seq<Field>)
    ensures forall field :: field in missing <==> Needs(status, field) && !Has(incident, field)
    ensures forall i, j | 0 <= i < j < |missing| :: Order(missing[i]) < Order(missing[j])
  {
    var started := status in {InProgress, Monitoring, Resolved, Closed};
    var contained := status in {Monitoring, Resolved, Closed};
    var resolved := status in {Resolved, Closed};
    AskedNothing(status, incident);
    hide Has, Lists;
    missing := Ask([], status, incident, status in {Acknowledged, InProgress, Monitoring, Resolved, Closed},
                   AssignedTo);
    missing := Ask(missing, status, incident, started, InitialAssessment);
    missing := Ask(missing, status, incident, contained, ContainmentAction);
    missing := Ask(missing, status, incident, resolved, Resolution);
    missing := Ask(missing, status, incident, resolved, RootCause);
    missing := Ask(missing, status, incident, resolved, CorrectiveAction);
    missing := Ask(missing, status, incident, status == Closed, PreventiveAction);
    missing := Ask(missing, status, incident, status == Closed, LessonsLearned);
    AskedAll(missing, status, incident);
  }

  lemma AskedNothing(status: Status, incident: Incident)
    ensures Lists([], status, incident, 0)
  {
    hide Has, Needs;
  }

  lemma AskedAll(missing: seq<Field>, status: Status, incident: Incident)
    requires Lists(missing, status, incident, 8)
    ensures forall field :: field in missing <==> Needs(status, field) && !Has(incident, field)
    ensures forall i, j | 0 <= i < j < |missing| :: Order(missing[i]) < Order(missing[j])
  {
    hide Has, Needs;
  }

  // ---------------------------------------------------------------------------------------------
  // The steps
  // ---------------------------------------------------------------------------------------------

  /** A field of a change request: absent, null or a value. */
  datatype Change<T> = Keep | Clear | Set(value: T)

  datatype Step =
    | Create(id: IncidentId, impact: Impact, urgency: Urgency, assignee: Option<UserId>, assessment: Change<string>,
             referencesOk: bool, detectedAt: Time, now: Time)
    | Update(id: IncidentId, newImpact: Option<Impact>, newUrgency: Option<Urgency>, assignment: Change<UserId>,
             texts: map<Field, Change<string>>, referencesOk: bool, now: Time)
    | ChangeStatus(id: IncidentId, to: Status, actor: UserId, admin: bool, now: Time)
    | AddActivity(id: IncidentId, kind: string)
    | Remove(id: IncidentId)
    /** Another service writes the department, role or status of a user, or of a department. */
    | SetUser(user: UserId, row: User)
    | SetTeam(department: DepartmentId, responds: bool)

  /** The cleaned text a change stores: trimmed, and nothing when it is blank. */
  function Applied(texts: map<Field, string>, changes: map<Field, Change<string>>, field: Field): Option<string> {
    var current := if field in texts then Some(texts[field]) else None;
    if field !in changes then current
    else match changes[field]
      case Keep => current
      case Clear => None
      case Set(value) => if Trim(value) == "" then None else Some(Trim(value))
  }

  function AppliedTexts(texts: map<Field, string>, changes: map<Field, Change<string>>): map<Field, string> {
    map field | field in TEXT_FIELDS && Applied(texts, changes, field).Some? :: Applied(texts, changes, field).value
  }

  predicate CanAssign(staff: Roster, assignment: Change<UserId>) {
    assignment.Set? ==> assignment.value in staff
  }

  predicate Assigned(incident: Incident, user: UserId) {
    Active(incident.status) && incident.assignee == Some(user)
  }

  /** A user with an active incident keeps the department and goes on responding. */
  predicate UserMayBecome(db: Db, user: UserId, row: User) {
    user in db.users && (exists id | id in db.incidents :: Assigned(db.incidents[id], user)) ==>
      row.department == db.users[user].department && Responds(map[user := row], db.teams, user)
  }

  /** A department with an active incident goes on responding. */
  predicate TeamMayBecome(db: Db, department: DepartmentId, responds: bool) {
    responds
    || !exists id | id in db.incidents ::
      Active(db.incidents[id].status) && db.incidents[id].department == Some(department)
  }

  predicate Gate(incident: Incident, to: Status, actor: UserId, admin: bool) {
    && Allowed(incident.status, to)
    && (forall field | Needs(to, field) :: Has(incident, field))
    && (incident.assignee.Some? && !admin ==> incident.assignee.value == actor)
  }

  predicate Enabled(db: Db, step: Step) {
    match step
    case Create(id, _, _, assignee, _, referencesOk, detectedAt, now) =>
      && id !in db.incidents && referencesOk && detectedAt <= now + 5 * 60 * 1000
      && (assignee.Some? ==> assignee.value in Staff(db))
    case Update(id, _, _, assignment, _, referencesOk, _) =>
      && id in db.incidents && referencesOk && CanAssign(Staff(db), assignment)
      && !Terminal(db.incidents[id].status)
    case ChangeStatus(id, to, actor, admin, _) => id in db.incidents && Gate(db.incidents[id], to, actor, admin)
    case AddActivity(id, _) => id in db.incidents
    case Remove(id) => id in db.incidents
    case SetUser(user, row) => UserMayBecome(db, user, row)
    case SetTeam(department, responds) => TeamMayBecome(db, department, responds)
  }

  function Released(assignments: seq<Assignment>, now: Time): (r: seq<Assignment>)
    ensures |r| == |assignments|
  {
    seq(|assignments|, i requires 0 <= i < |assignments| =>
      if assignments[i].released.None? then assignments[i].(released := Some(now)) else assignments[i])
  }

  function Accepted(assignments: seq<Assignment>, now: Time): (r: seq<Assignment>)
    ensures |r| == |assignments|
  {
    seq(|assignments|, i requires 0 <= i < |assignments| =>
      if assignments[i].released.None? && assignments[i].accepted.None? then assignments[i].(accepted := Some(now))
      else assignments[i])
  }

  const MINUTE := 60000

  function WithPriority(incident: Incident, impact: Impact, urgency: Urgency): Incident {
    var priority := PriorityOf(impact, urgency);
    incident.(impact := impact, urgency := urgency, priority := priority,
              responseDue := incident.reportedAt + SlaOf(priority).responseMinutes * MINUTE,
              resolutionDue := incident.reportedAt + SlaOf(priority).resolutionMinutes * MINUTE)
  }

  function Created(db: Db, step: Step): Incident
    requires step.Create? && Enabled(db, step)
  {
    var department := if step.assignee.Some? then Some(Staff(db)[step.assignee.value]) else None;
    WithPriority(Incident(New, step.impact, step.urgency, P4, step.now, 0, 0, step.assignee, department,
                          AppliedTexts(map[], map[InitialAssessment := step.assessment]), None, None, None, None,
                          if step.assignee.None? then []
                          else [Assignment(step.assignee.value, department.value, None, None)],
                          [StatusEntry(None, New)]),
                 step.impact, step.urgency)
  }

  /** The assignee a change asks for. */
  function Wanted(incident: Incident, assignment: Change<UserId>): Option<UserId> {
    match assignment case Keep => incident.assignee case Clear => None case Set(user) => Some(user)
  }

  /** The department a write of the assignee leaves: the trigger on incidents stamps the current one of the assignee,
      and none without an assignee. */
  function StampedDepartment(staff: Roster, incident: Incident, assignment: Change<UserId>): (r: Option<DepartmentId>)
    requires CanAssign(staff, assignment)
  {
    match assignment case Keep => incident.department case Clear => None case Set(user) => Some(staff[user])
  }

  function Updated(db: Db, incident: Incident, step: Step): Incident
    requires step.Update? && CanAssign(Staff(db), step.assignment)
  {
    var wanted := Wanted(incident, step.assignment);
    var data := WithPriority(
      incident.(assignee := wanted, texts := AppliedTexts(incident.texts, step.texts),
                department := StampedDepartment(Staff(db), incident, step.assignment)),
      if step.newImpact.Some? then step.newImpact.value else incident.impact,
      if step.newUrgency.Some? then step.newUrgency.value else incident.urgency);
    var changed := wanted != incident.assignee;
    var released := if changed then Released(incident.assignments, step.now) else incident.assignments;
    data.(assignments := if changed && wanted.Some?
                         then released + [Assignment(wanted.value, Staff(db)[wanted.value], None, None)]
                         else released,
          log := data.log + [Note(if changed then "ASSIGNED" else "UPDATED")])
  }

  function Moved(incident: Incident, to: Status, now: Time): Incident {
    incident.(status := to,
              acknowledgedAt := if to == Acknowledged then Some(now) else incident.acknowledgedAt,
              startedAt := if to == InProgress && incident.startedAt.None? then Some(now) else incident.startedAt,
              resolvedAt := if to == Resolved then Some(now) else incident.resolvedAt,
              closedAt := if Terminal(to) then Some(now) else incident.closedAt,
              assignments := if to == Acknowledged then Accepted(incident.assignments, now)
                             else if Terminal(to) then Released(incident.assignments, now) else incident.assignments,
              log := incident.log + [StatusEntry(Some(incident.status), to)])
  }

  function Apply(db: Db, step: Step): Db
    requires Enabled(db, step)
  {
    match step
    case Create(id, _, _, _, _, _, _, _) => db.(incidents := db.incidents[id := Created(db, step)])
    case Update(id, _, _, _, _, _, _) => db.(incidents := db.incidents[id := Updated(db, db.incidents[id], step)])
    case ChangeStatus(id, to, _, _, now) => db.(incidents := db.incidents[id := Moved(db.incidents[id], to, now)])
    case AddActivity(id, kind) =>
      db.(incidents := db.incidents[id := db.incidents[id].(log := db.incidents[id].log + [Note(Upper(Trim(kind)))])])
    case Remove(id) => db.(incidents := db.incidents - {id})
    case SetUser(user, row) => db.(users := db.users[user := row])
    case SetTeam(department, responds) =>
      db.(teams := if responds then db.teams + {department} else db.teams - {department})
  }

  /** A step commits or changes nothing. */
  function Perform(db: Db, step: Step): Db {
    if Enabled(db, step) then Apply(db, step) else db
  }

  // ---------------------------------------------------------------------------------------------
  // The service
  // ---------------------------------------------------------------------------------------------

  class IncidentsService {
    var users: map<UserId, User>
    var teams: set<DepartmentId>
    var incidents: map<IncidentId, Incident>

    ghost function View(): Db
      reads this
    {
      Db(users, teams, incidents)
    }

    constructor (users: map<UserId, User>, teams: set<DepartmentId>)
      ensures View() == Db(users, teams, map[])
    {
      this.users := users;
      this.teams := teams;
      this.incidents := map[];
    }

    method CreateIncident(step: Step) returns (r: Result)
      requires step.Create? && step.id !in incidents
      modifies this
      ensures r == Refused(BadReference) <==> !step.referencesOk
      ensures r == Refused(BadAssignee) <==>
        step.referencesOk && step.assignee.Some? && !Responds(old(users), old(teams), step.assignee.value)
      ensures r in {Done, Refused(BadReference), Refused(BadAssignee), Refused(InFuture)}
      ensures r.Done? <==> Enabled(old(View()), step)
      ensures View() == Perform(old(View()), step)
    {
      hide AppliedTexts, PriorityOf, SlaOf, Gate, Updated, Moved, Responds;
      if !step.referencesOk {
        return Refused(BadReference);
      }
      var responders := Responders(users, teams);
      if step.assignee.Some? && step.assignee.value !in responders {
        return Refused(BadAssignee);
      }
      if step.detectedAt > step.now + 5 * 60 * 1000 {
        return Refused(InFuture);
      }
      var priority := PriorityOf(step.impact, step.urgency);
      var sla := SlaOf(priority);
      var department := if step.assignee.Some? then Some(responders[step.assignee.value]) else None;
      var texts := AppliedTexts(map[], map[InitialAssessment := step.assessment]);
      var incident := Incident(New, step.impact, step.urgency, priority, step.now,
                               step.now + sla.responseMinutes * MINUTE, step.now + sla.resolutionMinutes * MINUTE,
                               step.assignee, department, texts, None, None, None, None, [], []);
      if step.assignee.Some? {
        incident := incident.(assignments := [Assignment(step.assignee.value, department.value, None, None)]);
      }
      incident := incident.(log := [StatusEntry(None, New)]);
      incidents := incidents[step.id := incident];
      r := Done;
    }

    method UpdateIncident(step: Step) returns (r: Result)
      requires step.Update?
      modifies this
      ensures r == Refused(BadReference) <==> !step.referencesOk
      ensures r == Refused(BadAssignee) <==>
        step.referencesOk && step.assignment.Set? && !Responds(old(users), old(teams), step.assignment.value)
      ensures r == Refused(ReadOnly) ==>
        step.id in old(incidents) && old(incidents)[step.id].status in {Closed, Cancelled}
      ensures r == Refused(NotFound) ==> step.id !in old(incidents)
      ensures r in {Done, Refused(BadReference), Refused(BadAssignee), Refused(NotFound), Refused(ReadOnly)}
      ensures r.Done? <==> Enabled(old(View()), step)
      ensures View() == Perform(old(View()), step)
    {
      hide AppliedTexts, Released, Responds;
      if !step.referencesOk {
        return Refused(BadReference);
      }
      var responders := Responders(users, teams);
      if step.assignment.Set? && step.assignment.value !in responders {
        return Refused(BadAssignee);
      }
      if step.id !in incidents {
        return Refused(NotFound);
      }
      var incident := incidents[step.id];
      if Terminal(incident.status) {
        return Refused(ReadOnly);
      }
      var changed := !step.assignment.Keep? && Wanted(incident, step.assignment) != incident.assignee;
      var impact := if step.newImpact.Some? then step.newImpact.value else incident.impact;
      var urgency := if step.newUrgency.Some? then step.newUrgency.value else incident.urgency;
      hide PriorityOf, SlaOf, Terminal, WithPriority;
      var department := StampedDepartment(responders, incident, step.assignment);
      var data := incident.(assignee := Wanted(incident, step.assignment),
                            texts := AppliedTexts(incident.texts, step.texts), department := department);
      data := WithPriority(data, impact, urgency);
      var assignments := if changed then Released(incident.assignments, step.now) else incident.assignments;
      if changed && step.assignment.Set? {
        assignments := assignments + [Assignment(step.assignment.value, responders[step.assignment.value], None, None)];
      }
      data := data.(assignments := assignments, log := data.log + [Note(if changed then "ASSIGNED" else "UPDATED")]);
      incidents := incidents[step.id := data];
      r := Done;
    }

    method ChangeIncidentStatus(id: IncidentId, to: Status, actor: UserId, admin: bool, now: Time) returns (r: Result)
      modifies this
      ensures r == Refused(NotFound) <==> id !in old(incidents)
      ensures r == Refused(TransitionNotAllowed) <==> id in old(incidents) && !Allowed(old(incidents)[id].status, to)
      ensures r == Refused(NotResponsible) ==>
        !admin && old(incidents)[id].assignee.Some? && old(incidents)[id].assignee.value != actor
      ensures r.Done? || r.error.FieldsMissing?
        || r.error in {NotFound, TransitionNotAllowed, NotResponsible}
      ensures r.Done? <==> Enabled(old(View()), ChangeStatus(id, to, actor, admin, now))
      ensures View() == Perform(old(View()), ChangeStatus(id, to, actor, admin, now))
      ensures r.Refused? && r.error.FieldsMissing? ==>
        id in old(incidents) && forall field ::
          field in r.error.fields <==> Needs(to, field) && !Has(old(incidents)[id], field)
    {
      hide Needs, Has, Accepted, Released;
      if id !in incidents {
        return Refused(NotFound);
      }
      var incident := incidents[id];
      if !Allowed(incident.status, to) {
        return Refused(TransitionNotAllowed);
      }
      var missing := MissingFields(to, incident);
      if missing != [] {
        assert missing[0] in missing;
        return Refused(FieldsMissing(missing));
      }
      if incident.assignee.Some? && !admin && incident.assignee.value != actor {
        return Refused(NotResponsible);
      }
      var moved := incident.(status := to);
      match to {
        case Acknowledged =>
          moved := moved.(acknowledgedAt := Some(now), assignments := Accepted(moved.assignments, now));
        case InProgress => moved := moved.(startedAt := if moved.startedAt.Some? then moved.startedAt else Some(now));
        case Resolved => moved := moved.(resolvedAt := Some(now));
        case Closed => moved := moved.(closedAt := Some(now));
        case Cancelled => moved := moved.(closedAt := Some(now));
        case _ =>
      }
      if Terminal(to) {
        moved := moved.(assignments := Released(moved.assignments, now));
      }
      moved := moved.(log := moved.log + [StatusEntry(Some(incident.status), to)]);
      incidents := incidents[id := moved];
      r := Done;
    }

    method AddIncidentActivity(id: IncidentId, kind: string) returns (r: Result)
      modifies this
      ensures r == if id in old(incidents) then Done else Refused(NotFound)
      ensures r.Done? <==> Enabled(old(View()), AddActivity(id, kind))
      ensures View() == Perform(old(View()), AddActivity(id, kind))
    {
      if id !in incidents {
        return Refused(NotFound);
      }
      incidents := incidents[id := incidents[id].(log := incidents[id].log + [Note(Upper(Trim(kind)))])];
      r := Done;
    }

    /** The trigger on users, before another service writes a user. */
    method UpdateUser(user: UserId, row: User) returns (r: Result)
      modifies this
      ensures r == Done || r == Refused(Protected)
      ensures r.Done? <==> Enabled(old(View()), SetUser(user, row))
      ensures View() == Perform(old(View()), SetUser(user, row))
    {
      if user in users && (exists id | id in incidents :: Assigned(incidents[id], user)) {
        if row.department != users[user].department || !row.operator || row.department.None?
           || row.department.value !in teams {
          return Refused(Protected);
        }
      }
      users := users[user := row];
      r := Done;
    }

    /** The trigger on departments. */
    method UpdateDepartment(department: DepartmentId, responds: bool) returns (r: Result)
      modifies this
      ensures r == Done || r == Refused(Protected)
      ensures r.Done? <==> Enabled(old(View()), SetTeam(department, responds))
      ensures View() == Perform(old(View()), SetTeam(department, responds))
    {
      if !responds && (exists id | id in incidents ::
                         Active(incidents[id].status) && incidents[id].department == Some(department)) {
        return Refused(Protected);
      }
      teams := if responds then teams + {department} else teams - {department};
      r := Done;
    }

    method RemoveIncident(id: IncidentId) returns (r: Result)
      modifies this
      ensures r == if id in old(incidents) then Done else Refused(NotFound)
      ensures r.Done? <==> Enabled(old(View()), Remove(id))
      ensures View() == Perform(old(View()), Remove(id))
    {
      if id !in incidents {
        return Refused(NotFound);
      }
      incidents := incidents - {id};
      r := Done;
    }
  }
}
