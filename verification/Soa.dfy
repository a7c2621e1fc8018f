/** Versions of the Statement of Applicability (apps/api/src/modules/compliance/compliance.service.ts). */
module Soa {
  import opened AnnexA
  import opened Common
  import Text

  type VersionId = string

  datatype Status = Draft | Issued | Superseded

  datatype Entry = Entry(applicable: bool, justification: string, implementation: string, note: Option<string>)

  datatype Version = Version(name: string, status: Status, entries: map<string, Entry>)

  type Db = map<VersionId, Version>

  datatype Error = NotFound | NameTaken | SourceNotFound | UnknownControl | NotDraft
                 | ControlsMissing(codes: seq<string>)

  type Result = Outcome<Error>

  datatype Step =
    | Create(id: VersionId, name: string, cloneFrom: Option<VersionId>)
    | UpsertEntry(id: VersionId, code: string, entry: Entry)
    | Issue(id: VersionId)

  predicate NameTakenIn(db: Db, name: string) {
    exists id | id in db :: db[id].name == name
  }

  predicate Covers(entries: map<string, Entry>) {
    forall code | code in ANNEX_CONTROLS :: code in entries
  }

  predicate Enabled(db: Db, step: Step) {
    match step
    case Create(id, name, cloneFrom) =>
      id !in db && !NameTakenIn(db, Text.Trim(name)) && (cloneFrom.Some? ==> cloneFrom.value in db)
    case UpsertEntry(id, code, entry) => IsAnnexControlCode(code) && id in db && db[id].status == Draft
    case Issue(id) => id in db && db[id].status == Draft && Covers(db[id].entries)
  }

  /** Every issued version becomes superseded. */
  function Retired(db: Db): (r: Db)
    ensures r.Keys == db.Keys
  {
    map id | id in db :: if db[id].status == Issued then db[id].(status := Superseded) else db[id]
  }

  /** The write of a step, by itself. */
  predicate Writable(db: Db, step: Step) {
    match step
    case Create(id, name, cloneFrom) =>
      id !in db && !NameTakenIn(db, Text.Trim(name)) && (cloneFrom.Some? ==> cloneFrom.value in db)
    case UpsertEntry(id, _, _) => id in db
    case Issue(id) => id in db
  }

  function Apply(db: Db, step: Step): Db
    requires Writable(db, step)
  {
    match step
    case Create(id, name, cloneFrom) =>
      db[id := Version(Text.Trim(name), Draft, if cloneFrom.Some? then db[cloneFrom.value].entries else map[])]
    case UpsertEntry(id, code, entry) => db[id := db[id].(entries := db[id].entries[code := entry])]
    case Issue(id) => Retired(db)[id := db[id].(status := Issued)]
  }

  /** A step commits or changes nothing. */
  function Perform(db: Db, step: Step): Db {
    if Enabled(db, step) then Apply(db, step) else db
  }

  function Run(db: Db, steps: seq<Step>): Db
    decreases |steps|
  {
    if steps == [] then db else Run(Perform(db, steps[0]), steps[1..])
  }

  // ---------------------------------------------------------------------------------------------
  // The service
  // ---------------------------------------------------------------------------------------------

  class ComplianceService {
    var versions: map<VersionId, Version>

    constructor ()
      ensures versions == map[]
    {
      versions := map[];
    }

    /** `id` is the key the database generates. */
    method CreateSoaVersion(id: VersionId, name: string, cloneFrom: Option<VersionId>) returns (r: Result)
      requires id !in versions
      modifies this
      ensures r == Refused(NameTaken) <==> exists other ::
        other in old(versions) && old(versions)[other].name == Text.Trim(name)
      ensures r in {Done, Refused(NameTaken), Refused(SourceNotFound)}
      ensures r.Done? <==> Enabled(old(versions), Create(id, name, cloneFrom))
      ensures versions == Perform(old(versions), Create(id, name, cloneFrom))
    {
      var trimmed := Text.Trim(name);
      if NameTakenIn(versions, trimmed) {
        return Refused(NameTaken);
      }
      var entries: map<string, Entry> := map[];
      if cloneFrom.Some? {
        if cloneFrom.value !in versions {
          return Refused(SourceNotFound);
        }
        entries := versions[cloneFrom.value].entries;
      }
      versions := versions[id := Version(trimmed, Draft, entries)];
      r := Done;
    }

    method UpsertSoaEntry(id: VersionId, code: string, entry: Entry) returns (r: Result)
      modifies this
      ensures r == Refused(UnknownControl) <==> !IsAnnexControlCode(code)
      ensures r == Refused(NotFound) <==> IsAnnexControlCode(code) && id !in old(versions)
      ensures r in {Done, Refused(UnknownControl), Refused(NotFound), Refused(NotDraft)}
      ensures r.Done? <==> Enabled(old(versions), UpsertEntry(id, code, entry))
      ensures versions == Perform(old(versions), UpsertEntry(id, code, entry))
    {
      if !IsAnnexControlCode(code) {
        return Refused(UnknownControl);
      }
      if id !in versions {
        return Refused(NotFound);
      }
      if versions[id].status != Draft {
        return Refused(NotDraft);
      }
      versions := versions[id := versions[id].(entries := versions[id].entries[code := entry])];
      r := Done;
    }

    method IssueSoaVersion(id: VersionId) returns (r: Result)
      modifies this
      ensures r == Refused(NotFound) <==> id !in old(versions)
      ensures r == Refused(NotDraft) <==> id in old(versions) && old(versions)[id].status != Draft
      ensures r.Done? || r.error.ControlsMissing? || r.error == NotFound || r.error == NotDraft
      ensures r.Done? <==> Enabled(old(versions), Issue(id))
      ensures versions == Perform(old(versions), Issue(id))
      ensures r.Refused? && r.error.ControlsMissing? ==>
        id in old(versions) && r.error.codes != [] && forall code :: code in r.error.codes <==>
          IsAnnexControlCode(code) && code !in old(versions)[id].entries
    {
      if id !in versions {
        return Refused(NotFound);
      }
      var version := versions[id];
      if version.status != Draft {
        return Refused(NotDraft);
      }
      hide *;
      var controls := ANNEX_CONTROLS;
      var missing: seq<string> := [];
      for i := 0 to |controls|
        modifies {}
        invariant forall code :: code in missing <==> code in controls[..i] && code !in version.entries
      {
        if controls[i] !in version.entries {
          missing := missing + [controls[i]];
        }
      }
      if missing != [] {
        assert missing[0] in missing;
        return Refused(ControlsMissing(missing));
      }
      versions := Retired(versions)[id := version.(status := Issued)];
      r := Done;
    }
  }

  // ---------------------------------------------------------------------------------------------
  // What holds in every reachable state
  // ---------------------------------------------------------------------------------------------

  ghost predicate Inv(db: Db) {
    && (forall a, b | a in db && b in db && db[a].status == Issued && db[b].status == Issued :: a == b)
    && (forall a, b | a in db && b in db && db[a].name == db[b].name :: a == b)
    && (forall id | id in db :: forall code | code in db[id].entries :: IsAnnexControlCode(code))
    && (forall id | id in db && db[id].status != Draft :: Covers(db[id].entries))
  }

  lemma PerformKeepsInv(db: Db, step: Step)
    requires Inv(db)
    ensures Inv(Perform(db, step))
  {
    hide Covers, IsAnnexControlCode;
    if Enabled(db, step) {
      if step.Issue? {
        IssueKeepsInv(db, step.id);
      } else if step.UpsertEntry? {
        assert Apply(db, step)[step.id].status == Draft;
      }
    }
  }

  lemma IssueKeepsInv(db: Db, id: VersionId)
    requires Inv(db) && id in db && Covers(db[id].entries)
    ensures Inv(Apply(db, Issue(id)))
  {
    hide IsAnnexControlCode, Covers, Apply;
    IssueFrame(db, id);
  }

  lemma IssueFrame(db: Db, id: VersionId)
    requires id in db
    ensures var after := Apply(db, Issue(id));
      && after.Keys == db.Keys
      && (forall other | other in db ::
        after[other].name == db[other].name && after[other].entries == db[other].entries)
      && (forall other | other in db && other != id ::
        after[other].status != Issued && (after[other].status == Draft <==> db[other].status == Draft))
      && after[id].status == Issued
  {
  }

  lemma {:induction false} RunKeepsInv(db: Db, steps: seq<Step>)
    requires Inv(db)
    ensures Inv(Run(db, steps))
    decreases |steps|
  {
    hide Inv, Perform;
    if steps != [] {
      PerformKeepsInv(db, steps[0]);
      RunKeepsInv(Perform(db, steps[0]), steps[1..]);
    }
  }

  /** At most one version is in force, every version that is or was has an entry for exactly the 93 controls, and no two
      have the same name. */
  lemma ReachableStates(steps: seq<Step>)
    ensures var db := Run(map[], steps);
      && (forall a, b | a in db && b in db && db[a].name == db[b].name :: a == b)
      && (forall a, b | a in db && b in db && db[a].status == Issued && db[b].status == Issued :: a == b)
      && (forall id | id in db && db[id].status != Draft ::
        (forall code :: code in db[id].entries <==> IsAnnexControlCode(code)) && |db[id].entries| == 93)
  {
    RunKeepsInv(map[], steps);
    var db := Run(map[], steps);
    hide Run;
    forall id | id in db && db[id].status != Draft
      ensures (forall code :: code in db[id].entries <==> IsAnnexControlCode(code)) && |db[id].entries| == 93
    {
      CompleteEntries(db[id].entries);
    }
  }

  lemma CompleteEntries(entries: map<string, Entry>)
    requires Covers(entries) && forall code | code in entries :: IsAnnexControlCode(code)
    ensures forall code :: code in entries <==> IsAnnexControlCode(code)
    ensures |entries| == 93
  {
    NinetyThreeCodes();
    DistinctCount(ANNEX_CONTROLS);
    hide ANNEX_CONTROLS;
    assert forall code :: code in entries <==> code in ANNEX_CONTROLS;
    assert entries.Keys == (set code | code in ANNEX_CONTROLS);
  }

  lemma {:induction false} DistinctCount(codes: seq<string>)
    requires forall i, j | 0 <= i < j < |codes| :: codes[i] != codes[j]
    ensures |(set code | code in codes)| == |codes|
  {
    if codes != [] {
      var front, last := codes[..|codes| - 1], codes[|codes| - 1];
      DistinctCount(front);
      assert (set code | code in codes) == (set code | code in front) + {last};
    }
  }

  /** An issued version is never edited and never returns to draft; a superseded one never comes back in force. */
  lemma {:induction false} IssuedIsFrozen(db: Db, id: VersionId, steps: seq<Step>)
    requires id in db && db[id].status != Draft
    ensures id in Run(db, steps)
    ensures Run(db, steps)[id] == db[id]
      || (db[id].status == Issued && Run(db, steps)[id] == db[id].(status := Superseded))
    decreases |steps|
  {
    if steps != [] {
      IssuedStep(db, id, steps[0]);
      hide Perform;
      IssuedIsFrozen(Perform(db, steps[0]), id, steps[1..]);
    }
  }

  lemma IssuedStep(db: Db, id: VersionId, step: Step)
    requires id in db && db[id].status != Draft
    ensures id in Perform(db, step)
    ensures Perform(db, step)[id] == db[id]
      || (db[id].status == Issued && Perform(db, step)[id] == db[id].(status := Superseded))
  {
    hide Covers, IsAnnexControlCode, NameTakenIn;
  }

  predicate InForce(db: Db) {
    exists id | id in db :: db[id].status == Issued
  }

  /** Once a version has been issued, one is in force ever after. */
  lemma {:induction false} OneStaysInForce(db: Db, steps: seq<Step>)
    requires InForce(db)
    ensures InForce(Run(db, steps))
    decreases |steps|
  {
    if steps != [] {
      var id :| id in db && db[id].status == Issued;
      var next := Perform(db, steps[0]);
      var holder := if steps[0].Issue? && Enabled(db, steps[0]) then steps[0].id else id;
      assert holder in next && next[holder].status == Issued;
      hide Perform;
      OneStaysInForce(next, steps[1..]);
    }
  }

  /** A clone of a complete version can be issued at once, and takes the place of the version in force. */
  lemma CloneCanBeIssued(db: Db, source: VersionId, id: VersionId, name: string)
    requires Inv(db) && source in db && db[source].status == Issued && Enabled(db, Create(id, name, Some(source)))
    ensures var draft := Apply(db, Create(id, name, Some(source)));
      && Enabled(draft, Issue(id))
      && var after := Apply(draft, Issue(id));
         after[id].status == Issued && after[source].status == Superseded && after[id].entries == db[source].entries
  {
    hide Covers, IsAnnexControlCode, NameTakenIn;
  }
}
