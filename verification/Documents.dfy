/** Documented information: drafting, issuing, replacing and withdrawing documents, and the files attached to them
    (apps/api/src/modules/compliance/compliance.service.ts). */
module Documents {
  import opened AnnexA
  import opened Common
  import Text

  type DocId = string
  type FileId = string

  datatype Status = Draft | Issued | Superseded | Withdrawn

  /** `created` numbers the documents in the order they were made. */
  datatype Doc = Doc(code: string, status: Status, supersedes: Option<DocId>, controls: set<string>, details: string,
                     created: nat)

  datatype Db = Db(docs: map<DocId, Doc>, files: map<FileId, DocId>, next: nat)

  datatype Error = NotFound | UnknownControls | CodeTaken | BadSupersedes | ReadOnly | NotDraft | NoFile
                 | AlreadyWithdrawn | FileNotFound

  type Result = Outcome<Error>

  datatype Step =
    | Create(id: DocId, code: string, controls: set<string>, supersedes: Option<DocId>, details: string)
    | Update(id: DocId, controls: set<string>, details: string)
    | Issue(id: DocId)
    | Withdraw(id: DocId)
    | AddFile(id: DocId, file: FileId)
    | RemoveFile(file: FileId)

  predicate Known(controls: set<string>) {
    forall code | code in controls :: IsAnnexControlCode(code)
  }

  predicate CodeTakenIn(docs: map<DocId, Doc>, code: string) {
    exists id | id in docs :: docs[id].code == code
  }

  /** The unique column: at most one document supersedes another. */
  predicate Replaced(docs: map<DocId, Doc>, id: DocId) {
    exists other | other in docs :: docs[other].supersedes == Some(id)
  }

  predicate HasFile(files: map<FileId, DocId>, id: DocId) {
    exists file | file in files :: files[file] == id
  }

  predicate Over(status: Status) {
    status in {Superseded, Withdrawn}
  }

  predicate Enabled(db: Db, step: Step) {
    match step
    case Create(id, code, controls, supersedes, _) =>
      && id !in db.docs && Known(controls) && !CodeTakenIn(db.docs, Text.Upper(Text.Trim(code)))
      && (supersedes.Some? ==> supersedes.value in db.docs && !Replaced(db.docs, supersedes.value))
    case Update(id, controls, _) => id in db.docs && !Over(db.docs[id].status) && Known(controls)
    case Issue(id) =>
      && id in db.docs && db.docs[id].status == Draft && HasFile(db.files, id)
      && (db.docs[id].supersedes.Some? ==> db.docs[id].supersedes.value in db.docs)
    case Withdraw(id) => id in db.docs && db.docs[id].status != Withdrawn
    case AddFile(id, file) => id in db.docs && !Over(db.docs[id].status) && file !in db.files
    case RemoveFile(file) => file in db.files && db.files[file] in db.docs && db.docs[db.files[file]].status == Draft
  }

  function WithStatus(docs: map<DocId, Doc>, id: DocId, status: Status): (r: map<DocId, Doc>)
    requires id in docs
    ensures r.Keys == docs.Keys
  {
    docs[id := docs[id].(status := status)]
  }

  function IssuedDocs(docs: map<DocId, Doc>, id: DocId): (r: map<DocId, Doc>)
    requires id in docs && (docs[id].supersedes.Some? ==> docs[id].supersedes.value in docs)
    ensures r.Keys == docs.Keys
  {
    var before := if docs[id].supersedes.Some? then WithStatus(docs, docs[id].supersedes.value, Superseded) else docs;
    WithStatus(before, id, Issued)
  }

  /** The write of a step, by itself: the rows it names are there, and the unique columns take it. */
  predicate Writable(db: Db, step: Step) {
    match step
    case Create(id, code, _, supersedes, _) =>
      && id !in db.docs && !CodeTakenIn(db.docs, Text.Upper(Text.Trim(code)))
      && (supersedes.Some? ==> supersedes.value in db.docs && !Replaced(db.docs, supersedes.value))
    case Update(id, _, _) => id in db.docs
    case Issue(id) => id in db.docs && (db.docs[id].supersedes.Some? ==> db.docs[id].supersedes.value in db.docs)
    case Withdraw(id) => id in db.docs
    case AddFile(id, file) => id in db.docs && file !in db.files
    case RemoveFile(file) => file in db.files
  }

  function Apply(db: Db, step: Step): Db
    requires Writable(db, step)
  {
    match step
    case Create(id, code, controls, supersedes, details) =>
      Db(db.docs[id := Doc(Text.Upper(Text.Trim(code)), Draft, supersedes, controls, details, db.next)], db.files,
         db.next + 1)
    case Update(id, controls, details) =>
      db.(docs := db.docs[id := db.docs[id].(controls := controls, details := details)])
    case Issue(id) => db.(docs := IssuedDocs(db.docs, id))
    case Withdraw(id) => db.(docs := WithStatus(db.docs, id, Withdrawn))
    case AddFile(id, file) => db.(files := db.files[file := id])
    case RemoveFile(file) => db.(files := db.files - {file})
  }

  /** A step commits or changes nothing. */
  function Perform(db: Db, step: Step): Db {
    if Enabled(db, step) then Apply(db, step) else db
  }

  function Run(db: Db, steps: seq<Step>): Db
    decreases |steps|
  {
    if steps == [] then db else Run(Perform(db, steps[0]), steps[1..])
  }

  // ---------------------------------------------------------------------------------------------
  // The service
  // ---------------------------------------------------------------------------------------------

  class ComplianceService {
    var docs: map<DocId, Doc>
    var files: map<FileId, DocId>
    var next: nat

    ghost function View(): Db
      reads this
    {
      Db(docs, files, next)
    }

    constructor ()
      ensures View() == Db(map[], map[], 0)
    {
      docs, files, next := map[], map[], 0;
    }

    /** `id` is the key the database generates. */
    method CreateDocument(id: DocId, code: string, controls: set<string>, supersedes: Option<DocId>, details: string)
      returns (r: Result)
      requires id !in docs
      modifies this
      ensures r == Refused(UnknownControls) <==>
        exists control :: control in controls && !IsAnnexControlCode(control)
      ensures r == Refused(CodeTaken) ==>
        exists other :: other in old(docs) && old(docs)[other].code == Text.Upper(Text.Trim(code))
      ensures r in {Done, Refused(UnknownControls), Refused(CodeTaken), Refused(BadSupersedes)}
      ensures r.Done? <==> Enabled(old(View()), Create(id, code, controls, supersedes, details))
      ensures View() == Perform(old(View()), Create(id, code, controls, supersedes, details))
    {
      hide IsAnnexControlCode;
      if exists control :: control in controls && !IsAnnexControlCode(control) {
        return Refused(UnknownControls);
      }
      var documentCode := Text.Upper(Text.Trim(code));
      if CodeTakenIn(docs, documentCode) {
        return Refused(CodeTaken);
      }
      if supersedes.Some? && (supersedes.value !in docs || Replaced(docs, supersedes.value)) {
        return Refused(BadSupersedes);
      }
      docs := docs[id := Doc(documentCode, Draft, supersedes, controls, details, next)];
      next := next + 1;
      r := Done;
    }

    method UpdateDocument(id: DocId, controls: set<string>, details: string) returns (r: Result)
      modifies this
      ensures r == Refused(NotFound) <==> id !in old(docs)
      ensures r == Refused(ReadOnly) <==> id in old(docs) && old(docs)[id].status in {Superseded, Withdrawn}
      ensures r in {Done, Refused(NotFound), Refused(ReadOnly), Refused(UnknownControls)}
      ensures r.Done? <==> Enabled(old(View()), Update(id, controls, details))
      ensures View() == Perform(old(View()), Update(id, controls, details))
    {
      hide Known;
      if id !in docs {
        return Refused(NotFound);
      }
      if Over(docs[id].status) {
        return Refused(ReadOnly);
      }
      if !Known(controls) {
        return Refused(UnknownControls);
      }
      docs := docs[id := docs[id].(controls := controls, details := details)];
      r := Done;
    }

    method IssueDocument(id: DocId) returns (r: Result)
      requires id in docs && docs[id].supersedes.Some? ==> docs[id].supersedes.value in docs
      modifies this
      ensures r == Refused(NotFound) <==> id !in old(docs)
      ensures r == Refused(NotDraft) <==> id in old(docs) && old(docs)[id].status != Draft
      ensures r in {Done, Refused(NotFound), Refused(NotDraft), Refused(NoFile)}
      ensures r.Done? <==> Enabled(old(View()), Issue(id))
      ensures View() == Perform(old(View()), Issue(id))
    {
      if id !in docs {
        return Refused(NotFound);
      }
      var current := docs[id];
      if current.status != Draft {
        return Refused(NotDraft);
      }
      if !HasFile(files, id) {
        return Refused(NoFile);
      }
      if current.supersedes.Some? {
        docs := docs[current.supersedes.value := docs[current.supersedes.value].(status := Superseded)];
      }
      docs := docs[id := docs[id].(status := Issued)];
      r := Done;
    }

    method WithdrawDocument(id: DocId) returns (r: Result)
      modifies this
      ensures r == Refused(NotFound) <==> id !in old(docs)
      ensures r in {Done, Refused(NotFound), Refused(AlreadyWithdrawn)}
      ensures r.Done? <==> Enabled(old(View()), Withdraw(id))
      ensures View() == Perform(old(View()), Withdraw(id))
    {
      if id !in docs {
        return Refused(NotFound);
      }
      if docs[id].status == Withdrawn {
        return Refused(AlreadyWithdrawn);
      }
      docs := docs[id := docs[id].(status := Withdrawn)];
      r := Done;
    }

    method AttachFile(id: DocId, file: FileId) returns (r: Result)
      requires file !in files
      modifies this
      ensures r == Refused(NotFound) <==> id !in old(docs)
      ensures r in {Done, Refused(NotFound), Refused(ReadOnly)}
      ensures r.Done? <==> Enabled(old(View()), AddFile(id, file))
      ensures View() == Perform(old(View()), AddFile(id, file))
    {
      if id !in docs {
        return Refused(NotFound);
      }
      if Over(docs[id].status) {
        return Refused(ReadOnly);
      }
      files := files[file := id];
      r := Done;
    }

    method DetachFile(file: FileId) returns (r: Result)
      requires file in files ==> files[file] in docs
      modifies this
      ensures r == Refused(FileNotFound) <==> file !in old(files)
      ensures r in {Done, Refused(FileNotFound), Refused(NotDraft)}
      ensures r.Done? <==> Enabled(old(View()), RemoveFile(file))
      ensures View() == Perform(old(View()), RemoveFile(file))
    {
      if file !in files {
        return Refused(FileNotFound);
      }
      if docs[files[file]].status != Draft {
        return Refused(NotDraft);
      }
      files := files - {file};
      r := Done;
    }
  }

  // ---------------------------------------------------------------------------------------------
  // What holds in every reachable state
  // ---------------------------------------------------------------------------------------------

  /** A document replaces an older one. */
  predicate ReplacesOlder(docs: map<DocId, Doc>, d: DocId)
    requires d in docs
  {
    docs[d].supersedes.Some? ==>
      docs[d].supersedes.value in docs && docs[docs[d].supersedes.value].created < docs[d].created
  }

  /** The document that one in force replaces is over. */
  predicate PredecessorOver(docs: map<DocId, Doc>, d: DocId)
    requires d in docs
  {
    docs[d].status == Issued && docs[d].supersedes.Some? && docs[d].supersedes.value in docs ==>
      Over(docs[docs[d].supersedes.value].status)
  }

  ghost predicate Chained(docs: map<DocId, Doc>) {
    && (forall d | d in docs :: ReplacesOlder(docs, d))
    && (forall a, b | a in docs && b in docs && docs[a].supersedes.Some?
      && docs[a].supersedes == docs[b].supersedes :: a == b)
  }

  ghost predicate IssuedOk(db: Db) {
    && (forall d | d in db.docs && db.docs[d].status == Issued :: HasFile(db.files, d))
    && (forall d | d in db.docs :: PredecessorOver(db.docs, d))
  }

  ghost predicate Inv(db: Db) {
    && Chained(db.docs) && IssuedOk(db)
    && (forall d | d in db.docs :: db.docs[d].created < db.next)
    && (forall f | f in db.files :: db.files[f] in db.docs)
  }

  /** The chains do not depend on the statuses. */
  lemma ChainedAsBefore(docs: map<DocId, Doc>, later: map<DocId, Doc>)
    requires Chained(docs) && docs.Keys == later.Keys
    requires forall d | d in docs :: later[d].supersedes == docs[d].supersedes && later[d].created == docs[d].created
    ensures Chained(later)
  {
    forall d | d in later
      ensures ReplacesOlder(later, d)
    {
      assert ReplacesOlder(docs, d);
    }
    hide ReplacesOlder;
  }

  /** Issuing supersedes the predecessor of its document, and supersedes nothing that another document relied on. */
  lemma PredecessorAfterIssue(db: Db, id: DocId, d: DocId)
    requires Inv(db) && Enabled(db, Issue(id)) && d in db.docs
    ensures PredecessorOver(IssuedDocs(db.docs, id), d)
  {
    assert PredecessorOver(db.docs, d) && ReplacesOlder(db.docs, id) && ReplacesOlder(db.docs, d);
    hide HasFile, Inv;
  }

  lemma IssuedFrame(docs: map<DocId, Doc>, id: DocId)
    requires id in docs && (docs[id].supersedes.Some? ==> docs[id].supersedes.value in docs)
    ensures forall d | d in docs :: IssuedDocs(docs, id)[d] == docs[d].(status := IssuedDocs(docs, id)[d].status)
    ensures forall d | d in docs && d != id && IssuedDocs(docs, id)[d].status == Issued :: docs[d].status == Issued
  {
  }

  lemma IssueKeepsInv(db: Db, id: DocId)
    requires Inv(db) && Enabled(db, Issue(id))
    ensures Inv(Apply(db, Issue(id)))
  {
    hide HasFile, PredecessorOver, ReplacesOlder;
    var after := IssuedDocs(db.docs, id);
    IssuedFrame(db.docs, id);
    forall d | d in after
      ensures PredecessorOver(after, d)
    {
      PredecessorAfterIssue(db, id, d);
    }
    hide IssuedDocs;
    ChainedAsBefore(db.docs, after);
    hide Chained;
  }

  lemma FileStepKeepsInv(db: Db, step: Step)
    requires Inv(db) && Enabled(db, step) && (step.AddFile? || step.RemoveFile?)
    ensures Inv(Apply(db, step))
  {
    hide Chained;
    var after := Apply(db, step);
    forall d | d in db.docs && db.docs[d].status == Issued
      ensures HasFile(after.files, d)
    {
      var file :| file in db.files && db.files[file] == d;
      assert file in after.files && after.files[file] == d;
    }
  }

  lemma PerformKeepsInv(db: Db, step: Step)
    requires Inv(db)
    ensures Inv(Perform(db, step))
  {
    if Enabled(db, step) {
      match step
      case Issue(id) => IssueKeepsInv(db, id);
      case AddFile(_, _) => FileStepKeepsInv(db, step);
      case RemoveFile(_) => FileStepKeepsInv(db, step);
      case Create(_, _, _, _, _) => CreateKeepsInv(db, step);
      case _ => PlainStepKeepsInv(db, step);
    }
  }

  lemma PlainStepKeepsInv(db: Db, step: Step)
    requires Inv(db) && Enabled(db, step) && (step.Update? || step.Withdraw?)
    ensures Inv(Apply(db, step))
  {
    hide HasFile, Known, CodeTakenIn, Replaced;
    var after := Apply(db, step).docs;
    ChainedAsBefore(db.docs, after);
    forall d | d in after
      ensures PredecessorOver(after, d)
    {
      assert PredecessorOver(db.docs, d);
    }
    hide Chained, PredecessorOver;
  }

  lemma CreateKeepsInv(db: Db, step: Step)
    requires Inv(db) && Enabled(db, step) && step.Create?
    ensures Inv(Apply(db, step))
  {
    hide HasFile, Known, CodeTakenIn;
    var after := Apply(db, step);
    forall d | d in db.docs
      ensures ReplacesOlder(after.docs, d) && PredecessorOver(after.docs, d)
    {
      assert ReplacesOlder(db.docs, d) && PredecessorOver(db.docs, d);
    }
    assert ReplacesOlder(after.docs, step.id) && PredecessorOver(after.docs, step.id);
    hide ReplacesOlder, PredecessorOver;
    SuccessorsStayUnique(db, step);
    hide Chained;
  }

  lemma SuccessorsStayUnique(db: Db, step: Step)
    requires Inv(db) && Enabled(db, step) && step.Create?
    ensures var docs := Apply(db, step).docs;
      forall a, b | a in docs && b in docs && docs[a].supersedes.Some?
        && docs[a].supersedes == docs[b].supersedes :: a == b
  {
    hide HasFile, Known, CodeTakenIn, ReplacesOlder, PredecessorOver;
    var docs := Apply(db, step).docs;
    assert forall d | d in db.docs :: docs[d] == db.docs[d];
    if step.supersedes.Some? {
      forall d | d in db.docs
        ensures docs[d].supersedes != step.supersedes
      {
        assert !Replaced(db.docs, step.supersedes.value);
      }
    }
    hide Replaced;
  }

  lemma {:induction false} RunKeepsInv(db: Db, steps: seq<Step>)
    requires Inv(db)
    ensures Inv(Run(db, steps))
    decreases |steps|
  {
    hide Inv, Perform;
    if steps != [] {
      PerformKeepsInv(db, steps[0]);
      RunKeepsInv(Perform(db, steps[0]), steps[1..]);
    }
  }

  /** A document in force has a file, and the document it directly replaces is no longer in force. */
  lemma ReachableStates(steps: seq<Step>, d: DocId)
    requires var db := Run(Db(map[], map[], 0), steps); d in db.docs && db.docs[d].status == Issued
    ensures var db := Run(Db(map[], map[], 0), steps);
      && HasFile(db.files, d)
      && (db.docs[d].supersedes.Some? ==>
        db.docs[d].supersedes.value in db.docs && Over(db.docs[db.docs[d].supersedes.value].status))
  {
    var start := Db(map[], map[], 0);
    assert Inv(start);
    RunKeepsInv(start, steps);
    hide Run, HasFile;
    var db := Run(start, steps);
    assert ReplacesOlder(db.docs, d) && PredecessorOver(db.docs, d);
  }

  /** A document that has been in force is never a draft again, never comes back in force, and keeps every file it
      had. */
  lemma {:induction false} IssuedIsFinal(db: Db, d: DocId, file: FileId, steps: seq<Step>)
    requires d in db.docs && db.docs[d].status != Draft && file in db.files && db.files[file] == d
    ensures var after := Run(db, steps);
      && d in after.docs && after.docs[d].status != Draft
      && (db.docs[d].status != Issued ==> after.docs[d].status != Issued)
      && after.docs[d].supersedes == db.docs[d].supersedes && after.docs[d].code == db.docs[d].code
      && file in after.files && after.files[file] == d
    decreases |steps|
  {
    if steps != [] {
      IssuedStep(db, d, file, steps[0]);
      hide Perform;
      IssuedIsFinal(Perform(db, steps[0]), d, file, steps[1..]);
    }
  }

  lemma IssuedStep(db: Db, d: DocId, file: FileId, step: Step)
    requires d in db.docs && db.docs[d].status != Draft && file in db.files && db.files[file] == d
    ensures var after := Perform(db, step);
      && d in after.docs && after.docs[d].status != Draft
      && (db.docs[d].status != Issued ==> after.docs[d].status != Issued)
      && after.docs[d].supersedes == db.docs[d].supersedes && after.docs[d].code == db.docs[d].code
      && file in after.files && after.files[file] == d
  {
    hide HasFile, Known, CodeTakenIn, Replaced;
  }

  // ---------------------------------------------------------------------------------------------
  // Longer chains
  // ---------------------------------------------------------------------------------------------

  /** The document `a` is replaced by `d`, directly or through others. */
  predicate Ancestor(docs: map<DocId, Doc>, a: DocId, d: DocId)
    decreases if d in docs then docs[d].created else 0
  {
    && d in docs && docs[d].supersedes.Some?
    && var p := docs[d].supersedes.value;
       && p in docs && docs[p].created < docs[d].created
       && (p == a || Ancestor(docs, a, p))
  }

  ghost predicate OneInForce(docs: map<DocId, Doc>) {
    forall a, d | Ancestor(docs, a, d) && a in docs && d in docs ::
      !(docs[a].status == Issued && docs[d].status == Issued)
  }

  /** Who replaces whom does not depend on the statuses. */
  lemma {:induction false} AncestorOfSame(docs: map<DocId, Doc>, later: map<DocId, Doc>, a: DocId, d: DocId)
    requires docs.Keys == later.Keys
    requires forall x | x in docs :: later[x].supersedes == docs[x].supersedes && later[x].created == docs[x].created
    ensures Ancestor(later, a, d) <==> Ancestor(docs, a, d)
    decreases if d in docs then docs[d].created else 0
  {
    if d in docs && docs[d].supersedes.Some? && docs[d].supersedes.value in docs
      && docs[docs[d].supersedes.value].created < docs[d].created {
      AncestorOfSame(docs, later, a, docs[d].supersedes.value);
    }
  }

  /** Nothing in force further up or down the chain of a document than its direct predecessor. */
  ghost predicate ChainIsClear(docs: map<DocId, Doc>, id: DocId)
    requires id in docs
  {
    && (forall a | a in docs && Ancestor(docs, a, id) && docs[id].supersedes != Some(a) :: docs[a].status != Issued)
    && (forall d | d in docs && Ancestor(docs, id, d) :: docs[d].status != Issued)
  }

  lemma IssueKeepsAncestors(docs: map<DocId, Doc>, id: DocId)
    requires id in docs && (docs[id].supersedes.Some? ==> docs[id].supersedes.value in docs)
    ensures forall a, d :: Ancestor(IssuedDocs(docs, id), a, d) <==> Ancestor(docs, a, d)
  {
    var after := IssuedDocs(docs, id);
    assert forall x | x in docs :: after[x] == docs[x].(status := after[x].status);
    forall a, d
      ensures Ancestor(after, a, d) <==> Ancestor(docs, a, d)
    {
      AncestorOfSame(docs, after, a, d);
    }
  }

  /** Issuing keeps one document of every chain in force exactly when the rest of the chain is clear: only the direct
      predecessor is superseded. */
  lemma IssueKeepsOneInForceIff(db: Db, id: DocId)
    requires Inv(db) && OneInForce(db.docs) && Enabled(db, Issue(id))
    ensures OneInForce(IssuedDocs(db.docs, id)) <==> ChainIsClear(db.docs, id)
  {
    hide HasFile;
    var docs, after := db.docs, IssuedDocs(db.docs, id);
    hide IssuedDocs, Ancestor, Inv;
    IssueKeepsAncestors(docs, id);
    IssuedStatuses(db, id);
    if OneInForce(after) {
      forall a | a in docs && Ancestor(docs, a, id) && docs[id].supersedes != Some(a)
        ensures docs[a].status != Issued
      {
        assert Ancestor(after, a, id);
      }
      forall d | d in docs && Ancestor(docs, id, d)
        ensures docs[d].status != Issued
      {
        assert Ancestor(after, id, d);
      }
    }
    if ChainIsClear(docs, id) {
      forall a, d | Ancestor(after, a, d) && a in after && d in after
        ensures !(after[a].status == Issued && after[d].status == Issued)
      {
        assert Ancestor(docs, a, d);
      }
    }
  }

  /** Who is in force after a document is issued: the document itself, and all that were but its direct predecessor. */
  lemma IssuedStatuses(db: Db, id: DocId)
    requires Inv(db) && Enabled(db, Issue(id))
    ensures forall x | x in db.docs :: IssuedDocs(db.docs, id)[x].status == Issued <==>
      (x == id || (db.docs[x].status == Issued && db.docs[id].supersedes != Some(x)))
    ensures forall a | Ancestor(db.docs, a, id) && a in db.docs :: a != id
  {
    hide HasFile;
    assert ReplacesOlder(db.docs, id);
    forall a | Ancestor(db.docs, a, id) && a in db.docs
      ensures a != id
    {
      AncestorIsOlder(db.docs, a, id);
    }
    hide Ancestor;
  }

  lemma {:induction false} AncestorIsOlder(docs: map<DocId, Doc>, a: DocId, d: DocId)
    requires Ancestor(docs, a, d) && a in docs
    ensures d in docs && docs[a].created < docs[d].created
    decreases if d in docs then docs[d].created else 0
  {
    var p := docs[d].supersedes.value;
    if p != a {
      AncestorIsOlder(docs, a, p);
    }
  }

  /** One in force per chain is not kept by every run: replace a document in force by a draft, that draft by another
      one, and issue only the last. */
  lemma TwoInForce(db: Db, a: DocId, b: DocId, c: DocId, codeB: string, codeC: string, file: FileId)
    requires Inv(db) && a in db.docs && db.docs[a].status == Issued && !Replaced(db.docs, a)
    requires b !in db.docs && c !in db.docs && b != c && file !in db.files
    requires !CodeTakenIn(db.docs, Text.Upper(Text.Trim(codeB))) && !CodeTakenIn(db.docs, Text.Upper(Text.Trim(codeC)))
    requires Text.Upper(Text.Trim(codeB)) != Text.Upper(Text.Trim(codeC))
    ensures var steps :=
      [Create(b, codeB, {}, Some(a), ""), Create(c, codeC, {}, Some(b), ""), AddFile(c, file), Issue(c)];
      var after := Run(db, steps);
      && a in after.docs && after.docs[a].status == Issued
      && c in after.docs && after.docs[c].status == Issued
      && Ancestor(after.docs, a, c)
  {
    hide HasFile, Text.Upper, Text.Trim, IsAnnexControlCode, PredecessorOver, ReplacesOlder, Ancestor, Chained, Run;
    var steps := [Create(b, codeB, {}, Some(a), ""), Create(c, codeC, {}, Some(b), ""), AddFile(c, file), Issue(c)];
    var db1 := Perform(db, steps[0]);
    assert Enabled(db, steps[0]);
    assert Enabled(db1, steps[1]) by { DraftIsFree(db, a, b, codeB, codeC); }
    var db2 := Perform(db1, steps[1]);
    var db3 := Perform(db2, steps[2]);
    assert Enabled(db3, steps[3]) by { FileIsThere(db3.files, file, c); }
    var db4 := Perform(db3, steps[3]);
    assert db4.docs[a] == db.docs[a];
    assert db4.docs[c].supersedes == Some(b) && db4.docs[b].supersedes == Some(a);
    assert db4.docs[a].created < db4.docs[b].created < db4.docs[c].created;
    hide Enabled, Apply, Perform, Inv;
    TwoLinks(db4.docs, a, b, c);
    assert Run(db, steps) == db4 by { RunFour(db, steps); }
  }

  lemma TwoLinks(docs: map<DocId, Doc>, a: DocId, b: DocId, c: DocId)
    requires a in docs && b in docs && c in docs && docs[c].supersedes == Some(b) && docs[b].supersedes == Some(a)
    requires docs[a].created < docs[b].created < docs[c].created
    ensures Ancestor(docs, a, c)
  {
    assert Ancestor(docs, a, b);
  }

  lemma RunFour(db: Db, steps: seq<Step>)
    requires |steps| == 4
    ensures Run(db, steps) == Perform(Perform(Perform(Perform(db, steps[0]), steps[1]), steps[2]), steps[3])
  {
    hide Perform;
    var rest := steps[1..];
    assert rest[0] == steps[1] && rest[1..][0] == steps[2] && rest[1..][1..][0] == steps[3]
      && rest[1..][1..][1..] == [];
    var db1 := Perform(db, steps[0]);
    var db2 := Perform(db1, steps[1]);
    var db3 := Perform(db2, steps[2]);
    assert Run(db3, rest[1..][1..]) == Run(Perform(db3, steps[3]), []);
    assert Run(db2, rest[1..]) == Run(db3, rest[1..][1..]);
    assert Run(db1, rest) == Run(db2, rest[1..]);
  }

  lemma FileIsThere(files: map<FileId, DocId>, file: FileId, id: DocId)
    requires file in files && files[file] == id
    ensures HasFile(files, id)
  {
  }

  lemma DraftIsFree(db: Db, a: DocId, b: DocId, codeB: string, codeC: string)
    requires Inv(db) && a in db.docs && b !in db.docs && Enabled(db, Create(b, codeB, {}, Some(a), ""))
    requires !CodeTakenIn(db.docs, Text.Upper(Text.Trim(codeC)))
    requires Text.Upper(Text.Trim(codeB)) != Text.Upper(Text.Trim(codeC))
    ensures var docs := Apply(db, Create(b, codeB, {}, Some(a), "")).docs;
      !CodeTakenIn(docs, Text.Upper(Text.Trim(codeC))) && !Replaced(docs, b)
  {
    hide Text.Upper, Text.Trim, HasFile, IsAnnexControlCode;
  }

  // ---------------------------------------------------------------------------------------------
  // Runs that keep one document of every chain in force
  // ---------------------------------------------------------------------------------------------

  /** New documents at the end of a chain do not change who is replaced further down. */
  lemma {:induction false} AncestorOfOld(docs: map<DocId, Doc>, later: map<DocId, Doc>, a: DocId, d: DocId)
    requires Chained(docs) && d in docs
    requires forall x | x in docs ::
      x in later && later[x].supersedes == docs[x].supersedes && later[x].created == docs[x].created
    ensures Ancestor(later, a, d) <==> Ancestor(docs, a, d)
    decreases docs[d].created
  {
    assert ReplacesOlder(docs, d);
    if docs[d].supersedes.Some? {
      AncestorOfOld(docs, later, a, docs[d].supersedes.value);
    }
  }

  lemma {:induction false} AncestorIsStored(docs: map<DocId, Doc>, a: DocId, d: DocId)
    requires Ancestor(docs, a, d)
    ensures a in docs && d in docs
    decreases if d in docs then docs[d].created else 0
  {
    if docs[d].supersedes.value != a {
      AncestorIsStored(docs, a, docs[d].supersedes.value);
    }
  }

  /** Every step but issuing keeps one document of every chain in force. */
  lemma OtherStepsKeepOneInForce(db: Db, step: Step)
    requires Inv(db) && OneInForce(db.docs) && (!step.Issue? || !Enabled(db, step))
    ensures OneInForce(Perform(db, step).docs)
  {
    var later := Perform(db, step).docs;
    OldDocuments(db, step);
    hide Perform, HasFile, Enabled;
    forall a, d | Ancestor(later, a, d) && a in later && d in later
      ensures !(later[a].status == Issued && later[d].status == Issued)
    {
      if d in db.docs {
        AncestorOfOld(db.docs, later, a, d);
        AncestorIsStored(db.docs, a, d);
      }
    }
  }

  lemma OldDocuments(db: Db, step: Step)
    requires !step.Issue? || !Enabled(db, step)
    ensures var later := Perform(db, step).docs;
      && (forall x | x in db.docs :: x in later && later[x].supersedes == db.docs[x].supersedes)
      && (forall x | x in db.docs :: later[x].created == db.docs[x].created)
      && (forall x | x in db.docs && later[x].status == Issued :: db.docs[x].status == Issued)
      && (forall x | x in later && x !in db.docs :: later[x].status == Draft)
  {
    hide HasFile, Known, CodeTakenIn, Replaced;
  }

  ghost predicate OneInForceAlong(db: Db, steps: seq<Step>)
    decreases |steps|
  {
    OneInForce(db.docs) && (steps != [] ==> OneInForceAlong(Perform(db, steps[0]), steps[1..]))
  }

  /** Every document of the run is issued on a clear chain. */
  ghost predicate ClearIssues(db: Db, steps: seq<Step>)
    decreases |steps|
  {
    steps != [] ==>
      && (steps[0].Issue? && Enabled(db, steps[0]) ==> ChainIsClear(db.docs, steps[0].id))
      && ClearIssues(Perform(db, steps[0]), steps[1..])
  }

  /** A run keeps one document of every chain in force throughout exactly when it issues on clear chains only. */
  lemma {:induction false} RunKeepsOneInForceIff(db: Db, steps: seq<Step>)
    requires Inv(db) && OneInForce(db.docs)
    ensures OneInForceAlong(db, steps) <==> ClearIssues(db, steps)
    decreases |steps|
  {
    if steps != [] {
      var next := Perform(db, steps[0]);
      if steps[0].Issue? && Enabled(db, steps[0]) {
        IssueKeepsOneInForceIff(db, steps[0].id);
        assert next.docs == IssuedDocs(db.docs, steps[0].id);
      } else {
        OtherStepsKeepOneInForce(db, steps[0]);
      }
      PerformKeepsInv(db, steps[0]);
      hide Inv, Perform, Enabled, OneInForce, ChainIsClear, IssuedDocs;
      if OneInForce(next.docs) {
        RunKeepsOneInForceIff(next, steps[1..]);
      }
    }
  }

  // ---------------------------------------------------------------------------------------------
  // Withdrawn documents
  // ---------------------------------------------------------------------------------------------

  predicate IssuesSuccessor(db: Db, step: Step, p: DocId) {
    step.Issue? && Enabled(db, step) && db.docs[step.id].supersedes == Some(p)
  }

  /** A withdrawn document stays withdrawn unless its successor is issued, which makes it a superseded one. */
  lemma WithdrawnStaysIff(db: Db, step: Step, p: DocId)
    requires p in db.docs && db.docs[p].status == Withdrawn
    ensures p in Perform(db, step).docs
    ensures Perform(db, step).docs[p].status == (if IssuesSuccessor(db, step, p) then Superseded else Withdrawn)
  {
    hide HasFile, Known, CodeTakenIn, Replaced;
  }

  predicate WithdrawnAlong(db: Db, steps: seq<Step>, p: DocId)
    decreases |steps|
  {
    p in db.docs && db.docs[p].status == Withdrawn
      && (steps != [] ==> WithdrawnAlong(Perform(db, steps[0]), steps[1..], p))
  }

  predicate SuccessorNeverIssued(db: Db, steps: seq<Step>, p: DocId)
    decreases |steps|
  {
    steps != [] ==> !IssuesSuccessor(db, steps[0], p) && SuccessorNeverIssued(Perform(db, steps[0]), steps[1..], p)
  }

  /** A withdrawal lasts through a run exactly when the successor of the document is not issued in it. */
  lemma {:induction false} WithdrawalLastsIff(db: Db, steps: seq<Step>, p: DocId)
    requires p in db.docs && db.docs[p].status == Withdrawn
    ensures WithdrawnAlong(db, steps, p) <==> SuccessorNeverIssued(db, steps, p)
    decreases |steps|
  {
    if steps != [] {
      WithdrawnStaysIff(db, steps[0], p);
      hide Perform, IssuesSuccessor;
      if !IssuesSuccessor(db, steps[0], p) {
        WithdrawalLastsIff(Perform(db, steps[0]), steps[1..], p);
      }
    }
  }
}
