/** Documented information when requests overlap: each checks what it has read before its write, and others write in
    between (apps/api/src/modules/compliance/compliance.service.ts). */
module DocumentOverlap {
  import opened Common
  import opened Documents
  import Text

  type RequestId = nat

  /** `pending` are the requests that have passed their checks. */
  datatype State = State(db: Db, pending: map<RequestId, Step>)

  datatype Move =
    | Read(request: RequestId, step: Step)
    | Write(request: RequestId)
    | Abandon(request: RequestId)

  function Written(db: Db, step: Step): Db {
    if Writable(db, step) then Apply(db, step) else db
  }

  function Next(state: State, move: Move): State {
    match move
    case Read(request, step) =>
      if Enabled(state.db, step) then state.(pending := state.pending[request := step]) else state
    case Write(request) =>
      if request in state.pending
      then State(Written(state.db, state.pending[request]), state.pending - {request})
      else state
    case Abandon(request) => state.(pending := state.pending - {request})
  }

  function Moves(state: State, moves: seq<Move>): State
    decreases |moves|
  {
    if moves == [] then state else Moves(Next(state, moves[0]), moves[1..])
  }

  /** A request that writes while its check still holds is one atomic step. */
  lemma FreshWriteIsAtomic(state: State, request: RequestId)
    requires request in state.pending && Enabled(state.db, state.pending[request])
    ensures Next(state, Write(request)).db == Perform(state.db, state.pending[request])
  {
    hide CodeTakenIn, Replaced, HasFile, Known;
  }

  // ---------------------------------------------------------------------------------------------
  // What every interleaving keeps
  // ---------------------------------------------------------------------------------------------

  ghost predicate TablesOk(db: Db) {
    && Chained(db.docs)
    && (forall d | d in db.docs :: db.docs[d].created < db.next)
    && (forall f | f in db.files :: db.files[f] in db.docs)
  }

  lemma WrittenKeepsTables(db: Db, step: Step)
    requires TablesOk(db)
    ensures TablesOk(Written(db, step))
    ensures forall d | d in db.docs :: d in Written(db, step).docs
  {
    hide Chained;
    if Writable(db, step) {
      match step
      case Create(_, _, _, _, _) => NewDocumentIsChained(db, step);
      case Issue(id) =>
        IssuedFrame(db.docs, id);
        ChainedAsBefore(db.docs, Apply(db, step).docs);
      case Update(_, _, _) => ChainedAsBefore(db.docs, Apply(db, step).docs);
      case Withdraw(_) => ChainedAsBefore(db.docs, Apply(db, step).docs);
      case _ =>
    }
  }

  /** Every file belongs to a document, and no two documents have the same code. */
  ghost predicate KeysOk(db: Db) {
    && (forall f | f in db.files :: db.files[f] in db.docs)
    && (forall a, b | a in db.docs && b in db.docs && db.docs[a].code == db.docs[b].code :: a == b)
  }

  lemma WrittenKeepsKeys(db: Db, step: Step)
    requires KeysOk(db)
    ensures KeysOk(Written(db, step))
  {
    if Writable(db, step) && step.Issue? {
      IssuedFrame(db.docs, step.id);
      hide IssuedDocs;
    }
    hide HasFile, Replaced, Text.Trim, Text.Upper;
  }

  /** However requests overlap, the unique codes and the foreign keys of files hold. */
  lemma {:induction false} KeysStayOk(state: State, moves: seq<Move>)
    requires KeysOk(state.db)
    ensures KeysOk(Moves(state, moves).db)
    decreases |moves|
  {
    hide KeysOk, Written;
    if moves != [] {
      if moves[0].Write? && moves[0].request in state.pending {
        WrittenKeepsKeys(state.db, state.pending[moves[0].request]);
      }
      assert KeysOk(Next(state, moves[0]).db);
      hide Next;
      KeysStayOk(Next(state, moves[0]), moves[1..]);
    }
  }

  /** In every interleaving from the empty tables, no two documents have the same code, no two replace the same one, and
      every file belongs to a document. */
  lemma CodesStayApart(moves: seq<Move>)
    ensures var db := Moves(State(Db(map[], map[], 0), map[]), moves).db;
      && (forall a, b | a in db.docs && b in db.docs && db.docs[a].code == db.docs[b].code :: a == b)
      && (forall a, b | a in db.docs && b in db.docs && db.docs[a].supersedes.Some?
        && db.docs[a].supersedes == db.docs[b].supersedes :: a == b)
      && (forall f | f in db.files :: db.files[f] in db.docs)
  {
    var start := State(Db(map[], map[], 0), map[]);
    assert TablesOk(start.db) && KeysOk(start.db);
    KeysStayOk(start, moves);
    MovesKeepTables(start, moves);
    hide Moves;
  }

  lemma NewDocumentIsChained(db: Db, step: Step)
    requires TablesOk(db) && step.Create? && Writable(db, step)
    ensures Chained(Apply(db, step).docs)
  {
    hide CodeTakenIn;
    var after := Apply(db, step).docs;
    forall d | d in after
      ensures ReplacesOlder(after, d)
    {
      if d != step.id {
        assert ReplacesOlder(db.docs, d);
      }
    }
    hide ReplacesOlder;
  }

  lemma NextKeepsTables(state: State, move: Move)
    requires TablesOk(state.db)
    ensures TablesOk(Next(state, move).db)
  {
    hide TablesOk, Written, Enabled;
    if move.Write? && move.request in state.pending {
      WrittenKeepsTables(state.db, state.pending[move.request]);
    }
  }

  lemma {:induction false} MovesKeepTables(state: State, moves: seq<Move>)
    requires TablesOk(state.db)
    ensures TablesOk(Moves(state, moves).db)
    decreases |moves|
  {
    if moves != [] {
      NextKeepsTables(state, moves[0]);
      hide TablesOk, Next;
      MovesKeepTables(Next(state, moves[0]), moves[1..]);
    }
  }

  // ---------------------------------------------------------------------------------------------
  // Files and predecessors
  // ---------------------------------------------------------------------------------------------

  /** A write that leaves a document in force without a file: its last file goes, or it had none left to be issued
      with. */
  predicate LosesFile(db: Db, step: Step) {
    match step
    case Issue(id) => Writable(db, step) && !HasFile(db.files, id)
    case RemoveFile(file) =>
      && file in db.files && db.files[file] in db.docs && db.docs[db.files[file]].status == Issued
      && !HasFile(db.files - {file}, db.files[file])
    case _ => false
  }

  ghost predicate FilesOk(db: Db) {
    forall d | d in db.docs && db.docs[d].status == Issued :: HasFile(db.files, d)
  }

  lemma FilesAfterIff(db: Db, step: Step)
    requires TablesOk(db) && FilesOk(db)
    ensures FilesOk(Written(db, step)) <==> !LosesFile(db, step)
  {
    hide Chained, CodeTakenIn, Replaced;
    if Writable(db, step) {
      var after := Apply(db, step);
      match step
      case Issue(id) =>
        IssuedFrame(db.docs, id);
        assert after.docs[id].status == Issued && after.files == db.files;
        hide IssuedDocs, HasFile;
      case RemoveFile(file) => RemovedFileIff(db, file);
      case AddFile(id, file) => AddedFile(db, id, file);
      case Create(id, _, _, _, _) => hide HasFile;
      case _ => hide HasFile;
    }
  }

  lemma RemovedFileIff(db: Db, file: FileId)
    requires TablesOk(db) && FilesOk(db) && file in db.files
    ensures FilesOk(Apply(db, RemoveFile(file))) <==> !LosesFile(db, RemoveFile(file))
  {
    hide Chained;
    var rest, owner := db.files - {file}, db.files[file];
    forall d | d in db.docs && d != owner
      ensures HasFile(rest, d) <==> HasFile(db.files, d)
    {
      if HasFile(db.files, d) {
        var other :| other in db.files && db.files[other] == d;
        assert other in rest && rest[other] == d;
      }
    }
    hide HasFile;
  }

  lemma AddedFile(db: Db, id: DocId, file: FileId)
    requires FilesOk(db) && Writable(db, AddFile(id, file))
    ensures FilesOk(Apply(db, AddFile(id, file)))
  {
    var more := db.files[file := id];
    forall d | HasFile(db.files, d)
      ensures HasFile(more, d)
    {
      var other :| other in db.files && db.files[other] == d;
      assert other in more && more[other] == d;
    }
    hide HasFile;
  }

  /** A write that puts a document into force although its successor is: both ends of a direct replacement. */
  predicate Doubles(db: Db, step: Step) {
    step.Issue? && Writable(db, step)
    && exists d | d in db.docs :: db.docs[d].status == Issued && db.docs[d].supersedes == Some(step.id)
  }

  ghost predicate PredecessorsOver(docs: map<DocId, Doc>) {
    forall d | d in docs :: PredecessorOver(docs, d)
  }

  lemma PredecessorsAfterIff(db: Db, step: Step)
    requires TablesOk(db) && PredecessorsOver(db.docs)
    ensures PredecessorsOver(Written(db, step).docs) <==> !Doubles(db, step)
  {
    if Writable(db, step) {
      match step
      case Issue(id) => PredecessorsAfterIssueIff(db, id);
      case Create(id, _, _, _, _) => NewDocumentIsDraft(db, step);
      case Withdraw(id) => WithdrawalKeepsPredecessors(db, id);
      case Update(id, controls, details) => UpdateKeepsPredecessors(db, step);
      case _ =>
    }
  }

  lemma PredecessorsAfterIssueIff(db: Db, id: DocId)
    requires TablesOk(db) && PredecessorsOver(db.docs) && Writable(db, Issue(id))
    ensures PredecessorsOver(IssuedDocs(db.docs, id)) <==> !Doubles(db, Issue(id))
  {
    hide Chained;
    var after := IssuedDocs(db.docs, id);
    IssuedFrame(db.docs, id);
    IssuedStatus(db, id);
    hide IssuedDocs;
    if Doubles(db, Issue(id)) {
      var d :| d in db.docs && db.docs[d].status == Issued && db.docs[d].supersedes == Some(id);
      OlderIsOther(db, d, id);
      assert !PredecessorOver(after, d);
    } else {
      forall d | d in after
        ensures PredecessorOver(after, d)
      {
        assert PredecessorOver(db.docs, d);
        assert after[d].supersedes == db.docs[d].supersedes;
        if d == id && db.docs[id].supersedes.Some? {
          OlderIsOther(db, id, db.docs[id].supersedes.value);
        }
      }
    }
  }

  lemma IssuedStatus(db: Db, id: DocId)
    requires TablesOk(db) && Writable(db, Issue(id))
    ensures var after := IssuedDocs(db.docs, id);
      && after[id].status == Issued
      && (forall d | d in db.docs && d != id ::
        after[d].status == if db.docs[id].supersedes == Some(d) then Superseded else db.docs[d].status)
  {
    hide Chained;
  }

  lemma OlderIsOther(db: Db, d: DocId, id: DocId)
    requires TablesOk(db) && d in db.docs && db.docs[d].supersedes == Some(id)
    ensures d != id && !(id in db.docs && db.docs[id].supersedes == Some(d))
  {
    assert ReplacesOlder(db.docs, d);
    hide Chained;
  }

  lemma NewDocumentIsDraft(db: Db, step: Step)
    requires TablesOk(db) && PredecessorsOver(db.docs) && step.Create? && Writable(db, step)
    ensures PredecessorsOver(Apply(db, step).docs)
  {
    hide CodeTakenIn;
    var after := Apply(db, step).docs;
    forall d | d in after
      ensures PredecessorOver(after, d)
    {
      if d != step.id {
        assert PredecessorOver(db.docs, d) && ReplacesOlder(db.docs, d);
      }
    }
  }

  lemma WithdrawalKeepsPredecessors(db: Db, id: DocId)
    requires PredecessorsOver(db.docs) && id in db.docs
    ensures PredecessorsOver(WithStatus(db.docs, id, Withdrawn))
  {
    var after := WithStatus(db.docs, id, Withdrawn);
    forall d | d in after
      ensures PredecessorOver(after, d)
    {
      assert PredecessorOver(db.docs, d);
    }
  }

  lemma UpdateKeepsPredecessors(db: Db, step: Step)
    requires PredecessorsOver(db.docs) && step.Update? && Writable(db, step)
    ensures PredecessorsOver(Apply(db, step).docs)
  {
    var after := Apply(db, step).docs;
    forall d | d in after
      ensures PredecessorOver(after, d)
    {
      assert PredecessorOver(db.docs, d);
    }
  }

  // ---------------------------------------------------------------------------------------------
  // Over whole interleavings
  // ---------------------------------------------------------------------------------------------

  /** Documents in force have a file, and replace none that is in force. */
  ghost predicate Sound(db: Db) {
    FilesOk(db) && PredecessorsOver(db.docs)
  }

  predicate Spoils(state: State, move: Move) {
    && move.Write? && move.request in state.pending
    && (LosesFile(state.db, state.pending[move.request]) || Doubles(state.db, state.pending[move.request]))
  }

  lemma SoundIff(state: State, move: Move)
    requires TablesOk(state.db) && Sound(state.db)
    ensures TablesOk(Next(state, move).db)
    ensures Sound(Next(state, move).db) <==> !Spoils(state, move)
  {
    hide TablesOk, FilesOk, PredecessorsOver, Written, LosesFile, Doubles, Enabled;
    if move.Write? && move.request in state.pending {
      FilesAfterIff(state.db, state.pending[move.request]);
      PredecessorsAfterIff(state.db, state.pending[move.request]);
      WrittenKeepsTables(state.db, state.pending[move.request]);
    }
  }

  ghost predicate SoundAlong(state: State, moves: seq<Move>)
    decreases |moves|
  {
    Sound(state.db) && (moves != [] ==> SoundAlong(Next(state, moves[0]), moves[1..]))
  }

  predicate NeverSpoiled(state: State, moves: seq<Move>)
    decreases |moves|
  {
    moves != [] ==> !Spoils(state, moves[0]) && NeverSpoiled(Next(state, moves[0]), moves[1..])
  }

  /** However requests overlap, every document in force has a file, and the one it replaces is over, throughout exactly
      when no write takes the last file of a document in force, issues one that has lost its files, or issues one whose
      successor is in force. */
  lemma {:induction false} SoundAlongIff(state: State, moves: seq<Move>)
    requires TablesOk(state.db) && Sound(state.db)
    ensures SoundAlong(state, moves) <==> NeverSpoiled(state, moves)
    decreases |moves|
  {
    if moves != [] {
      SoundIff(state, moves[0]);
      hide TablesOk, Sound, Spoils, Next;
      if !Spoils(state, moves[0]) {
        SoundAlongIff(Next(state, moves[0]), moves[1..]);
      }
    }
  }

  predicate IsOver(db: Db, id: DocId) {
    id in db.docs && Over(db.docs[id].status)
  }

  predicate Reissues(state: State, move: Move, id: DocId) {
    move.Write? && move.request in state.pending && state.pending[move.request] == Issue(id)
  }

  /** A document that is over comes back into force exactly by the write of a request that found it a draft. */
  lemma OverStaysIff(state: State, move: Move, id: DocId)
    requires TablesOk(state.db) && IsOver(state.db, id)
    ensures id in Next(state, move).db.docs
    ensures IsOver(Next(state, move).db, id) <==> !Reissues(state, move, id)
  {
    hide Chained, Enabled, Replaced, CodeTakenIn, HasFile;
    if move.Write? && move.request in state.pending && state.pending[move.request].Issue? {
      var issued := state.pending[move.request].id;
      if Writable(state.db, Issue(issued)) {
        IssuedStatus(state.db, issued);
      }
      ReplacedIsStored(state.db, id);
      hide IssuedDocs;
    }
  }

  lemma ReplacedIsStored(db: Db, id: DocId)
    requires TablesOk(db) && id in db.docs
    ensures Writable(db, Issue(id))
  {
    assert ReplacesOlder(db.docs, id);
    hide Chained;
  }

  predicate OverAlong(state: State, moves: seq<Move>, id: DocId)
    decreases |moves|
  {
    IsOver(state.db, id) && (moves != [] ==> OverAlong(Next(state, moves[0]), moves[1..], id))
  }

  predicate NeverReissued(state: State, moves: seq<Move>, id: DocId)
    decreases |moves|
  {
    moves != [] ==> !Reissues(state, moves[0], id) && NeverReissued(Next(state, moves[0]), moves[1..], id)
  }

  lemma {:induction false} OverLastsIff(state: State, moves: seq<Move>, id: DocId)
    requires TablesOk(state.db) && IsOver(state.db, id)
    ensures OverAlong(state, moves, id) <==> NeverReissued(state, moves, id)
    decreases |moves|
  {
    if moves != [] {
      OverStaysIff(state, moves[0], id);
      NextKeepsTables(state, moves[0]);
      hide TablesOk, IsOver, Reissues, Next;
      if !Reissues(state, moves[0], id) {
        OverLastsIff(Next(state, moves[0]), moves[1..], id);
      }
    }
  }

  // ---------------------------------------------------------------------------------------------
  // The interleavings that break the promises
  // ---------------------------------------------------------------------------------------------

  function ReadReadWrite(db: Db, first: Step, second: Step): State {
    Next(Next(Next(State(db, map[]), Read(1, first)), Read(2, second)), Write(2))
  }

  lemma AfterReadReadWrite(db: Db, first: Step, second: Step)
    requires Enabled(db, first) && Enabled(db, second)
    ensures ReadReadWrite(db, first, second).db == Apply(db, second)
    ensures ReadReadWrite(db, first, second).pending == map[1 := first]
  {
    hide CodeTakenIn, Replaced, HasFile, Known;
    assert map[1 := first, 2 := second] - {2} == map[1 := first];
  }

  /** The only file of a draft is removed between the check and the write of its issue. */
  lemma IssuedWithoutFile(db: Db, id: DocId, file: FileId)
    requires Enabled(db, Issue(id)) && Enabled(db, RemoveFile(file)) && !HasFile(db.files - {file}, id)
    ensures var state := ReadReadWrite(db, Issue(id), RemoveFile(file));
      && Spoils(state, Write(1))
      && var after := Next(state, Write(1)).db;
         id in after.docs && after.docs[id].status == Issued && !HasFile(after.files, id)
  {
    AfterReadReadWrite(db, Issue(id), RemoveFile(file));
    hide HasFile, ReadReadWrite;
  }

  /** A draft is issued after its own successor: both are in force. */
  lemma BothInForce(db: Db, p: DocId, d: DocId)
    requires TablesOk(db) && Enabled(db, Issue(p)) && Enabled(db, Issue(d)) && db.docs[d].supersedes == Some(p)
    ensures var state := ReadReadWrite(db, Issue(p), Issue(d));
      && Spoils(state, Write(1))
      && var after := Next(state, Write(1)).db.docs;
         p in after && d in after && after[p].status == Issued && after[d].status == Issued
  {
    AfterReadReadWrite(db, Issue(p), Issue(d));
    OlderIsOther(db, d, p);
    var issued := Apply(db, Issue(d));
    WrittenKeepsTables(db, Issue(d));
    IssuedStatus(db, d);
    IssuedFrame(db.docs, d);
    assert issued.docs[d].status == Issued && issued.docs[d].supersedes == Some(p);
    IssuedStatus(issued, p);
    hide HasFile, ReadReadWrite, IssuedDocs, Chained;
  }
}
