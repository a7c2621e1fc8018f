/** Versions of the Statement of Applicability when requests overlap: each checks what it has read before its write, and
    others write in between (apps/api/src/modules/compliance/compliance.service.ts). */
module SoaOverlap {
  import opened AnnexA
  import opened Common
  import opened Soa
  import Text

  type RequestId = nat

  /** A request that has passed its checks; `copied` are the entries a new version starts with, as they were read. */
  datatype Pending = Pending(step: Step, copied: map<string, Entry>)

  datatype State = State(db: Db, pending: map<RequestId, Pending>)

  datatype Move =
    | Read(request: RequestId, step: Step)
    | Write(request: RequestId)
    | Abandon(request: RequestId)

  function Copied(db: Db, step: Step): map<string, Entry> {
    if step.Create? && step.cloneFrom.Some? && step.cloneFrom.value in db then db[step.cloneFrom.value].entries
    else map[]
  }

  function Written(db: Db, p: Pending): Db {
    if !Writable(db, p.step) then db
    else if p.step.Create? then db[p.step.id := Version(Text.Trim(p.step.name), Draft, p.copied)]
    else Apply(db, p.step)
  }

  function Next(state: State, move: Move): State {
    match move
    case Read(request, step) =>
      if Enabled(state.db, step) then state.(pending := state.pending[request := Pending(step, Copied(state.db, step))])
      else state
    case Write(request) =>
      if request in state.pending
      then State(Written(state.db, state.pending[request]), state.pending - {request})
      else state
    case Abandon(request) => state.(pending := state.pending - {request})
  }

  function Moves(state: State, moves: seq<Move>): State
    decreases |moves|
  {
    if moves == [] then state else Moves(Next(state, moves[0]), moves[1..])
  }

  // ---------------------------------------------------------------------------------------------
  // What every interleaving keeps
  // ---------------------------------------------------------------------------------------------

  ghost predicate PendingOk(db: Db, p: Pending) {
    && (forall code | code in p.copied :: IsAnnexControlCode(code))
    && match p.step
       case Create(_, _, _) => true
       case UpsertEntry(id, code, _) => id in db && IsAnnexControlCode(code)
       case Issue(id) => id in db && Covers(db[id].entries)
  }

  ghost predicate OverlapInv(state: State) {
    Inv(state.db) && forall r | r in state.pending :: PendingOk(state.db, state.pending[r])
  }

  /** Versions are never deleted and entries never removed. */
  predicate Grows(db: Db, after: Db) {
    forall id | id in db :: id in after && forall code | code in db[id].entries :: code in after[id].entries
  }

  lemma WrittenGrows(db: Db, p: Pending)
    ensures Grows(db, Written(db, p))
  {
    hide NameTakenIn;
  }

  lemma PendingStaysOk(db: Db, after: Db, p: Pending)
    requires Grows(db, after) && PendingOk(db, p)
    ensures PendingOk(after, p)
  {
    hide IsAnnexControlCode;
  }

  lemma WrittenKeepsInv(db: Db, p: Pending)
    requires Inv(db) && PendingOk(db, p)
    ensures Inv(Written(db, p))
  {
    hide Inv, IsAnnexControlCode, Covers;
    if Writable(db, p.step) {
      match p.step
      case Create(id, name, _) => NewVersionKeepsInv(db, id, Version(Text.Trim(name), Draft, p.copied));
      case UpsertEntry(id, code, entry) => EntryKeepsInv(db, id, code, entry);
      case Issue(id) => IssueKeepsInv(db, id);
    }
  }

  lemma NewVersionKeepsInv(db: Db, id: VersionId, version: Version)
    requires Inv(db) && id !in db && !NameTakenIn(db, version.name) && version.status == Draft
    requires forall code | code in version.entries :: IsAnnexControlCode(code)
    ensures Inv(db[id := version])
  {
    hide IsAnnexControlCode, Covers;
  }

  lemma EntryKeepsInv(db: Db, id: VersionId, code: string, entry: Entry)
    requires Inv(db) && id in db && IsAnnexControlCode(code)
    ensures Inv(db[id := db[id].(entries := db[id].entries[code := entry])])
  {
    assert Covers(db[id].entries) ==> Covers(db[id].entries[code := entry]);
    hide IsAnnexControlCode, Covers;
  }

  lemma MoveKeepsInv(state: State, move: Move)
    requires OverlapInv(state)
    ensures OverlapInv(Next(state, move))
  {
    hide Inv, Written, PendingOk, Grows, Enabled, IsAnnexControlCode, Covers, Copied;
    if move.Write? && move.request in state.pending {
      var p := state.pending[move.request];
      WrittenKeepsInv(state.db, p);
      WrittenGrows(state.db, p);
      forall r | r in state.pending
        ensures PendingOk(Written(state.db, p), state.pending[r])
      {
        PendingStaysOk(state.db, Written(state.db, p), state.pending[r]);
      }
    } else if move.Read? && Enabled(state.db, move.step) {
      ReadIsOk(state.db, move.step);
    }
  }

  lemma ReadIsOk(db: Db, step: Step)
    requires Inv(db) && Enabled(db, step)
    ensures PendingOk(db, Pending(step, Copied(db, step)))
  {
    hide Covers, IsAnnexControlCode, NameTakenIn;
  }

  lemma {:induction false} MovesKeepInv(state: State, moves: seq<Move>)
    requires OverlapInv(state)
    ensures OverlapInv(Moves(state, moves))
    decreases |moves|
  {
    if moves != [] {
      MoveKeepsInv(state, moves[0]);
      hide OverlapInv, Next;
      MovesKeepInv(Next(state, moves[0]), moves[1..]);
    }
  }

  const EMPTY := State(map[], map[])

  /** However requests overlap, at most one version is in force, every version that is or was has an entry for exactly
      the 93 controls, and no two have the same name. */
  lemma EveryInterleaving(moves: seq<Move>)
    ensures var db := Moves(EMPTY, moves).db;
      && (forall a, b | a in db && b in db && db[a].name == db[b].name :: a == b)
      && (forall a, b | a in db && b in db && db[a].status == Issued && db[b].status == Issued :: a == b)
      && (forall id | id in db && db[id].status != Draft ::
        (forall code :: code in db[id].entries <==> IsAnnexControlCode(code)) && |db[id].entries| == 93)
  {
    MovesKeepInv(EMPTY, moves);
    var db := Moves(EMPTY, moves).db;
    hide Moves;
    forall id | id in db && db[id].status != Draft
      ensures (forall code :: code in db[id].entries <==> IsAnnexControlCode(code)) && |db[id].entries| == 93
    {
      CompleteEntries(db[id].entries);
    }
  }

  // ---------------------------------------------------------------------------------------------
  // What a write after a stale read may undo
  // ---------------------------------------------------------------------------------------------

  /** A version that has left the draft stays as it is, but for being superseded. */
  predicate Kept(before: Version, after: Version) {
    after == before || (before.status == Issued && after == before.(status := Superseded))
  }

  /** A write that passed its check while the version was a draft: it changes an entry, or brings the version back into
      force. */
  predicate Disturbs(state: State, move: Move, id: VersionId) {
    && id in state.db && move.Write? && move.request in state.pending
    && match state.pending[move.request].step
       case Create(_, _, _) => false
       case UpsertEntry(version, code, entry) =>
         version == id && !(code in state.db[id].entries && state.db[id].entries[code] == entry)
       case Issue(version) => version == id && state.db[id].status == Superseded
  }

  lemma KeptIff(state: State, move: Move, id: VersionId)
    requires OverlapInv(state) && id in state.db && state.db[id].status != Draft
    ensures id in Next(state, move).db && Next(state, move).db[id].status != Draft
    ensures Kept(state.db[id], Next(state, move).db[id]) <==> !Disturbs(state, move, id)
  {
    hide Inv, Covers, IsAnnexControlCode, NameTakenIn, Enabled, PendingOk;
    if move.Write? && move.request in state.pending {
      var p := state.pending[move.request];
      if p.step.UpsertEntry? && p.step.id == id {
        var entries := state.db[id].entries;
        assert entries[p.step.code := p.step.entry] == entries <==>
          p.step.code in entries && entries[p.step.code] == p.step.entry;
      }
    }
  }

  predicate KeptAlong(state: State, moves: seq<Move>, id: VersionId)
    decreases |moves|
  {
    moves != [] ==>
      var next := Next(state, moves[0]);
      && id in state.db && id in next.db && Kept(state.db[id], next.db[id])
      && KeptAlong(next, moves[1..], id)
  }

  predicate NeverDisturbed(state: State, moves: seq<Move>, id: VersionId)
    decreases |moves|
  {
    moves != [] ==> !Disturbs(state, moves[0], id) && NeverDisturbed(Next(state, moves[0]), moves[1..], id)
  }

  /** Over every interleaving, a version that has left the draft is frozen exactly when no such write comes. */
  lemma {:induction false} FrozenIff(state: State, moves: seq<Move>, id: VersionId)
    requires OverlapInv(state) && id in state.db && state.db[id].status != Draft
    ensures KeptAlong(state, moves, id) <==> NeverDisturbed(state, moves, id)
    decreases |moves|
  {
    if moves != [] {
      KeptIff(state, moves[0], id);
      MoveKeepsInv(state, moves[0]);
      hide Next, OverlapInv, Disturbs, Kept;
      FrozenIff(Next(state, moves[0]), moves[1..], id);
    }
  }

  /** Two requests to issue one draft and one to issue another: the version that has been superseded comes back. */
  function IssuesTwice(v: VersionId, w: VersionId): seq<Move> {
    [Read(1, Issue(v)), Read(2, Issue(v)), Read(3, Issue(w)), Write(1), Write(3)]
  }

  lemma SupersededComesBack(db: Db, v: VersionId, w: VersionId)
    requires Enabled(db, Issue(v)) && Enabled(db, Issue(w)) && v != w
    ensures var state := Moves(State(db, map[]), IssuesTwice(v, w));
      && v in state.db && state.db[v].status == Superseded && w in state.db && state.db[w].status == Issued
      && Disturbs(state, Write(2), v)
      && Next(state, Write(2)).db[v].status == Issued && Next(state, Write(2)).db[w].status == Superseded
  {
    hide Enabled, Apply, Moves;
    var moves := IssuesTwice(v, w);
    var issueV, issueW := Pending(Issue(v), map[]), Pending(Issue(w), map[]);
    var read := State(db, map[1 := issueV, 2 := issueV, 3 := issueW]);
    FiveMoves(State(db, map[]), moves);
    ThreeReads(db, v, w);
    assert v in db && w in db by { EnabledIsStored(db, v, w); }
    IssueFrame(db, v);
    var after := Written(db, issueV);
    IssueFrame(after, w);
    var last := Written(after, issueW);
    IssueFrame(last, v);
    assert Next(read, moves[3]).db == after && Next(Next(read, moves[3]), moves[4]).db == last;
    SupersededByIssue(after, w, v);
    SupersededByIssue(last, v, w);
  }

  lemma EnabledIsStored(db: Db, v: VersionId, w: VersionId)
    requires Enabled(db, Issue(v)) && Enabled(db, Issue(w))
    ensures v in db && w in db
  {
  }

  lemma ThreeReads(db: Db, v: VersionId, w: VersionId)
    requires Enabled(db, Issue(v)) && Enabled(db, Issue(w))
    ensures var moves := IssuesTwice(v, w);
      Next(Next(Next(State(db, map[]), moves[0]), moves[1]), moves[2]) ==
      State(db, map[1 := Pending(Issue(v), map[]), 2 := Pending(Issue(v), map[]), 3 := Pending(Issue(w), map[])])
  {
    hide Enabled;
  }

  lemma SupersededByIssue(db: Db, id: VersionId, other: VersionId)
    requires id in db && other in db && other != id && db[other].status == Issued
    ensures Apply(db, Issue(id))[other].status == Superseded
  {
  }

  lemma FiveMoves(state: State, moves: seq<Move>)
    requires |moves| == 5
    ensures Moves(state, moves) == Next(Next(Next(Next(Next(state, moves[0]), moves[1]), moves[2]), moves[3]), moves[4])
  {
    hide Next;
    var first := Next(state, moves[0]);
    var second := Next(first, moves[1]);
    var third := Next(second, moves[2]);
    MovesNext(state, moves, 0);
    MovesNext(first, moves, 1);
    MovesNext(second, moves, 2);
    MovesNext(third, moves, 3);
    MovesNext(Next(third, moves[3]), moves, 4);
    assert moves[0..] == moves && moves[5..] == [];
  }

  lemma MovesNext(state: State, moves: seq<Move>, n: nat)
    requires n < |moves|
    ensures Moves(state, moves[n..]) == Moves(Next(state, moves[n]), moves[n + 1..])
  {
    hide Next;
    assert moves[n..][1..] == moves[n + 1..];
  }

  /** An edit that was let through while its version was a draft changes it after the issue. */
  lemma IssuedIsEdited(db: Db, v: VersionId, code: string, entry: Entry)
    requires Enabled(db, Issue(v)) && Enabled(db, UpsertEntry(v, code, entry)) && db[v].entries[code] != entry
    ensures var moves := [Read(1, UpsertEntry(v, code, entry)), Read(2, Issue(v)), Write(2)];
      var state := Next(Next(Next(State(db, map[]), moves[0]), moves[1]), moves[2]);
      && v in state.db && state.db[v].status == Issued
      && Disturbs(state, Write(1), v) && Next(state, Write(1)).db[v].entries[code] == entry
  {
    hide IsAnnexControlCode;
    IssueFrame(db, v);
  }
}
