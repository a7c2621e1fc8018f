/** What commits, rollbacks and the other writers of the register keep over whole runs. */
module ImportRuns {
  import opened Common
  import opened AssetImports

  function Run(db: Db, steps: seq<Step>): Db
    decreases |steps|
  {
    if steps == [] then db else Run(Perform(db, steps[0]), steps[1..])
  }

  predicate AllCommit(db: Db, steps: seq<Step>)
    decreases |steps|
  {
    steps == [] || (Enabled(db, steps[0]) && AllCommit(Perform(db, steps[0]), steps[1..]))
  }

  // ---------------------------------------------------------------------------------------------
  // Writes and keys
  // ---------------------------------------------------------------------------------------------

  ghost predicate Unique(assets: map<AssetId, Asset>) {
    forall a, b | a in assets && b in assets && a != b :: !Shares(assets[a].keys, assets[b].keys)
  }

  lemma SharesIsSymmetric(a: Keys, b: Keys)
    ensures Shares(a, b) <==> Shares(b, a)
  {
  }

  lemma {:induction false} WritesKeepUnique(assets: map<AssetId, Asset>, writes: seq<Write>)
    requires Unique(assets) && WriteAll(assets, writes).Some?
    ensures Unique(WriteAll(assets, writes).value)
    decreases |writes|
  {
    if writes != [] {
      WritesKeepUnique(assets, writes[..|writes| - 1]);
      var last := writes[|writes| - 1];
      var before := WriteAll(assets, writes[..|writes| - 1]).value;
      assert !Collides(before, last.id, last.row.keys);
      forall other | other in before && other != last.id
        ensures !Shares(before[other].keys, last.row.keys) && !Shares(last.row.keys, before[other].keys)
      {
        SharesIsSymmetric(before[other].keys, last.row.keys);
      }
      hide Shares;
      assert WriteAll(assets, writes).value == before[last.id := last.row];
    }
  }

  predicate DistinctIds(writes: seq<Write>) {
    forall i, j | 0 <= i < j < |writes| :: writes[i].id != writes[j].id
  }

  /** What the writes of one transaction leave at each id. */
  lemma {:induction false} WrittenRows(assets: map<AssetId, Asset>, writes: seq<Write>)
    requires WriteAll(assets, writes).Some? && DistinctIds(writes)
    ensures WriteAll(assets, writes).value.Keys == assets.Keys + (set w | w in writes :: w.id)
    ensures forall w | w in writes :: WriteAll(assets, writes).value[w.id] == w.row
    ensures forall id | id in assets && id !in (set w | w in writes :: w.id) ::
      WriteAll(assets, writes).value[id] == assets[id]
    decreases |writes|
  {
    hide Collides;
    if writes != [] {
      var front, last := writes[..|writes| - 1], writes[|writes| - 1];
      assert writes == front + [last];
      WrittenRows(assets, front);
      OneMoreWrite(writes);
    }
  }

  lemma OneMoreWrite(writes: seq<Write>)
    requires writes != [] && DistinctIds(writes)
    ensures var front, last := writes[..|writes| - 1], writes[|writes| - 1];
      && (set w | w in writes :: w.id) == (set w | w in front :: w.id) + {last.id}
      && (forall w | w in front :: w.id != last.id)
  {
    var front, last := writes[..|writes| - 1], writes[|writes| - 1];
    assert writes == front + [last];
    forall w | w in front
      ensures w.id != last.id
    {
      var i :| 0 <= i < |front| && front[i] == w;
      assert writes[i].id != writes[|writes| - 1].id;
    }
  }

  lemma CollidesInUnion(base: map<AssetId, Asset>, extra: map<AssetId, Asset>, id: AssetId, keys: Keys)
    requires base.Keys !! extra.Keys
    ensures Collides(base + extra, id, keys) <==> (Collides(base, id, keys) || Collides(extra, id, keys))
  {
    hide Shares;
    if Collides(base, id, keys) {
      var other :| other in base && other != id && Shares(base[other].keys, keys);
      assert other in base + extra && (base + extra)[other] == base[other];
    }
    if Collides(extra, id, keys) {
      var other :| other in extra && other != id && Shares(extra[other].keys, keys);
      assert other in base + extra && (base + extra)[other] == extra[other];
    }
  }

  predicate Clear(extra: map<AssetId, Asset>, writes: seq<Write>) {
    forall w | w in writes :: !Collides(extra, w.id, w.row.keys)
  }

  lemma OverwriteBeside(base: map<AssetId, Asset>, extra: map<AssetId, Asset>, write: Write)
    requires base.Keys !! extra.Keys && write.id !in extra
    ensures (base + extra)[write.id := write.row] == base[write.id := write.row] + extra
    ensures base[write.id := write.row].Keys !! extra.Keys
  {
  }

  lemma ClearOfLast(extra: map<AssetId, Asset>, front: seq<Write>, last: Write)
    ensures Clear(extra, front + [last]) <==> (Clear(extra, front) && !Collides(extra, last.id, last.row.keys))
  {
    hide Collides;
    assert last in front + [last];
  }

  /** Writes to other assets go through beside some extra assets exactly when they go through without
      them and take none of their keys. */
  lemma {:induction false} WritesBeside(base: map<AssetId, Asset>, extra: map<AssetId, Asset>, writes: seq<Write>)
    requires base.Keys !! extra.Keys && forall w | w in writes :: w.id !in extra
    ensures WriteAll(base + extra, writes).Some? <==> (WriteAll(base, writes).Some? && Clear(extra, writes))
    ensures WriteAll(base + extra, writes).Some? ==>
      && WriteAll(base + extra, writes).value == WriteAll(base, writes).value + extra
      && WriteAll(base, writes).value.Keys !! extra.Keys
    decreases |writes|
  {
    hide Shares;
    if writes != [] {
      var front, last := writes[..|writes| - 1], writes[|writes| - 1];
      assert writes == front + [last];
      WritesBeside(base, extra, front);
      ClearOfLast(extra, front, last);
      hide Clear, Collides;
      if WriteAll(base + extra, front).Some? {
        var written := WriteAll(base, front).value;
        CollidesInUnion(written, extra, last.id, last.row.keys);
        OverwriteBeside(written, extra, last);
      }
    }
  }

  // ---------------------------------------------------------------------------------------------
  // Batches and the assets they received
  // ---------------------------------------------------------------------------------------------

  predicate Owns(batch: Batch, id: AssetId) {
    exists row | row in batch.rows :: row.assetId == Some(id)
  }

  predicate DistinctAssets(rows: seq<Row>) {
    forall i, j | 0 <= i < j < |rows| :: rows[i].assetId != rows[j].assetId
  }

  predicate BatchOk(assets: map<AssetId, Asset>, batch: Batch) {
    match batch.status
    case Staged =>
      && (forall row | row in batch.rows ::
        row.status in {Valid, Invalid} && row.assetId.None? && row.draft.systemUuid.None?)
      && batch.invalidRows == CountInvalid(batch.rows)
    case BatchCommitted =>
      && batch.committedRows == |batch.rows| && DistinctAssets(batch.rows)
      && (forall row | row in batch.rows :: row.status == Committed && row.assetId.Some? && row.assetId.value in assets)
    case BatchRolledBack =>
      forall row | row in batch.rows ::
        row.status == RolledBack && row.assetId.Some? && row.assetId.value in assets
          && assets[row.assetId.value].deleted
  }

  ghost predicate Inv(db: Db) {
    && Unique(db.assets)
    && (forall b | b in db.batches :: BatchOk(db.assets, db.batches[b]))
    && (forall a, b, id | a in db.batches && b in db.batches && Owns(db.batches[a], id)
      && Owns(db.batches[b], id) :: a == b)
  }

  lemma {:induction false} AllCommitted(rows: seq<Row>)
    requires forall row | row in rows :: row.status == Committed
    ensures CommittedOf(rows) == rows
  {
    if rows != [] {
      var front, last := rows[..|rows| - 1], rows[|rows| - 1];
      assert rows == front + [last];
      assert last in rows && last.status == Committed;
      assert forall row | row in front :: row in rows;
      AllCommitted(front);
      assert CommittedOf(rows) == CommittedOf(front) + [last];
    }
  }

  lemma {:induction false} NoneInvalid(rows: seq<Row>)
    requires CountInvalid(rows) == 0
    ensures forall row | row in rows :: row.status != Invalid
  {
    if rows != [] {
      NoneInvalid(rows[..|rows| - 1]);
      assert rows == rows[..|rows| - 1] + [rows[|rows| - 1]];
    }
  }

  /** Assets are never dropped, a deleted one is never written again, and a step writes each asset at most once. */
  lemma StepWrites(db: Db, step: Step)
    requires Enabled(db, step) && Inv(db)
    ensures DistinctIds(Writes(db, step))
    ensures forall id | id in db.assets :: id in Apply(db, step).assets
    ensures forall id | id in db.assets && db.assets[id].deleted :: Apply(db, step).assets[id] == db.assets[id]
  {
    var writes := Writes(db, step);
    WriteTargets(db, step);
    WrittenRows(db.assets, writes);
    hide Guard, WriteAll, Collides, Writes;
    forall id | id in db.assets && db.assets[id].deleted
      ensures Apply(db, step).assets[id] == db.assets[id]
    {
      assert id !in (set w | w in writes :: w.id);
    }
  }

  function Ids(ids: seq<AssetId>): set<AssetId> {
    set id | id in ids
  }

  function Targets(writes: seq<Write>): set<AssetId> {
    set w | w in writes :: w.id
  }

  /** A commit writes the ids it was given, once each. */
  lemma CommitTargets(catalogue: Catalogue, rows: seq<Row>, ids: seq<AssetId>)
    requires |ids| == |rows| && forall i, j | 0 <= i < j < |ids| :: ids[i] != ids[j]
    ensures DistinctIds(CommitWrites(catalogue, rows, ids))
    ensures Targets(CommitWrites(catalogue, rows, ids)) == Ids(ids)
  {
    hide NewAsset;
    var writes := CommitWrites(catalogue, rows, ids);
    forall i | 0 <= i < |ids|
      ensures writes[i].id == ids[i] && ids[i] in Targets(writes)
    {
      assert writes[i] in writes;
    }
    assert Targets(writes) == Ids(ids);
  }

  /** A rollback writes the assets of the rows, once each. */
  lemma RollbackTargets(assets: map<AssetId, Asset>, rows: seq<Row>)
    requires DistinctAssets(rows) && forall row | row in rows :: row.assetId.Some? && row.assetId.value in assets
    ensures DistinctIds(RollbackWrites(assets, rows))
  {
    hide Entombed;
    var writes := RollbackWrites(assets, rows);
    forall i | 0 <= i < |rows|
      ensures Some(writes[i].id) == rows[i].assetId
    {
      assert rows[i] in rows;
    }
    forall i, j | 0 <= i < j < |writes|
      ensures writes[i].id != writes[j].id
    {
      assert rows[i].assetId != rows[j].assetId;
    }
  }

  /** The rows of a committed batch are committed without exception, so a rollback never meets an incomplete batch. */
  lemma WholeBatch(db: Db, b: BatchId)
    requires Inv(db) && b in db.batches && db.batches[b].status == BatchCommitted
    ensures CommittedOf(db.batches[b].rows) == db.batches[b].rows && |db.batches[b].rows| == db.batches[b].committedRows
    ensures forall row | row in db.batches[b].rows :: row.assetId.Some? && row.assetId.value in db.assets
    ensures DistinctAssets(db.batches[b].rows)
  {
    hide Unique, Owns;
    assert BatchOk(db.assets, db.batches[b]);
    AllCommitted(db.batches[b].rows);
  }

  lemma WriteTargets(db: Db, step: Step)
    requires Guard(db, step) && Inv(db)
    ensures DistinctIds(Writes(db, step))
    ensures forall w | w in Writes(db, step) :: w.id in db.assets ==> !db.assets[w.id].deleted
  {
    hide Inv;
    if step.Commit? {
      hide NewAsset, Receivable;
      CommitTargets(db.catalogue, db.batches[step.batch].rows, step.ids);
      hide CommitWrites, DistinctIds;
      assert forall w | w in Writes(db, step) :: w.id in Targets(Writes(db, step));
    } else if step.Rollback? {
      RollbackWritesLive(db, step.batch);
    } else {
      hide NewAsset, Receivable, Operates, Removed, Updated;
    }
  }

  lemma RollbackWritesLive(db: Db, b: BatchId)
    requires Guard(db, Rollback(b)) && Inv(db)
    ensures DistinctIds(Writes(db, Rollback(b)))
    ensures forall w | w in Writes(db, Rollback(b)) :: w.id in db.assets && !db.assets[w.id].deleted
  {
    hide Inv, CommittedOf, Entombed;
    var rows := db.batches[b].rows;
    WholeBatch(db, b);
    RollbackTargets(db.assets, rows);
    hide DistinctIds, DistinctAssets;
    var writes := RollbackWrites(db.assets, rows);
    assert Writes(db, Rollback(b)) == writes;
    forall w | w in writes
      ensures w.id in db.assets && !db.assets[w.id].deleted
    {
      var i :| 0 <= i < |rows| && writes[i] == w;
      assert rows[i] in rows;
    }
  }

  lemma PerformKeepsInv(db: Db, step: Step)
    requires Inv(db)
    ensures Inv(Perform(db, step))
  {
    if Enabled(db, step) {
      StepWrites(db, step);
      WritesKeepUnique(db.assets, Writes(db, step));
      OwnershipAfter(db, step);
      hide WriteAll, Unique, Owns, BatchOk, Guard, BatchesAfter, Writes;
      forall b | b in Apply(db, step).batches
        ensures BatchOk(Apply(db, step).assets, Apply(db, step).batches[b])
      {
        StepKeepsBatch(db, step, b);
      }
    }
  }

  /** A batch stays sound while assets are only added and deleted ones stay as they are. */
  lemma BatchStaysOk(assets: map<AssetId, Asset>, later: map<AssetId, Asset>, batch: Batch)
    requires BatchOk(assets, batch)
    requires forall id | id in assets :: id in later
    requires forall id | id in assets && assets[id].deleted :: later[id] == assets[id]
    ensures BatchOk(later, batch)
  {
  }

  lemma StepKeepsBatch(db: Db, step: Step, b: BatchId)
    requires Inv(db) && Enabled(db, step) && b in BatchesAfter(db, step)
    ensures BatchOk(Apply(db, step).assets, BatchesAfter(db, step)[b])
  {
    hide Collides, Shares, Unique;
    StepWrites(db, step);
    if step.Commit? && step.batch == b {
      CommitIsSound(db, step);
    } else if step.Rollback? && step.batch == b {
      RollbackIsSound(db, step);
    } else if b in db.batches {
      hide WriteAll, Writes, BatchOk, Owns;
      assert BatchOk(db.assets, db.batches[b]);
      BatchStaysOk(db.assets, Apply(db, step).assets, db.batches[b]);
    }
  }

  lemma CommittedAssets(db: Db, b: BatchId, ids: seq<AssetId>)
    requires Inv(db) && Enabled(db, Commit(b, ids))
    ensures var after := Apply(db, Commit(b, ids)).assets;
      && after.Keys == db.assets.Keys + Ids(ids)
      && (forall id | id in db.assets :: after[id] == db.assets[id])
      && (forall i | 0 <= i < |ids| :: after[ids[i]] == NewAsset(db.batches[b].rows[i].draft, db.catalogue))
  {
    hide Inv, Receivable, NewAsset, WriteAll;
    var writes := CommitWrites(db.catalogue, db.batches[b].rows, ids);
    CommitTargets(db.catalogue, db.batches[b].rows, ids);
    WrittenRows(db.assets, writes);
    assert FreshIds(db.assets, ids);
    hide DistinctIds, Guard;
    forall i | 0 <= i < |ids|
      ensures writes[i] in writes && writes[i] == Write(ids[i], NewAsset(db.batches[b].rows[i].draft, db.catalogue))
    {
    }
    hide CommitWrites;
    assert Targets(writes) == (set w | w in writes :: w.id);
    assert forall id | id in db.assets :: id !in Ids(ids);
  }

  lemma CommittedRowsAreOk(rows: seq<Row>, ids: seq<AssetId>, assets: map<AssetId, Asset>)
    requires |ids| == |rows| && forall i, j | 0 <= i < j < |ids| :: ids[i] != ids[j]
    requires forall id | id in Ids(ids) :: id in assets
    ensures DistinctAssets(CommittedRows(rows, ids))
    ensures forall row | row in CommittedRows(rows, ids) ::
      row.status == Committed && row.assetId.Some? && row.assetId.value in assets
  {
    forall row | row in CommittedRows(rows, ids)
      ensures row.status == Committed && row.assetId.Some? && row.assetId.value in assets
    {
      var i :| 0 <= i < |rows| && CommittedRows(rows, ids)[i] == row;
      assert ids[i] in Ids(ids);
    }
  }

  lemma CommitIsSound(db: Db, step: Step)
    requires Inv(db) && Enabled(db, step) && step.Commit?
    ensures BatchOk(Apply(db, step).assets, BatchesAfter(db, step)[step.batch])
  {
    hide Inv, WriteAll, Receivable, Writes;
    CommittedAssets(db, step.batch, step.ids);
    CommittedRowsAreOk(db.batches[step.batch].rows, step.ids, Apply(db, step).assets);
    hide CommittedRows, DistinctAssets, NewAsset;
  }

  lemma RowsRolledBack(rows: seq<Row>)
    requires forall row | row in rows :: row.status == Committed
    ensures forall row | row in RolledBackRows(rows) :: row.status == RolledBack && row.(status := Committed) in rows
  {
    forall row | row in RolledBackRows(rows)
      ensures row.status == RolledBack && row.(status := Committed) in rows
    {
      var i :| 0 <= i < |rows| && RolledBackRows(rows)[i] == row;
      assert rows[i] in rows;
    }
  }

  /** The assets of a committed batch are all written and marked deleted when it is rolled back. */
  lemma EntombedAfterRollback(db: Db, batch: BatchId, id: AssetId)
    requires Inv(db) && Enabled(db, Rollback(batch)) && Owns(db.batches[batch], id)
    ensures id in db.assets && id in Apply(db, Rollback(batch)).assets
    ensures Apply(db, Rollback(batch)).assets[id] == Entombed(id, db.assets[id])
  {
    hide WriteAll, Inv, Untouched, Entombed, CommittedOf;
    var rows := db.batches[batch].rows;
    WholeBatch(db, batch);
    RollbackTargets(db.assets, rows);
    var writes := RollbackWrites(db.assets, rows);
    assert Writes(db, Rollback(batch)) == writes;
    WrittenRows(db.assets, writes);
    hide DistinctAssets, DistinctIds, Guard;
    var i :| 0 <= i < |rows| && rows[i].assetId == Some(id);
    assert writes[i] in writes;
  }

  lemma RollbackIsSound(db: Db, step: Step)
    requires Inv(db) && Enabled(db, step) && step.Rollback?
    ensures BatchOk(Apply(db, step).assets, BatchesAfter(db, step)[step.batch])
  {
    hide WriteAll, Inv, Untouched, Writes, CommittedOf;
    var batch := db.batches[step.batch];
    WholeBatch(db, step.batch);
    AllRowsCommitted(db, step.batch);
    RowsRolledBack(batch.rows);
    hide RolledBackRows, DistinctAssets, Guard;
    forall row | row in batch.rows
      ensures row.assetId.Some? && row.assetId.value in Apply(db, step).assets
      ensures Apply(db, step).assets[row.assetId.value].deleted
    {
      assert Owns(batch, row.assetId.value);
      EntombedAfterRollback(db, step.batch, row.assetId.value);
    }
  }

  lemma AllRowsCommitted(db: Db, b: BatchId)
    requires Inv(db) && b in db.batches && db.batches[b].status == BatchCommitted
    ensures forall row | row in db.batches[b].rows :: row.status == Committed
  {
    hide Unique, Owns;
    assert BatchOk(db.assets, db.batches[b]);
  }

  lemma OwnershipAfter(db: Db, step: Step)
    requires Inv(db) && Enabled(db, step)
    ensures forall a, b, id | a in BatchesAfter(db, step) && b in BatchesAfter(db, step)
      && Owns(BatchesAfter(db, step)[a], id) && Owns(BatchesAfter(db, step)[b], id) :: a == b
  {
    hide Guard, WriteAll, Owns, BatchesAfter, Inv, Writes;
    forall a, b, id | a in BatchesAfter(db, step) && b in BatchesAfter(db, step)
      && Owns(BatchesAfter(db, step)[a], id) && Owns(BatchesAfter(db, step)[b], id)
      ensures a == b
    {
      SoleOwner(db, step, a, b, id);
    }
  }

  lemma SoleOwner(db: Db, step: Step, a: BatchId, b: BatchId, id: AssetId)
    requires Inv(db) && Enabled(db, step)
    requires a in BatchesAfter(db, step) && b in BatchesAfter(db, step)
    requires Owns(BatchesAfter(db, step)[a], id) && Owns(BatchesAfter(db, step)[b], id)
    ensures a == b
  {
    OwnedAfter(db, step, a, id);
    OwnedAfter(db, step, b, id);
    OwnedIsStored(db, id);
    hide Guard, WriteAll, Owns, BatchesAfter, BatchOk, Unique, Writes;
  }

  lemma OwnedIsStored(db: Db, id: AssetId)
    requires Inv(db)
    ensures forall b | b in db.batches && Owns(db.batches[b], id) :: id in db.assets
  {
    hide Unique;
    forall b | b in db.batches && Owns(db.batches[b], id)
      ensures id in db.assets
    {
      assert BatchOk(db.assets, db.batches[b]);
    }
  }

  /** Only a commit gives a batch assets, and those are new. */
  lemma OwnedAfter(db: Db, step: Step, b: BatchId, id: AssetId)
    requires Inv(db) && Enabled(db, step) && b in BatchesAfter(db, step) && Owns(BatchesAfter(db, step)[b], id)
    ensures (b in db.batches && Owns(db.batches[b], id)) || (step.Commit? && b == step.batch && id !in db.assets)
  {
    hide WriteAll, Unique, CanRollBack, Receivable, BatchOk, Untouched, Live;
    if step.Rollback? && step.batch == b {
      var rows := BatchesAfter(db, step)[b].rows;
      var i :| 0 <= i < |rows| && rows[i].assetId == Some(id);
      assert db.batches[b].rows[i].assetId == Some(id);
    }
  }

  lemma {:induction false} RunKeepsInv(db: Db, steps: seq<Step>)
    requires Inv(db)
    ensures Inv(Run(db, steps))
    decreases |steps|
  {
    hide Inv, Perform;
    if steps != [] {
      PerformKeepsInv(db, steps[0]);
      RunKeepsInv(Perform(db, steps[0]), steps[1..]);
    }
  }
}
