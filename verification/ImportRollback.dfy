/** Rolling an import back undoes its commit, whatever happened to other assets in between, and is
    refused for good once one of its assets has been worked with. */
module ImportRollback {
  import opened Common
  import opened AssetImports
  import opened ImportRuns

  // ---------------------------------------------------------------------------------------------
  // Two registers, one of which holds some extra assets
  // ---------------------------------------------------------------------------------------------

  /** `more` is `less` with the assets of one committed batch added. */
  ghost predicate Beside(more: Db, less: Db, b: BatchId, batch: Batch, extra: map<AssetId, Asset>) {
    && less.assets.Keys !! extra.Keys && more.assets == less.assets + extra
    && more.catalogue == less.catalogue
    && b in more.batches && more.batches[b] == batch
    && more.batches.Keys == less.batches.Keys
    && (forall other | other in more.batches && other != b :: more.batches[other] == less.batches[other])
  }

  /** A step on other assets and other batches. */
  predicate Apart(db: Db, step: Step, b: BatchId, owned: set<AssetId>) {
    match step
    case Stage(batch, _) => batch != b
    case Commit(batch, ids) => batch != b && forall id | id in ids :: id !in owned
    case Rollback(batch) =>
      batch != b && (batch in db.batches ==> forall row | row in db.batches[batch].rows && row.assetId.Some? ::
        row.assetId.value !in owned)
    case Create(id, _) => id !in owned
    case Update(id, _, _, _) => id !in owned
    case Remove(id, _) => id !in owned
    case Elsewhere(id, _) => id !in owned
    case Maintain(_) => true
  }

  predicate ApartRun(db: Db, steps: seq<Step>, b: BatchId, owned: set<AssetId>)
    decreases |steps|
  {
    steps == [] || (Apart(db, steps[0], b, owned) && ApartRun(Perform(db, steps[0]), steps[1..], b, owned))
  }

  lemma GuardBeside(more: Db, less: Db, b: BatchId, batch: Batch, extra: map<AssetId, Asset>, step: Step)
    requires Beside(more, less, b, batch, extra) && Apart(more, step, b, extra.Keys)
    ensures Guard(more, step) <==> Guard(less, step)
    ensures Guard(more, step) ==> Writes(more, step) == Writes(less, step)
    ensures Guard(more, step) ==> forall w | w in Writes(less, step) :: w.id !in extra
  {
    hide Untouched, Operates, Receivable, NewAsset, Entombed;
    if step.Rollback? {
      RollbackBeside(more, less, b, batch, extra, step);
    }
    if step.Commit? && Guard(more, step) {
      forall w | w in Writes(less, step)
        ensures w.id !in extra
      {
        assert w.id in step.ids;
      }
    }
  }

  lemma RollbackBeside(more: Db, less: Db, b: BatchId, batch: Batch, extra: map<AssetId, Asset>, step: Step)
    requires Beside(more, less, b, batch, extra) && Apart(more, step, b, extra.Keys) && step.Rollback?
    ensures Guard(more, step) <==> Guard(less, step)
    ensures Guard(more, step) ==> Writes(more, step) == Writes(less, step)
    ensures Guard(more, step) ==> forall w | w in Writes(less, step) :: w.id !in extra
  {
    hide Untouched, Entombed;
    if step.batch in more.batches {
      assert more.batches[step.batch] == less.batches[step.batch];
      var rows := CommittedOf(more.batches[step.batch].rows);
      forall row | row in rows && row.assetId.Some?
        ensures row.assetId.value in more.assets <==> row.assetId.value in less.assets
        ensures row.assetId.value in less.assets ==> more.assets[row.assetId.value] == less.assets[row.assetId.value]
      {
      }
      if Guard(more, step) {
        assert RollbackWrites(more.assets, rows) == RollbackWrites(less.assets, rows);
        forall w | w in Writes(less, step)
          ensures w.id !in extra
        {
          var i :| 0 <= i < |rows| && RollbackWrites(less.assets, rows)[i] == w;
          assert rows[i] in rows;
        }
      }
    }
  }

  /** A step on other assets commits beside the batch exactly when it commits without it and takes no key of the
      batch. */
  lemma StepBesideIff(more: Db, less: Db, b: BatchId, batch: Batch, extra: map<AssetId, Asset>, step: Step)
    requires Beside(more, less, b, batch, extra) && Apart(more, step, b, extra.Keys)
    ensures Enabled(more, step) <==> (Enabled(less, step) && Clear(extra, Writes(less, step)))
    ensures Enabled(more, step) ==> Beside(Apply(more, step), Apply(less, step), b, batch, extra)
  {
    GuardBeside(more, less, b, batch, extra, step);
    if Guard(more, step) {
      WritesBeside(less.assets, extra, Writes(less, step));
      hide Guard, Writes, WriteAll, Clear;
      if Enabled(more, step) {
        BatchesBeside(more, less, b, batch, extra, step);
      }
    }
  }

  lemma BatchesBeside(more: Db, less: Db, b: BatchId, batch: Batch, extra: map<AssetId, Asset>, step: Step)
    requires Beside(more, less, b, batch, extra) && Apart(more, step, b, extra.Keys)
    requires Guard(more, step) && Guard(less, step)
    ensures var m, l := BatchesAfter(more, step), BatchesAfter(less, step);
      b in m && m[b] == batch && m.Keys == l.Keys && forall other | other in m && other != b :: m[other] == l[other]
  {
    hide CanRollBack, Receivable;
  }

  lemma {:induction false} RunBeside(more: Db, less: Db, b: BatchId, batch: Batch, extra: map<AssetId, Asset>,
                                     steps: seq<Step>)
    requires Beside(more, less, b, batch, extra)
    requires AllCommit(more, steps) && ApartRun(more, steps, b, extra.Keys)
    ensures AllCommit(less, steps) && Beside(Run(more, steps), Run(less, steps), b, batch, extra)
    decreases |steps|
  {
    hide Enabled, Apart, Beside;
    if steps != [] {
      StepBesideIff(more, less, b, batch, extra, steps[0]);
      RunBeside(Perform(more, steps[0]), Perform(less, steps[0]), b, batch, extra, steps[1..]);
    }
  }

  // ---------------------------------------------------------------------------------------------
  // Commit, other steps, rollback
  // ---------------------------------------------------------------------------------------------

  function LiveRegister(assets: map<AssetId, Asset>): map<AssetId, Asset> {
    map id | id in assets && !assets[id].deleted :: assets[id]
  }

  function Received(db: Db, b: BatchId, ids: seq<AssetId>): map<AssetId, Asset>
    requires Enabled(db, Commit(b, ids))
  {
    map id | id in Ids(ids) && id in Apply(db, Commit(b, ids)).assets :: Apply(db, Commit(b, ids)).assets[id]
  }

  function CommittedBatch(db: Db, b: BatchId, ids: seq<AssetId>): Batch
    requires Guard(db, Commit(b, ids))
  {
    BatchesAfter(db, Commit(b, ids))[b]
  }

  /** A commit adds one asset for each row of the batch and changes no other. */
  lemma CommitAdds(db: Db, b: BatchId, ids: seq<AssetId>)
    requires Inv(db) && Enabled(db, Commit(b, ids))
    ensures Beside(Apply(db, Commit(b, ids)), db, b, CommittedBatch(db, b, ids), Received(db, b, ids))
    ensures Received(db, b, ids).Keys == Ids(ids)
    ensures forall i | 0 <= i < |ids| ::
      Received(db, b, ids)[ids[i]] == NewAsset(db.batches[b].rows[i].draft, db.catalogue)
  {
    hide WriteAll, Inv, Receivable, Fits, NewAsset, FreshIds, Writes;
    CommittedAssets(db, b, ids);
    FreshAreNew(db.assets, ids);
    hide Guard;
    var after := Apply(db, Commit(b, ids)).assets;
    assert Received(db, b, ids).Keys == Ids(ids);
    assert after == db.assets + Received(db, b, ids);
  }

  lemma FreshAreNew(assets: map<AssetId, Asset>, ids: seq<AssetId>)
    requires FreshIds(assets, ids)
    ensures assets.Keys !! Ids(ids)
  {
  }

  /** A rollback writes the assets of its batch only. */
  lemma RollbackWritesOwn(db: Db, b: BatchId)
    requires Inv(db) && Enabled(db, Rollback(b))
    ensures Apply(db, Rollback(b)).assets.Keys == db.assets.Keys
    ensures forall id | id in db.assets && !Owns(db.batches[b], id) ::
      Apply(db, Rollback(b)).assets[id] == db.assets[id]
  {
    hide WriteAll, Inv, Untouched, Entombed, CommittedOf;
    var rows := db.batches[b].rows;
    WholeBatch(db, b);
    RollbackTargets(db.assets, rows);
    var writes := RollbackWrites(db.assets, rows);
    assert Writes(db, Rollback(b)) == writes;
    WrittenRows(db.assets, writes);
    hide DistinctIds, DistinctAssets, Guard;
    forall w | w in writes
      ensures w.id in db.assets && Owns(db.batches[b], w.id)
    {
      var i :| 0 <= i < |rows| && writes[i] == w;
      assert rows[i] in rows;
    }
  }

  lemma OwnedByBatch(db: Db, b: BatchId, ids: seq<AssetId>)
    requires Guard(db, Commit(b, ids))
    ensures forall id :: Owns(CommittedBatch(db, b, ids), id) <==> id in Ids(ids)
  {
    hide Receivable, FreshIds;
    var rows := CommittedBatch(db, b, ids).rows;
    forall i | 0 <= i < |ids|
      ensures rows[i] in rows && rows[i].assetId == Some(ids[i])
    {
    }
  }

  /** For every batch: commit, any committed steps on other assets, then rollback leaves the live register, the
      other batches and the catalogue as the same steps leave them without the batch. */
  lemma CommitThenRollbackIsInvisible(db: Db, b: BatchId, ids: seq<AssetId>, steps: seq<Step>)
    requires Inv(db) && Enabled(db, Commit(b, ids))
    requires var mid := Apply(db, Commit(b, ids)); AllCommit(mid, steps) && ApartRun(mid, steps, b, Ids(ids))
    requires Enabled(Run(Apply(db, Commit(b, ids)), steps), Rollback(b))
    ensures AllCommit(db, steps)
    ensures var after := Apply(Run(Apply(db, Commit(b, ids)), steps), Rollback(b)); var plain := Run(db, steps);
      && LiveRegister(after.assets) == LiveRegister(plain.assets)
      && after.catalogue == plain.catalogue
      && after.batches.Keys == plain.batches.Keys
      && forall other | other in plain.batches && other != b :: after.batches[other] == plain.batches[other]
  {
    var mid, batch, extra := Apply(db, Commit(b, ids)), CommittedBatch(db, b, ids), Received(db, b, ids);
    CommitAdds(db, b, ids);
    OwnedByBatch(db, b, ids);
    RunBeside(mid, db, b, batch, extra, steps);
    PerformKeepsInv(db, Commit(b, ids));
    RunKeepsInv(mid, steps);
    var full, plain := Run(mid, steps), Run(db, steps);
    RollbackRestores(full, plain, b, batch, extra);
  }

  lemma RollbackRestores(full: Db, plain: Db, b: BatchId, batch: Batch, extra: map<AssetId, Asset>)
    requires Inv(full) && Beside(full, plain, b, batch, extra) && Enabled(full, Rollback(b))
    requires forall id :: Owns(batch, id) <==> id in extra
    ensures LiveRegister(Apply(full, Rollback(b)).assets) == LiveRegister(plain.assets)
    ensures Apply(full, Rollback(b)).catalogue == plain.catalogue
    ensures var batches := Apply(full, Rollback(b)).batches;
      batches.Keys == plain.batches.Keys && forall other | other in batches && other != b ::
        batches[other] == plain.batches[other]
  {
    hide Inv, Owns, WriteAll, Guard, Entombed, Writes, RolledBackRows, LiveRegister;
    RollbackWritesOwn(full, b);
    var after := Apply(full, Rollback(b)).assets;
    forall id | id in extra
      ensures id in after && after[id].deleted
    {
      EntombedAfterRollback(full, b, id);
      EntombedIsDeleted(id, full.assets[id]);
    }
    SameLiveRegister(plain.assets, extra, after);
  }

  lemma EntombedIsDeleted(id: AssetId, asset: Asset)
    ensures Entombed(id, asset).deleted
  {
  }

  lemma SameLiveRegister(plain: map<AssetId, Asset>, extra: map<AssetId, Asset>, after: map<AssetId, Asset>)
    requires plain.Keys !! extra.Keys && after.Keys == plain.Keys + extra.Keys
    requires forall id | id in plain :: after[id] == plain[id]
    requires forall id | id in extra :: after[id].deleted
    ensures LiveRegister(after) == LiveRegister(plain)
  {
  }

  // ---------------------------------------------------------------------------------------------
  // When the commit goes through
  // ---------------------------------------------------------------------------------------------

  /** New rows whose keys nobody has: neither an asset of the register nor another new row. */
  predicate KeysAreNew(assets: map<AssetId, Asset>, writes: seq<Write>) {
    && (forall i, id | 0 <= i < |writes| && id in assets :: !Shares(assets[id].keys, writes[i].row.keys))
    && (forall i, j | 0 <= i < j < |writes| :: !Shares(writes[i].row.keys, writes[j].row.keys))
  }

  predicate NewRows(assets: map<AssetId, Asset>, writes: seq<Write>) {
    DistinctIds(writes) && forall w | w in writes :: w.id !in assets
  }

  lemma {:induction false} NewRowsCommitIff(assets: map<AssetId, Asset>, writes: seq<Write>)
    requires NewRows(assets, writes)
    ensures WriteAll(assets, writes).Some? <==> KeysAreNew(assets, writes)
    decreases |writes|
  {
    if writes != [] {
      var front, last := writes[..|writes| - 1], writes[|writes| - 1];
      assert writes == front + [last];
      NewRowsCommitIff(assets, front);
      KeysOfLast(assets, front, last);
      hide KeysAreNew, Shares, Collides;
      if WriteAll(assets, front).Some? {
        CollidesWithNew(assets, front, last);
      }
    }
  }

  predicate KeysClash(assets: map<AssetId, Asset>, front: seq<Write>, last: Write) {
    || (exists id | id in assets :: Shares(assets[id].keys, last.row.keys))
    || (exists w | w in front :: Shares(w.row.keys, last.row.keys))
  }

  lemma KeysOfLast(assets: map<AssetId, Asset>, front: seq<Write>, last: Write)
    ensures KeysAreNew(assets, front + [last]) <==> (KeysAreNew(assets, front) && !KeysClash(assets, front, last))
  {
    hide Shares;
    var writes := front + [last];
    assert forall i | 0 <= i < |front| :: writes[i] == front[i];
    assert writes[|front|] == last;
    if KeysAreNew(assets, writes) {
      forall i | 0 <= i < |front|
        ensures !Shares(front[i].row.keys, last.row.keys)
      {
        assert !Shares(writes[i].row.keys, writes[|front|].row.keys);
      }
      forall id | id in assets
        ensures !Shares(assets[id].keys, last.row.keys)
      {
        assert !Shares(assets[id].keys, writes[|front|].row.keys);
      }
    }
  }

  lemma FrontIsNew(assets: map<AssetId, Asset>, front: seq<Write>, last: Write)
    requires NewRows(assets, front + [last])
    ensures NewRows(assets, front) && last.id !in assets && forall w | w in front :: w.id != last.id
  {
    var writes := front + [last];
    assert forall i | 0 <= i < |front| :: writes[i] == front[i];
    assert forall w | w in front :: w in writes;
    assert last in writes;
    forall i | 0 <= i < |front|
      ensures front[i].id != last.id
    {
      assert writes[i].id != writes[|front|].id;
    }
  }

  lemma CollidesWithNew(assets: map<AssetId, Asset>, front: seq<Write>, last: Write)
    requires NewRows(assets, front + [last]) && WriteAll(assets, front).Some?
    ensures Collides(WriteAll(assets, front).value, last.id, last.row.keys) <==> KeysClash(assets, front, last)
  {
    hide Shares;
    FrontIsNew(assets, front, last);
    WrittenRows(assets, front);
    hide NewRows;
    hide WriteAll, DistinctIds;
    var written := WriteAll(assets, front).value;
    if id :| id in assets && Shares(assets[id].keys, last.row.keys) {
      assert id in written && written[id] == assets[id];
    }
    if w :| w in front && Shares(w.row.keys, last.row.keys) {
      assert w.id in written && written[w.id] == w.row;
    }
  }

  /** A guarded commit is refused as a conflict exactly when a key of the batch is taken, by any asset or by another
      row. */
  lemma CommitCommitsIff(db: Db, b: BatchId, ids: seq<AssetId>)
    requires Guard(db, Commit(b, ids))
    ensures Enabled(db, Commit(b, ids)) <==>
      KeysAreNew(db.assets, CommitWrites(db.catalogue, db.batches[b].rows, ids))
  {
    var writes := CommitWrites(db.catalogue, db.batches[b].rows, ids);
    forall w | w in writes
      ensures w.id !in db.assets
    {
      var i :| 0 <= i < |ids| && writes[i] == w;
      assert w.id == ids[i];
    }
    hide NewAsset, Receivable, KeysAreNew;
    NewRowsCommitIff(db.assets, writes);
  }

  // ---------------------------------------------------------------------------------------------
  // When the rollback commits
  // ---------------------------------------------------------------------------------------------

  predicate Named(asset: Asset, text: string) {
    (AssetTag in asset.keys && asset.keys[AssetTag] == text) || (Barcode in asset.keys && asset.keys[Barcode] == text)
  }

  /** No asset written later than the i-th has the i-th tombstone for its tag or barcode. */
  predicate TombstoneFree(assets: map<AssetId, Asset>, ids: seq<AssetId>, i: nat)
    requires i < |ids|
  {
    forall other | other in assets && other !in ids[..i + 1] :: !Named(assets[other], Tombstone(ids[i]))
  }

  lemma TombstonesDiffer(a: AssetId, b: AssetId)
    requires Tombstone(a) == Tombstone(b)
    ensures a == b
  {
    assert Tombstone(a)[12..] == a && Tombstone(b)[12..] == b;
  }

  /** What another asset can share with an entombed one. */
  lemma SharesWithEntombed(other: Asset, id: AssetId, asset: Asset)
    requires !Shares(other.keys, asset.keys)
    ensures Shares(other.keys, Entombed(id, asset).keys) <==> Named(other, Tombstone(id))
  {
    var keys := Entombed(id, asset).keys;
    assert keys[AssetTag] == keys[Barcode] == Tombstone(id) && SerialNumber !in keys;
    assert !(SystemUuid in other.keys && SystemUuid in keys && other.keys[SystemUuid] == keys[SystemUuid]);
  }

  function EntombWrites(assets: map<AssetId, Asset>, ids: seq<AssetId>): (w: seq<Write>)
    requires forall id | id in ids :: id in assets
    ensures |w| == |ids|
  {
    seq(|ids|, i requires 0 <= i < |ids| => Write(ids[i], Entombed(ids[i], assets[ids[i]])))
  }

  lemma {:induction false} EntombIff(assets: map<AssetId, Asset>, ids: seq<AssetId>, n: nat)
    requires Unique(assets) && n <= |ids| && (forall id | id in ids :: id in assets)
    requires forall i, j | 0 <= i < j < |ids| :: ids[i] != ids[j]
    ensures WriteAll(assets, EntombWrites(assets, ids)[..n]).Some? <==> forall i | 0 <= i < n ::
      TombstoneFree(assets, ids, i)
    decreases n
  {
    hide Unique, TombstoneFree, Entombed, Collides;
    if n > 0 {
      var writes := EntombWrites(assets, ids);
      EntombIff(assets, ids, n - 1);
      var front := WriteAll(assets, writes[..n - 1]);
      if front.Some? {
        NextWrite(assets, writes, n - 1, front.value);
        EntombNext(assets, ids, n - 1, front.value);
      } else {
        assert writes[..n][..n - 1] == writes[..n - 1];
      }
    }
  }

  lemma EntombNext(assets: map<AssetId, Asset>, ids: seq<AssetId>, i: nat, written: map<AssetId, Asset>)
    requires Unique(assets) && i < |ids| && (forall id | id in ids :: id in assets)
    requires forall i, j | 0 <= i < j < |ids| :: ids[i] != ids[j]
    requires WriteAll(assets, EntombWrites(assets, ids)[..i]) == Some(written)
    ensures Collides(written, ids[i], Entombed(ids[i], assets[ids[i]]).keys) <==> !TombstoneFree(assets, ids, i)
  {
    hide Entombed, Shares, WriteAll;
    EntombedSoFar(assets, ids, i);
    var id, keys := ids[i], Entombed(ids[i], assets[ids[i]]).keys;
    forall other | other in assets && other != id
      ensures Shares(written[other].keys, keys) <==> other !in ids[..i] && Named(assets[other], Tombstone(id))
    {
      SharesWithEntombed(assets[other], id, assets[id]);
      if other in ids[..i] {
        EntombedDiffer(assets[other], assets[id], other, id);
      }
    }
    hide Named, Unique, EntombWrites, Tombstone;
    assert ids[..i + 1] == ids[..i] + [id];
    assert Collides(written, id, keys) <==> exists other | other in assets && other != id ::
      Shares(written[other].keys, keys);
  }

  lemma EntombedDiffer(a: Asset, b: Asset, idA: AssetId, idB: AssetId)
    requires idA != idB && !Shares(a.keys, b.keys)
    ensures !Shares(Entombed(idA, a).keys, Entombed(idB, b).keys)
  {
    if Tombstone(idA) == Tombstone(idB) {
      TombstonesDiffer(idA, idB);
    }
    var ka, kb := Entombed(idA, a).keys, Entombed(idB, b).keys;
    forall column | column in ka && column in kb
      ensures ka[column] != kb[column]
    {
      if column == SystemUuid {
        assert a.keys[column] == ka[column] && b.keys[column] == kb[column];
      }
    }
  }

  lemma EntombedSoFar(assets: map<AssetId, Asset>, ids: seq<AssetId>, n: nat)
    requires n <= |ids| && (forall id | id in ids :: id in assets)
    requires forall i, j | 0 <= i < j < |ids| :: ids[i] != ids[j]
    requires WriteAll(assets, EntombWrites(assets, ids)[..n]).Some?
    ensures var written := WriteAll(assets, EntombWrites(assets, ids)[..n]).value;
      && written.Keys == assets.Keys
      && forall id | id in assets :: written[id] == if id in ids[..n] then Entombed(id, assets[id]) else assets[id]
  {
    hide WriteAll, Entombed;
    var writes := EntombWrites(assets, ids)[..n];
    WrittenRows(assets, writes);
    assert forall w | w in writes :: w.id in ids[..n];
    forall id | id in ids[..n]
      ensures Write(id, Entombed(id, assets[id])) in writes
    {
      var i :| 0 <= i < n && ids[i] == id;
      assert writes[i] == Write(id, Entombed(id, assets[id]));
    }
  }

  /** After the commit and any steps on other assets, the rollback goes through exactly when nothing is named like its
      tombstones. */
  lemma RollbackCommitsIff(db: Db, b: BatchId, ids: seq<AssetId>, steps: seq<Step>)
    requires Inv(db) && Enabled(db, Commit(b, ids))
    requires var mid := Apply(db, Commit(b, ids)); AllCommit(mid, steps) && ApartRun(mid, steps, b, Ids(ids))
    ensures var full := Run(Apply(db, Commit(b, ids)), steps);
      Enabled(full, Rollback(b)) <==> forall i | 0 <= i < |ids| :: TombstoneFree(full.assets, ids, i)
  {
    var mid, batch, extra := Apply(db, Commit(b, ids)), CommittedBatch(db, b, ids), Received(db, b, ids);
    CommitAdds(db, b, ids);
    RunBeside(mid, db, b, batch, extra, steps);
    PerformKeepsInv(db, Commit(b, ids));
    RunKeepsInv(mid, steps);
    var full := Run(mid, steps);
    assert full.batches[b] == batch;
    forall i | 0 <= i < |ids|
      ensures ids[i] in full.assets && Untouched(full.assets[ids[i]])
    {
      assert ids[i] in extra;
    }
    RollbackOfUntouchedIff(full, b, ids);
  }

  lemma InvIsUnique(db: Db)
    requires Inv(db)
    ensures Unique(db.assets)
  {
  }

  lemma RollbackOfUntouchedIff(db: Db, b: BatchId, ids: seq<AssetId>)
    requires Inv(db) && b in db.batches && db.batches[b].status == BatchCommitted && |ids| == |db.batches[b].rows|
    requires forall i | 0 <= i < |ids| :: db.batches[b].rows[i].assetId == Some(ids[i])
    requires forall i | 0 <= i < |ids| :: ids[i] in db.assets && Untouched(db.assets[ids[i]])
    ensures Enabled(db, Rollback(b)) <==> forall i | 0 <= i < |ids| :: TombstoneFree(db.assets, ids, i)
  {
    hide Untouched, CommittedOf, TombstoneFree, WriteAll, Entombed, Inv;
    var rows := db.batches[b].rows;
    WholeBatch(db, b);
    assert Unique(db.assets) by { InvIsUnique(db); }
    assert Guard(db, Rollback(b)) by {
      forall row | row in rows
        ensures row.assetId.Some? && row.assetId.value in db.assets && Untouched(db.assets[row.assetId.value])
      {
        var i :| 0 <= i < |rows| && rows[i] == row;
        assert rows[i].assetId == Some(ids[i]);
      }
    }
    hide Unique, Guard;
    forall i, j | 0 <= i < j < |ids|
      ensures ids[i] != ids[j]
    {
      assert rows[i].assetId != rows[j].assetId;
    }
    var writes := EntombWrites(db.assets, ids);
    assert RollbackWrites(db.assets, rows) == writes;
    EntombIff(db.assets, ids, |ids|);
    assert writes[..|ids|] == writes;
  }

  /** Every tag, barcode and serial number of the batch is free again, but for the tombstones themselves. */
  lemma KeysAreFreed(db: Db, b: BatchId, id: AssetId, column: Column, other: AssetId)
    requires Inv(db) && Enabled(db, Rollback(b)) && Owns(db.batches[b], id)
    requires id in db.assets && column in db.assets[id].keys && column != SystemUuid
    requires var after := Apply(db, Rollback(b)).assets;
      other in after && column in after[other].keys && after[other].keys[column] == db.assets[id].keys[column]
    ensures Owns(db.batches[b], other) && column != SerialNumber && db.assets[id].keys[column] == Tombstone(other)
  {
    RollbackWritesOwn(db, b);
    EntombedAfterRollback(db, b, id);
    if Owns(db.batches[b], other) {
      EntombedAfterRollback(db, b, other);
    } else {
      assert db.assets[other].keys[column] == db.assets[id].keys[column];
      assert Shares(db.assets[other].keys, db.assets[id].keys);
    }
  }

  // ---------------------------------------------------------------------------------------------
  // Batches that cannot be rolled back any more
  // ---------------------------------------------------------------------------------------------

  /** Something happened to the asset that leaves a lasting trace. */
  predicate Spoiled(asset: Asset) {
    || asset.deleted || asset.histories > 1 || asset.records.assignments > 0 || asset.records.assetReturns > 0
    || asset.records.transfers > 0 || asset.records.maintenance > 0
  }

  /** Every change that writes history or one of these records spoils a received asset. */
  lemma WorkSpoils(db: Db, step: Step)
    requires Inv(db) && Enabled(db, step) && (step.Update? || step.Remove? || step.Elsewhere?)
    requires Untouched(db.assets[step.id])
    ensures Spoiled(Apply(db, step).assets[step.id]) <==>
      (step.Elsewhere? ==>
        step.row.histories > 1 || step.row.records.assignments > 0 || step.row.records.assetReturns > 0
                           || step.row.records.transfers > 0 || step.row.records.maintenance > 0)
  {
    OneWrite(db.assets, Writes(db, step)[0]);
    assert Writes(db, step) == [Writes(db, step)[0]];
  }

  lemma SpoiledByStep(db: Db, step: Step, id: AssetId)
    requires Inv(db) && id in db.assets && Spoiled(db.assets[id])
    ensures id in Perform(db, step).assets && Spoiled(Perform(db, step).assets[id])
  {
    if Enabled(db, step) {
      StepWrites(db, step);
      WrittenRows(db.assets, Writes(db, step));
      hide WriteAll, Inv;
      var writes := Writes(db, step);
      if w :| w in writes && w.id == id {
        SpoiledRow(db, step, w);
      } else {
        assert id !in (set w | w in writes :: w.id);
      }
    }
  }

  lemma SpoiledRow(db: Db, step: Step, w: Write)
    requires Guard(db, step) && w in Writes(db, step) && w.id in db.assets && Spoiled(db.assets[w.id])
    ensures Spoiled(w.row)
  {
    hide Receivable;
  }

  /** One worked-with asset keeps its batch from being rolled back in every later state: each attempt changes
      nothing. */
  lemma {:induction false} SpoiledBatchStays(db: Db, b: BatchId, id: AssetId, steps: seq<Step>)
    requires Inv(db) && b in db.batches && db.batches[b].status == BatchCommitted
    requires Owns(db.batches[b], id) && id in db.assets && Spoiled(db.assets[id])
    ensures var after := Run(db, steps);
      b in after.batches && after.batches[b] == db.batches[b] && Perform(after, Rollback(b)) == after
    decreases |steps|
  {
    RollbackRefused(db, b, id);
    if steps != [] {
      var next := Perform(db, steps[0]);
      SpoiledByStep(db, steps[0], id);
      PerformKeepsInv(db, steps[0]);
      OtherBatchesStay(db, steps[0], b);
      hide Inv, Perform, Spoiled, Owns;
      SpoiledBatchStays(next, b, id, steps[1..]);
    }
  }

  lemma RollbackRefused(db: Db, b: BatchId, id: AssetId)
    requires Inv(db) && b in db.batches && db.batches[b].status == BatchCommitted
    requires Owns(db.batches[b], id) && id in db.assets && Spoiled(db.assets[id])
    ensures !Guard(db, Rollback(b))
  {
    OwnedRow(db, b, id);
    hide Inv, CanRollBack;
  }

  lemma OwnedRow(db: Db, b: BatchId, id: AssetId)
    requires Inv(db) && b in db.batches && db.batches[b].status == BatchCommitted && Owns(db.batches[b], id)
    ensures id in db.assets && (CanRollBack(db, db.batches[b]) ==> Untouched(db.assets[id]))
  {
    hide Inv, Untouched, CommittedOf;
    WholeBatch(db, b);
    var row :| row in db.batches[b].rows && row.assetId == Some(id);
  }

  lemma OtherBatchesStay(db: Db, step: Step, b: BatchId)
    requires b in db.batches && db.batches[b].status == BatchCommitted && !Guard(db, Rollback(b))
    ensures b in Perform(db, step).batches && Perform(db, step).batches[b] == db.batches[b]
  {
    hide WriteAll, CanRollBack, Receivable;
  }

  /** Inventory items are the exception: they hold a rollback up only while their session exists, because deleting
      the session deletes them. */
  lemma InventoryHoldsUpRollback(db: Db, b: BatchId, id: AssetId, items: nat)
    requires Inv(db) && Enabled(db, Rollback(b)) && Owns(db.batches[b], id) && items > 0
    ensures id in db.assets
    ensures var row := db.assets[id].(records := db.assets[id].records.(inventory := items));
      && Enabled(db, Elsewhere(id, row))
      && !Enabled(Apply(db, Elsewhere(id, row)), Rollback(b))
      && Enabled(Apply(db, Elsewhere(id, row)), Elsewhere(id, db.assets[id]))
      && Apply(Apply(db, Elsewhere(id, row)), Elsewhere(id, db.assets[id])) == db
  {
    hide Owns, Inv, WriteAll, Writes, CommittedOf;
    OwnedRow(db, b, id);
    assert db.batches[b].status == BatchCommitted;
    hide CanRollBack;
    var before := db.assets[id];
    var row := before.(records := before.records.(inventory := items));
    assert Untouched(before) && !Untouched(row) && Operates(before, row) && Operates(row, before);
    hide Untouched, Operates;
    ElsewhereCommits(db, id, row);
    PerformKeepsInv(db, Elsewhere(id, row));
    var busy := Apply(db, Elsewhere(id, row));
    OwnedRow(busy, b, id);
    ElsewhereCommits(busy, id, before);
    assert busy.assets[id := before] == db.assets;
  }

  lemma ElsewhereCommits(db: Db, id: AssetId, row: Asset)
    requires Inv(db) && Guard(db, Elsewhere(id, row))
    ensures Enabled(db, Elsewhere(id, row))
    ensures Apply(db, Elsewhere(id, row)) == db.(assets := db.assets[id := row])
  {
    OneWrite(db.assets, Write(id, row));
  }
}
