/** Which committed imports can still be rolled back, now or after other work on the register
    (apps/api/src/modules/asset-imports/asset-imports.service.ts). */
module ImportFuture {
  import opened Common
  import opened Decimal
  import opened AssetImports
  import opened ImportPipeline
  import opened ImportRollback
  import opened ImportRuns

  ghost predicate Reachable(db: Db) {
    Inv(db) && RegisterOk(db.assets)
  }

  predicate CommittedIn(db: Db, b: BatchId) {
    b in db.batches && db.batches[b].status == BatchCommitted
  }

  /** The asset of the i-th row of a committed batch. */
  function AssetAt(db: Db, b: BatchId, i: nat): AssetId
    requires b in db.batches && i < |db.batches[b].rows|
  {
    var id := db.batches[b].rows[i].assetId; if id.Some? then id.value else ""
  }

  lemma AssetAtIsStored(db: Db, b: BatchId)
    requires Reachable(db) && CommittedIn(db, b)
    ensures forall i | 0 <= i < |db.batches[b].rows| ::
      db.batches[b].rows[i].assetId == Some(AssetAt(db, b, i)) && AssetAt(db, b, i) in db.assets
        && Owns(db.batches[b], AssetAt(db, b, i))
    ensures forall i, j | 0 <= i < j < |db.batches[b].rows| :: AssetAt(db, b, i) != AssetAt(db, b, j)
  {
    hide Inv, RegisterOk, CommittedOf;
    WholeBatch(db, b);
    var rows := db.batches[b].rows;
    forall i | 0 <= i < |rows|
      ensures rows[i].assetId == Some(AssetAt(db, b, i)) && AssetAt(db, b, i) in db.assets
      ensures Owns(db.batches[b], AssetAt(db, b, i))
    {
      assert rows[i] in rows;
    }
    forall i, j | 0 <= i < j < |rows|
      ensures AssetAt(db, b, i) != AssetAt(db, b, j)
    {
      assert rows[i].assetId != rows[j].assetId;
    }
  }

  // ---------------------------------------------------------------------------------------------
  // Batches that are stuck
  // ---------------------------------------------------------------------------------------------

  /** The j-th asset was worked with, or is named like the tombstone of an earlier one. */
  predicate StuckAt(db: Db, b: BatchId, i: nat, j: nat)
    requires b in db.batches && i < |db.batches[b].rows| && j < |db.batches[b].rows| && AssetAt(db, b, j) in db.assets
  {
    Spoiled(db.assets[AssetAt(db, b, j)])
      || (i < j && Named(db.assets[AssetAt(db, b, j)], Tombstone(AssetAt(db, b, i))))
  }

  lemma StuckIsRefused(db: Db, b: BatchId, i: nat, j: nat)
    requires Reachable(db) && CommittedIn(db, b)
    requires i < |db.batches[b].rows| && j < |db.batches[b].rows| && AssetAt(db, b, j) in db.assets
    requires StuckAt(db, b, i, j)
    ensures !Enabled(db, Rollback(b))
  {
    hide Inv, RegisterOk, WriteAll, Writes, Tombstone, Spoiled, Named;
    AssetAtIsStored(db, b);
    if Spoiled(db.assets[AssetAt(db, b, j)]) {
      RollbackRefused(db, b, AssetAt(db, b, j));
    } else if Guard(db, Rollback(b)) {
      var ids := IdsOf(db, b);
      UntouchedAssets(db, b);
      RollbackOfUntouchedIff(db, b, ids);
      assert ids[j] !in ids[..i + 1] by { LaterIsNotEarlier(ids, i, j); }
      assert !TombstoneFree(db.assets, ids, i);
    }
  }

  lemma LaterIsNotEarlier(ids: seq<AssetId>, i: nat, j: nat)
    requires i < j < |ids| && forall k, l | 0 <= k < l < |ids| :: ids[k] != ids[l]
    ensures ids[j] !in ids[..i + 1]
  {
  }

  function IdsOf(db: Db, b: BatchId): (ids: seq<AssetId>)
    requires b in db.batches
    ensures |ids| == |db.batches[b].rows| && forall i | 0 <= i < |ids| :: ids[i] == AssetAt(db, b, i)
  {
    seq(|db.batches[b].rows|, i requires 0 <= i < |db.batches[b].rows| => AssetAt(db, b, i))
  }

  lemma UntouchedAssets(db: Db, b: BatchId)
    requires Reachable(db) && CommittedIn(db, b) && CanRollBack(db, db.batches[b])
    ensures forall i | 0 <= i < |db.batches[b].rows| ::
      AssetAt(db, b, i) in db.assets && Untouched(db.assets[AssetAt(db, b, i)])
  {
    hide Inv, RegisterOk, CanRollBack, Untouched;
    AssetAtIsStored(db, b);
    forall i | 0 <= i < |db.batches[b].rows|
      ensures Untouched(db.assets[AssetAt(db, b, i)])
    {
      OwnedRow(db, b, AssetAt(db, b, i));
    }
  }

  /** A step leaves the keys of an asset alone or spoils it. */
  lemma KeysStayOrSpoil(db: Db, step: Step, id: AssetId)
    requires Reachable(db) && id in db.assets
    ensures id in Perform(db, step).assets
    ensures Spoiled(Perform(db, step).assets[id]) || Perform(db, step).assets[id].keys == db.assets[id].keys
  {
    hide Inv, RegisterOk, WriteAll;
    if Enabled(db, step) {
      StepWrites(db, step);
      WrittenRows(db.assets, Writes(db, step));
      hide Enabled;
      var writes := Writes(db, step);
      if w :| w in writes && w.id == id {
        WriteKeepsKeysOrSpoils(db, step, w);
      } else {
        assert id !in (set w | w in writes :: w.id);
      }
    }
  }

  lemma WriteKeepsKeysOrSpoils(db: Db, step: Step, w: Write)
    requires Reachable(db) && Guard(db, step) && w in Writes(db, step) && w.id in db.assets
    ensures Spoiled(w.row) || w.row.keys == db.assets[w.id].keys
  {
    hide Inv, Receivable;
    assert AssetOk(w.id, db.assets[w.id]);
    hide RegisterOk;
    if step.Rollback? {
      var rows := CommittedOf(db.batches[step.batch].rows);
      var i :| 0 <= i < |rows| && RollbackWrites(db.assets, rows)[i] == w;
    } else if step.Commit? {
      CommitWritesAreNew(db, step);
    }
  }

  lemma CommitWritesAreNew(db: Db, step: Step)
    requires Guard(db, step) && step.Commit?
    ensures forall w | w in Writes(db, step) :: w.id !in db.assets
  {
    hide NewAsset, Receivable;
    CommitTargets(db.catalogue, db.batches[step.batch].rows, step.ids);
    FreshAreNew(db.assets, step.ids);
    hide CommitWrites, FreshIds;
    assert forall w | w in Writes(db, step) :: w.id in Targets(Writes(db, step));
  }

  lemma CommittedBatchStays(db: Db, step: Step, b: BatchId)
    requires CommittedIn(db, b) && !Enabled(db, Rollback(b))
    ensures b in Perform(db, step).batches && Perform(db, step).batches[b] == db.batches[b]
  {
    hide WriteAll, CanRollBack, Receivable;
  }

  lemma {:induction false} StuckForever(db: Db, b: BatchId, i: nat, j: nat, steps: seq<Step>)
    requires Reachable(db) && CommittedIn(db, b)
    requires i < |db.batches[b].rows| && j < |db.batches[b].rows| && AssetAt(db, b, j) in db.assets
    requires StuckAt(db, b, i, j)
    ensures b in Run(db, steps).batches && Run(db, steps).batches[b] == db.batches[b]
    ensures !Enabled(Run(db, steps), Rollback(b))
    decreases |steps|
  {
    hide Inv, RegisterOk, Perform, Enabled, Spoiled, Named, Tombstone;
    StuckIsRefused(db, b, i, j);
    if steps != [] {
      var next := Perform(db, steps[0]);
      PerformKeepsInv(db, steps[0]);
      StepKeepsRegister(db, steps[0]);
      CommittedBatchStays(db, steps[0], b);
      KeysStayOrSpoil(db, steps[0], AssetAt(db, b, j));
      if Spoiled(db.assets[AssetAt(db, b, j)]) {
        SpoiledByStep(db, steps[0], AssetAt(db, b, j));
      } else {
        NamedByKeys(db.assets[AssetAt(db, b, j)], next.assets[AssetAt(db, b, j)], Tombstone(AssetAt(db, b, i)));
      }
      assert StuckAt(next, b, i, j);
      StuckForever(next, b, i, j, steps[1..]);
    }
  }

  lemma NamedByKeys(before: Asset, after: Asset, text: string)
    ensures before.keys == after.keys ==> (Named(before, text) <==> Named(after, text))
  {
  }

  // ---------------------------------------------------------------------------------------------
  // Batches that can be freed
  // ---------------------------------------------------------------------------------------------

  /** Nothing lasting happened to the assets of the batch, and none is named like the tombstone of an earlier one. */
  predicate CanBeFreed(db: Db, b: BatchId)
    requires b in db.batches
  {
    && (forall i | 0 <= i < |db.batches[b].rows| ::
      AssetAt(db, b, i) in db.assets && !Spoiled(db.assets[AssetAt(db, b, i)]))
    && (forall i, j | 0 <= i < j < |db.batches[b].rows| ::
      !Named(db.assets[AssetAt(db, b, j)], Tombstone(AssetAt(db, b, i))))
  }

  lemma {:induction false} RunOfConcat(db: Db, a: seq<Step>, b: seq<Step>)
    ensures Run(db, a + b) == Run(Run(db, a), b)
    decreases |a|
  {
    hide Perform;
    if a == [] {
      assert a + b == b;
    } else {
      assert (a + b)[1..] == a[1..] + b;
      RunOfConcat(Perform(db, a[0]), a[1..], b);
    }
  }

  lemma RunSnoc(db: Db, steps: seq<Step>, step: Step)
    ensures Run(db, steps + [step]) == Perform(Run(db, steps), step)
  {
    hide Perform;
    RunOfConcat(db, steps, [step]);
    assert [step][1..] == [];
  }

  /** The asset as other modules can leave it: back in stock, with nothing referring to it. */
  function PutBack(asset: Asset): Asset {
    asset.(status := Ready, custodian := None, records := NO_RECORDS)
  }

  lemma PutBackIsUntouched(id: AssetId, asset: Asset)
    requires AssetOk(id, asset) && !Spoiled(asset)
    ensures Untouched(PutBack(asset)) && Operates(asset, PutBack(asset)) && PutBack(asset).keys == asset.keys
  {
  }

  /** What putting back the first n assets of a batch leaves. */
  ghost predicate PutBackSoFar(db: Db, after: Db, b: BatchId, n: nat)
    requires b in db.batches && n <= |db.batches[b].rows|
  {
    && Reachable(after) && after.batches == db.batches && after.assets.Keys == db.assets.Keys
    && (forall id | id in db.assets :: after.assets[id].keys == db.assets[id].keys)
    && (forall i | 0 <= i < n :: AssetAt(db, b, i) in after.assets && Untouched(after.assets[AssetAt(db, b, i)]))
    && (forall i | n <= i < |db.batches[b].rows| ::
      AssetAt(db, b, i) in after.assets && !Spoiled(after.assets[AssetAt(db, b, i)]))
  }

  lemma {:induction false} PutBackFirst(db: Db, b: BatchId, n: nat) returns (steps: seq<Step>)
    requires Reachable(db) && CommittedIn(db, b) && n <= |db.batches[b].rows| && CanBeFreed(db, b)
    ensures PutBackSoFar(db, Run(db, steps), b, n)
    decreases n
  {
    hide Inv, RegisterOk, Spoiled, Untouched, Named, Tombstone, Perform, CanBeFreed, PutBackSoFar;
    if n == 0 {
      steps := [];
      NothingPutBack(db, b);
    } else {
      var front := PutBackFirst(db, b, n - 1);
      var mid := Run(db, front);
      var step := PutBackNext(db, mid, b, n - 1);
      steps := front + [step];
      RunSnoc(db, front, step);
    }
  }

  lemma NothingPutBack(db: Db, b: BatchId)
    requires Reachable(db) && CommittedIn(db, b) && CanBeFreed(db, b)
    ensures PutBackSoFar(db, db, b, 0)
  {
  }

  lemma PutBackNext(db: Db, mid: Db, b: BatchId, n: nat) returns (step: Step)
    requires Reachable(db) && CommittedIn(db, b) && n < |db.batches[b].rows| && PutBackSoFar(db, mid, b, n)
    ensures PutBackSoFar(db, Perform(mid, step), b, n + 1)
  {
    hide Inv, RegisterOk, Operates, PutBack, Spoiled, Untouched, AssetOk, Perform;
    var id := AssetAt(db, b, n);
    var row := PutBack(mid.assets[id]);
    step := Elsewhere(id, row);
    RegisterHas(mid.assets, id);
    PutBackIsUntouched(id, mid.assets[id]);
    AssetAtIsStored(db, b);
    PutBackCommits(mid, id);
    PerformKeepsInv(mid, step);
    StepKeepsRegister(mid, step);
    forall i | 0 <= i < |db.batches[b].rows| && i != n
      ensures AssetAt(db, b, i) != id
    {
      if i < n {
        assert AssetAt(db, b, i) != AssetAt(db, b, n);
      } else {
        assert AssetAt(db, b, n) != AssetAt(db, b, i);
      }
    }
    hide AssetAt, Owns, Enabled;
  }

  lemma RegisterHas(assets: map<AssetId, Asset>, id: AssetId)
    requires RegisterOk(assets) && id in assets
    ensures AssetOk(id, assets[id])
  {
  }

  lemma PutBackCommits(db: Db, id: AssetId)
    requires Inv(db) && id in db.assets && Operates(db.assets[id], PutBack(db.assets[id]))
    ensures Perform(db, Elsewhere(id, PutBack(db.assets[id]))) == db.(assets := db.assets[id := PutBack(db.assets[id])])
  {
    hide Inv, PutBack;
    assert !db.assets[id].deleted;
    hide Operates;
    ElsewhereCommits(db, id, PutBack(db.assets[id]));
  }

  // Other assets that stand in the way.

  predicate NamedLikeOne(asset: Asset, db: Db, b: BatchId)
    requires b in db.batches
  {
    exists i | 0 <= i < |db.batches[b].rows| :: Named(asset, Tombstone(AssetAt(db, b, i)))
  }

  function Blockers(db: Db, b: BatchId): set<AssetId>
    requires b in db.batches
  {
    set id | id in db.assets && !Owns(db.batches[b], id) && NamedLikeOne(db.assets[id], db, b)
  }

  /** Short texts, one for each number. */
  function Mark(n: nat): (text: string)
    ensures |text| >= 1 && text[0] == 'X'
  {
    "X" + Numeral(n)
  }

  /** The texts in use under a column. */
  function NamesUnder(assets: map<AssetId, Asset>, column: Column): set<string> {
    set id | id in assets && column in assets[id].keys :: assets[id].keys[column]
  }

  function Names(assets: map<AssetId, Asset>): set<string> {
    NamesUnder(assets, AssetTag) + NamesUnder(assets, Barcode)
  }

  lemma {:induction false} NamesAreFew(assets: map<AssetId, Asset>, column: Column)
    ensures |NamesUnder(assets, column)| <= |assets|
    decreases |assets|
  {
    if assets != map[] {
      var id :| id in assets.Keys;
      var rest := assets - {id};
      assert |rest| == |assets| - 1 by { assert rest.Keys == assets.Keys - {id}; }
      NamesAreFew(rest, column);
      OneMoreName(assets, rest, id, column);
    }
  }

  lemma OneMoreName(assets: map<AssetId, Asset>, rest: map<AssetId, Asset>, id: AssetId, column: Column)
    requires id in assets && rest == assets - {id}
    ensures |NamesUnder(assets, column)| <= |NamesUnder(rest, column)| + 1
  {
    var name := if column in assets[id].keys then assets[id].keys[column] else "";
    forall text | text in NamesUnder(assets, column)
      ensures text in NamesUnder(rest, column) + {name}
    {
      var other :| other in assets && column in assets[other].keys && assets[other].keys[column] == text;
      assert other != id ==> other in rest && rest[other] == assets[other];
    }
    SmallerSet(NamesUnder(assets, column), NamesUnder(rest, column) + {name});
  }

  lemma NamesOfBoth(assets: map<AssetId, Asset>)
    ensures |Names(assets)| <= |NamesUnder(assets, AssetTag)| + |NamesUnder(assets, Barcode)|
  {
  }

  lemma SmallerSet(a: set<string>, b: set<string>)
    requires a <= b
    ensures |a| <= |b|
  {
    assert b == a + (b - a);
  }

  /** Among one more mark than there are texts, one is free. */
  lemma {:induction false} FreeMark(texts: set<string>) returns (n: nat)
    ensures n <= |texts| && Mark(n) !in texts
    decreases |texts|
  {
    n := |texts|;
    if Mark(n) in texts {
      var rest := texts - {Mark(n)};
      var k := FreeMark(rest);
      if Mark(k) == Mark(n) {
        assert Mark(k)[1..] == Numeral(k) && Mark(n)[1..] == Numeral(n);
        NumeralInjective(k, n);
      }
      n := k;
    }
  }

  /** Assets are keyed by UUIDs, of which there are fewer. */
  const MANY := Power10(39)

  lemma MarkFits(n: nat)
    requires n <= 2 * MANY
    ensures KeysFit(map[AssetTag := Mark(n), Barcode := Mark(n)])
  {
    assert Power10(40) == 10 * Power10(39);
    PowerIsPositive(39);
    NumeralLength(n, 40);
    forall c | c in Mark(n)
      ensures c != '\0'
    {
      assert c == 'X' || c in Numeral(n);
    }
    hide Power10, Numeral;
  }

  lemma {:induction false} PowerIsPositive(k: nat)
    ensures Power10(k) > 0
  {
    if k > 0 {
      PowerIsPositive(k - 1);
    }
  }

  /** A deleted asset is named by its own tombstone, which is no tombstone of another asset. */
  lemma BlockersAreLive(db: Db, b: BatchId, id: AssetId)
    requires Reachable(db) && CommittedIn(db, b) && id in Blockers(db, b)
    ensures !db.assets[id].deleted
  {
    AssetAtIsStored(db, b);
    assert AssetOk(id, db.assets[id]);
    hide Inv, RegisterOk;
    var i :| 0 <= i < |db.batches[b].rows| && Named(db.assets[id], Tombstone(AssetAt(db, b, i)));
    var other := AssetAt(db, b, i);
    if db.assets[id].deleted {
      assert Tombstone(other) == Tombstone(id) || Tombstone(other) == DeletedTag(id);
      assert Tombstone(other)[0] == 'R' && DeletedTag(id)[0] == 'D';
      TombstonesDiffer(other, id);
    }
  }

  /** Renaming one asset that stands in the way to a text nobody has. */
  lemma RenameBlocker(db: Db, b: BatchId, id: AssetId) returns (step: Step)
    requires Reachable(db) && CommittedIn(db, b) && id in Blockers(db, b) && |db.assets| <= MANY
    ensures var after := Perform(db, step);
      && Reachable(after) && after.batches == db.batches && after.assets.Keys == db.assets.Keys
      && (forall other | other in db.assets && other != id :: after.assets[other] == db.assets[other])
      && Blockers(after, b) == Blockers(db, b) - {id}
  {
    hide Inv, RegisterOk, Perform, Names, NamesUnder, Blockers, Mark, Power10;
    BlockersAreLive(db, b, id);
    assert id in db.assets by { BlockersAreOthers(db, b); }
    NamesAreFew(db.assets, AssetTag);
    NamesAreFew(db.assets, Barcode);
    NamesOfBoth(db.assets);
    var n := FreeMark(Names(db.assets));
    step := Update(id, map[AssetTag := Mark(n), Barcode := Mark(n)], NO_DETAILS, None);
    RenameCommits(db, id, n);
    PerformKeepsInv(db, step);
    StepKeepsRegister(db, step);
    var after := Perform(db, step);
    MarkIsNoTombstone(db, b, after.assets[id], n);
    BlockersWithout(db, after, b, id);
  }

  lemma BlockersAreOthers(db: Db, b: BatchId)
    requires b in db.batches
    ensures forall id | id in Blockers(db, b) :: id in db.assets && !Owns(db.batches[b], id)
  {
  }

  lemma RenameCommits(db: Db, id: AssetId, n: nat)
    requires Reachable(db) && id in db.assets && !db.assets[id].deleted
    requires Mark(n) !in Names(db.assets) && n <= 2 * MANY
    ensures var keys: Keys := map[AssetTag := Mark(n), Barcode := Mark(n)];
      var row := Updated(db.assets[id], keys, NO_DETAILS, None);
      Perform(db, Update(id, keys, NO_DETAILS, None)) == db.(assets := db.assets[id := row])
  {
    var keys: Keys := map[AssetTag := Mark(n), Barcode := Mark(n)];
    InvIsUnique(db);
    MarkIsFree(db.assets, id, n);
    MarkFits(n);
    OneWrite(db.assets, Write(id, Updated(db.assets[id], keys, NO_DETAILS, None)));
    hide Inv, RegisterOk, Collides, Names, KeysFit, Mark, Power10;
  }

  lemma BlockersWithout(db: Db, after: Db, b: BatchId, id: AssetId)
    requires b in db.batches && after.batches == db.batches && id in db.assets && after.assets.Keys == db.assets.Keys
    requires forall other | other in db.assets && other != id :: after.assets[other] == db.assets[other]
    requires !NamedLikeOne(after.assets[id], db, b)
    ensures Blockers(after, b) == Blockers(db, b) - {id}
  {
    forall asset: Asset
      ensures NamedLikeOne(asset, after, b) <==> NamedLikeOne(asset, db, b)
    {
      SameTombstones(asset, db, after, b);
    }
    hide NamedLikeOne;
  }

  lemma SameTombstones(asset: Asset, db: Db, after: Db, b: BatchId)
    requires b in db.batches && after.batches == db.batches
    ensures NamedLikeOne(asset, after, b) <==> NamedLikeOne(asset, db, b)
  {
    hide Named, Tombstone;
    assert forall i | 0 <= i < |db.batches[b].rows| :: AssetAt(after, b, i) == AssetAt(db, b, i);
  }

  lemma MarkIsFree(assets: map<AssetId, Asset>, id: AssetId, n: nat)
    requires Unique(assets) && id in assets && Mark(n) !in Names(assets)
    ensures !Collides(assets, id, assets[id].keys + map[AssetTag := Mark(n), Barcode := Mark(n)])
  {
    var keys := assets[id].keys + map[AssetTag := Mark(n), Barcode := Mark(n)];
    forall other | other in assets && other != id
      ensures !Shares(assets[other].keys, keys)
    {
      assert !Shares(assets[other].keys, assets[id].keys);
      forall column | column in assets[other].keys && column in keys
        ensures assets[other].keys[column] != keys[column]
      {
        if column == AssetTag || column == Barcode {
          assert assets[other].keys[column] in Names(assets);
        }
      }
    }
  }

  lemma MarkIsNoTombstone(db: Db, b: BatchId, row: Asset, n: nat)
    requires b in db.batches && AssetTag in row.keys && Barcode in row.keys
    requires row.keys[AssetTag] == row.keys[Barcode] == Mark(n)
    ensures !NamedLikeOne(row, db, b)
  {
    forall i | 0 <= i < |db.batches[b].rows|
      ensures !Named(row, Tombstone(AssetAt(db, b, i)))
    {
      assert Tombstone(AssetAt(db, b, i))[0] == 'R';
    }
  }

  lemma {:induction false} RenameAll(db: Db, b: BatchId) returns (steps: seq<Step>)
    requires Reachable(db) && CommittedIn(db, b) && |db.assets| <= MANY
    ensures var after := Run(db, steps);
      && Reachable(after) && after.batches == db.batches && after.assets.Keys == db.assets.Keys
      && (forall id | Owns(db.batches[b], id) && id in db.assets :: after.assets[id] == db.assets[id])
      && Blockers(after, b) == {}
    decreases |Blockers(db, b)|
  {
    hide Inv, RegisterOk, Perform, Blockers, Owns;
    if Blockers(db, b) == {} {
      steps := [];
    } else {
      var id :| id in Blockers(db, b);
      BlockersAreOthers(db, b);
      var first := RenameBlocker(db, b, id);
      var next := Perform(db, first);
      assert |next.assets.Keys| == |db.assets.Keys|;
      var rest := RenameAll(next, b);
      steps := [first] + rest;
      assert steps[1..] == rest;
    }
  }

  lemma FreedIsEnabled(db: Db, b: BatchId)
    requires Reachable(db) && CommittedIn(db, b) && Blockers(db, b) == {} && CanBeFreed(db, b)
    requires forall i | 0 <= i < |db.batches[b].rows| :: Untouched(db.assets[AssetAt(db, b, i)])
    ensures Enabled(db, Rollback(b))
  {
    hide Inv, RegisterOk, Untouched, Spoiled, Enabled, Tombstone, Named;
    AssetAtIsStored(db, b);
    var ids := IdsOf(db, b);
    forall i | 0 <= i < |ids|
      ensures TombstoneFree(db.assets, ids, i)
    {
      forall other | other in db.assets && other !in ids[..i + 1]
        ensures !Named(db.assets[other], Tombstone(ids[i]))
      {
        OthersAreNotNamed(db, b, i, other);
      }
    }
    RollbackOfUntouchedIff(db, b, ids);
  }

  lemma EarlierAreIn(ids: seq<AssetId>, i: nat)
    requires i < |ids|
    ensures forall k | 0 <= k <= i :: ids[k] in ids[..i + 1]
  {
    forall k | 0 <= k <= i
      ensures ids[k] in ids[..i + 1]
    {
      assert ids[..i + 1][k] == ids[k];
    }
  }

  lemma OthersAreNotNamed(db: Db, b: BatchId, i: nat, other: AssetId)
    requires Reachable(db) && CommittedIn(db, b) && Blockers(db, b) == {} && CanBeFreed(db, b)
    requires i < |db.batches[b].rows| && other in db.assets && other !in IdsOf(db, b)[..i + 1]
    ensures !Named(db.assets[other], Tombstone(AssetAt(db, b, i)))
  {
    hide Inv, RegisterOk, Spoiled, Tombstone, Named;
    AssetAtIsStored(db, b);
    if Owns(db.batches[b], other) {
      var row :| row in db.batches[b].rows && row.assetId == Some(other);
      var j :| 0 <= j < |db.batches[b].rows| && db.batches[b].rows[j] == row;
      assert other == AssetAt(db, b, j) == IdsOf(db, b)[j];
      EarlierAreIn(IdsOf(db, b), i);
      assert j > i;
    } else {
      assert other !in Blockers(db, b);
    }
  }

  /** Some continuation lets the rollback of a committed batch through exactly when none of its assets has been worked
      with and none is named like the tombstone of an earlier one of them. */
  lemma RollbackPossibleIff(db: Db, b: BatchId)
    requires Reachable(db) && CommittedIn(db, b) && |db.assets| <= MANY
    ensures (exists steps :: Enabled(Run(db, steps), Rollback(b))) <==> CanBeFreed(db, b)
  {
    if CanBeFreed(db, b) {
      var steps := FreeingSteps(db, b);
    } else {
      AssetAtIsStored(db, b);
      var i, j := StuckWitness(db, b);
      forall steps: seq<Step>
        ensures !Enabled(Run(db, steps), Rollback(b))
      {
        StuckForever(db, b, i, j, steps);
      }
    }
  }

  lemma StuckWitness(db: Db, b: BatchId) returns (i: nat, j: nat)
    requires Reachable(db) && CommittedIn(db, b) && !CanBeFreed(db, b)
    ensures i < |db.batches[b].rows| && j < |db.batches[b].rows| && AssetAt(db, b, j) in db.assets
    ensures StuckAt(db, b, i, j)
  {
    hide Inv, RegisterOk, Spoiled, Named, Tombstone;
    AssetAtIsStored(db, b);
    if k :| 0 <= k < |db.batches[b].rows| && Spoiled(db.assets[AssetAt(db, b, k)]) {
      i, j := k, k;
    } else {
      i, j :| 0 <= i < j < |db.batches[b].rows| && Named(db.assets[AssetAt(db, b, j)], Tombstone(AssetAt(db, b, i)));
    }
  }

  lemma FreeingSteps(db: Db, b: BatchId) returns (steps: seq<Step>)
    requires Reachable(db) && CommittedIn(db, b) && CanBeFreed(db, b) && |db.assets| <= MANY
    ensures Enabled(Run(db, steps), Rollback(b))
  {
    hide Inv, RegisterOk, Spoiled, Untouched, Named, Tombstone, Blockers, Run, Enabled, CanBeFreed, PutBackSoFar;
    var n := |db.batches[b].rows|;
    var first := PutBackFirst(db, b, n);
    var mid := Run(db, first);
    AfterPutBack(db, mid, b);
    assert |mid.assets.Keys| == |db.assets.Keys| by { PutBackKeepsIds(db, mid, b, n); }
    var second := RenameAll(mid, b);
    var after := Run(mid, second);
    AfterRenaming(mid, after, b);
    steps := first + second;
    RunOfConcat(db, first, second);
    FreedIsEnabled(after, b);
  }

  lemma PutBackKeepsIds(db: Db, mid: Db, b: BatchId, n: nat)
    requires b in db.batches && n <= |db.batches[b].rows| && PutBackSoFar(db, mid, b, n)
    ensures mid.assets.Keys == db.assets.Keys
  {
  }

  lemma AfterPutBack(db: Db, mid: Db, b: BatchId)
    requires Reachable(db) && CommittedIn(db, b) && CanBeFreed(db, b) && PutBackSoFar(db, mid, b, |db.batches[b].rows|)
    ensures Reachable(mid) && CommittedIn(mid, b) && CanBeFreed(mid, b)
    ensures forall i | 0 <= i < |mid.batches[b].rows| ::
      AssetAt(mid, b, i) in mid.assets && Untouched(mid.assets[AssetAt(mid, b, i)])
  {
    hide Inv, RegisterOk, Tombstone;
    AssetAtIsStored(db, b);
    forall i | 0 <= i < |db.batches[b].rows|
      ensures AssetAt(mid, b, i) == AssetAt(db, b, i) && !Spoiled(mid.assets[AssetAt(db, b, i)])
    {
      assert Untouched(mid.assets[AssetAt(db, b, i)]);
    }
    hide Spoiled, Untouched;
    forall i, j | 0 <= i < j < |db.batches[b].rows|
      ensures !Named(mid.assets[AssetAt(mid, b, j)], Tombstone(AssetAt(mid, b, i)))
    {
      NamedByKeys(db.assets[AssetAt(db, b, j)], mid.assets[AssetAt(db, b, j)], Tombstone(AssetAt(db, b, i)));
    }
  }

  lemma AfterRenaming(mid: Db, after: Db, b: BatchId)
    requires Reachable(mid) && CommittedIn(mid, b) && CanBeFreed(mid, b)
    requires after.batches == mid.batches && after.assets.Keys == mid.assets.Keys
    requires forall id | Owns(mid.batches[b], id) && id in mid.assets :: after.assets[id] == mid.assets[id]
    requires forall i | 0 <= i < |mid.batches[b].rows| :: Untouched(mid.assets[AssetAt(mid, b, i)])
    ensures CommittedIn(after, b) && CanBeFreed(after, b)
    ensures forall i | 0 <= i < |after.batches[b].rows| ::
      AssetAt(after, b, i) in after.assets && Untouched(after.assets[AssetAt(after, b, i)])
  {
    hide Inv, RegisterOk, Tombstone, Spoiled, Untouched, Named, Owns;
    AssetAtIsStored(mid, b);
    forall i | 0 <= i < |mid.batches[b].rows|
      ensures AssetAt(after, b, i) == AssetAt(mid, b, i)
      ensures after.assets[AssetAt(mid, b, i)] == mid.assets[AssetAt(mid, b, i)]
    {
    }
  }
}
