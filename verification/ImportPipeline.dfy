/** From a staged list to committed assets: what a batch that staging reports as clean can still be refused for
    (apps/api/src/modules/asset-imports/asset-imports.service.ts). */
module ImportPipeline {
  import opened Common
  import opened AssetImports
  import opened ImportRuns
  import R = ImportRollback
  import S = ImportStaging
  import Text

  // ---------------------------------------------------------------------------------------------
  // What every asset of a reachable register looks like
  // ---------------------------------------------------------------------------------------------

  /** The keys a deleted asset is left with, besides a system UUID. */
  predicate Buried(id: AssetId, keys: Keys) {
    && AssetTag in keys && Barcode in keys && SerialNumber !in keys
    && keys[AssetTag] == keys[Barcode] && keys[AssetTag] in {Tombstone(id), DeletedTag(id)}
  }

  /** Every asset has a tag, a barcode and a history, and a deleted one is named by its tombstone. */
  predicate AssetOk(id: AssetId, asset: Asset) {
    && AssetTag in asset.keys && Barcode in asset.keys && asset.histories >= 1
    && (asset.deleted ==> Buried(id, asset.keys))
  }

  ghost predicate RegisterOk(assets: map<AssetId, Asset>) {
    forall id | id in assets :: AssetOk(id, assets[id])
  }

  lemma WritesAreOk(db: Db, step: Step)
    requires Guard(db, step) && RegisterOk(db.assets)
    ensures forall w | w in Writes(db, step) :: AssetOk(w.id, w.row)
  {
    hide Receivable;
    if step.Rollback? {
      var rows := CommittedOf(db.batches[step.batch].rows);
      forall w | w in Writes(db, step)
        ensures AssetOk(w.id, w.row)
      {
        var i :| 0 <= i < |rows| && RollbackWrites(db.assets, rows)[i] == w;
        assert rows[i] in rows;
        assert AssetOk(w.id, db.assets[w.id]);
      }
    } else if step.Commit? {
      forall w | w in Writes(db, step)
        ensures AssetOk(w.id, w.row)
      {
        var i :| 0 <= i < |step.ids| && CommitWrites(db.catalogue, db.batches[step.batch].rows, step.ids)[i] == w;
        NewAssetIsOk(w.id, db.batches[step.batch].rows[i].draft, db.catalogue);
      }
    } else if step.Create? {
      NewAssetIsOk(step.id, step.draft, db.catalogue);
    } else if step.Update? || step.Remove? || step.Elsewhere? {
      assert AssetOk(step.id, db.assets[step.id]);
    }
  }

  lemma NewAssetIsOk(id: AssetId, draft: Draft, catalogue: Catalogue)
    ensures AssetOk(id, NewAsset(draft, catalogue))
  {
  }

  lemma StepKeepsRegister(db: Db, step: Step)
    requires Inv(db) && RegisterOk(db.assets)
    ensures RegisterOk(Perform(db, step).assets)
  {
    hide Inv, WriteAll, Writes, AssetOk, Guard;
    if Enabled(db, step) {
      StepWrites(db, step);
      WrittenRows(db.assets, Writes(db, step));
      WritesAreOk(db, step);
      var writes, after := Writes(db, step), Apply(db, step).assets;
      forall id | id in after
        ensures AssetOk(id, after[id])
      {
        if id in (set w | w in writes :: w.id) {
          var w :| w in writes && w.id == id;
          assert after[id] == w.row;
        }
      }
    }
  }

  lemma {:induction false} RunKeepsRegister(db: Db, steps: seq<Step>)
    requires Inv(db) && RegisterOk(db.assets)
    ensures Inv(Run(db, steps)) && RegisterOk(Run(db, steps).assets)
    decreases |steps|
  {
    hide Inv, Perform, RegisterOk;
    if steps != [] {
      PerformKeepsInv(db, steps[0]);
      StepKeepsRegister(db, steps[0]);
      RunKeepsRegister(Perform(db, steps[0]), steps[1..]);
    }
  }

  // ---------------------------------------------------------------------------------------------
  // From payloads to rows
  // ---------------------------------------------------------------------------------------------

  function TextIn(payload: S.Payload, name: string): string {
    S.TextOf(S.Field(payload, name))
  }

  function Optional(text: string): Option<string> {
    if text == "" then None else Some(text)
  }

  /** The model and the manufacturer a payload names; staging checks their format only. */
  function LooseReferences(payload: S.Payload): set<string> {
    {TextIn(payload, "modelId"), TextIn(payload, "manufacturerId")} - {""}
  }

  /** The number a payload gives under a name, if any. */
  function NumberIn(host: S.Host, payload: S.Payload, name: string): Option<real> {
    if S.Field(payload, name) == S.Undefined then None else host.finiteNumber(S.Field(payload, name))
  }

  function DetailsOf(host: S.Host, payload: S.Payload): Details {
    var date, months := TextIn(payload, "purchaseDate"), NumberIn(host, payload, "warrantyMonths");
    Details(TextIn(payload, "name"), Optional(TextIn(payload, "cpu")), Optional(TextIn(payload, "ram")),
            Optional(TextIn(payload, "storage")), Optional(TextIn(payload, "operatingSystem")),
            Optional(TextIn(payload, "ipAddress")), Optional(TextIn(payload, "macAddress")),
            Optional(TextIn(payload, "notes")),
            if S.Truthy(S.Field(payload, "purchaseDate")) then Some(Date(date, host.dateFits(date))) else None,
            NumberIn(host, payload, "purchaseCost"),
            if months.Some? then Some(months.value.Floor) else None)
  }

  function DraftOf(host: S.Host, payload: S.Payload): Draft {
    Draft(TextIn(payload, "assetTag"), TextIn(payload, "barcode"), Optional(TextIn(payload, "serialNumber")), None,
          DetailsOf(host, payload), TextIn(payload, "warehouseId"),
          {TextIn(payload, "categoryId")} + LooseReferences(payload))
  }

  predicate InRange(order: seq<nat>, n: nat) {
    forall k | 0 <= k < |order| :: order[k] < n
  }

  /** The rows as commit reads them: in the order of their numbers. */
  function StoredRows(host: S.Host, rows: seq<S.Row>, order: seq<nat>): (r: seq<Row>)
    requires InRange(order, |rows|)
    ensures |r| == |order| && forall k | 0 <= k < |order| ::
      r[k] == Row(DraftOf(host, rows[order[k]].payload), Valid, None)
  {
    seq(|order|, k requires 0 <= k < |order| => Row(DraftOf(host, rows[order[k]].payload), Valid, None))
  }

  function IdentityOfAsset(asset: Asset): S.Identity
    requires AssetTag in asset.keys && Barcode in asset.keys
  {
    S.Identity(asset.keys[AssetTag], asset.keys[Barcode],
               if SerialNumber in asset.keys then Some(asset.keys[SerialNumber]) else None)
  }

  /** What staging sees of the register. */
  ghost function RegisterOf(db: Db, categories: set<string>): S.Register
    requires RegisterOk(db.assets)
  {
    S.Register(set id | id in db.assets && !db.assets[id].deleted ::
      (assert AssetOk(id, db.assets[id]); IdentityOfAsset(db.assets[id])),
               categories, db.catalogue.warehouses.Keys)
  }

  // ---------------------------------------------------------------------------------------------
  // Clean batches
  // ---------------------------------------------------------------------------------------------

  /** A row without faults, seen from the commit. */
  predicate CleanRow(db: Db, draft: Draft) {
    && draft.assetTag != "" && draft.barcode != "" && draft.serialNumber != Some("") && draft.systemUuid.None?
    && draft.warehouse in db.catalogue.warehouses
    && forall id | id in db.assets && !db.assets[id].deleted :: !Shares(db.assets[id].keys, KeysOf(draft))
  }

  /** A text that a live asset has under some column is occupied. */
  lemma LiveTextIsOccupied(db: Db, categories: set<string>, id: AssetId, column: Column)
    requires RegisterOk(db.assets) && id in db.assets && !db.assets[id].deleted
    requires column in db.assets[id].keys && column != SystemUuid && db.assets[id].keys[column] != ""
    ensures S.Taken(RegisterOf(db, categories), Text.Lower(db.assets[id].keys[column]))
  {
    assert AssetOk(id, db.assets[id]);
    var identity := IdentityOfAsset(db.assets[id]);
    assert identity in RegisterOf(db, categories).live;
    assert |Text.Lower(db.assets[id].keys[column])| > 0;
    assert Text.Lower(db.assets[id].keys[column]) in S.Occupied(identity);
  }

  lemma NamesOfFields(host: S.Host, row: S.Row)
    ensures S.IdentityOf(row, S.AssetTag) == Text.Lower(DraftOf(host, row.payload).assetTag)
    ensures S.IdentityOf(row, S.Barcode) == Text.Lower(DraftOf(host, row.payload).barcode)
    ensures S.IdentityOf(row, S.SerialNumber) == Text.Lower(TextIn(row.payload, "serialNumber"))
  {
  }

  /** The texts of a row that no live asset occupies are no keys of a live asset. */
  lemma FreeTextsAreNotShared(db: Db, categories: set<string>, id: AssetId, draft: Draft)
    requires RegisterOk(db.assets) && id in db.assets && !db.assets[id].deleted
    requires draft.assetTag != "" && draft.barcode != "" && draft.serialNumber != Some("") && draft.systemUuid.None?
    requires !S.Taken(RegisterOf(db, categories), Text.Lower(draft.assetTag))
    requires !S.Taken(RegisterOf(db, categories), Text.Lower(draft.barcode))
    requires draft.serialNumber.Some? ==> !S.Taken(RegisterOf(db, categories), Text.Lower(draft.serialNumber.value))
    ensures !Shares(db.assets[id].keys, KeysOf(draft))
  {
    var keys := db.assets[id].keys;
    forall column | column in keys && column != SystemUuid && keys[column] != ""
      ensures S.Taken(RegisterOf(db, categories), Text.Lower(keys[column]))
    {
      LiveTextIsOccupied(db, categories, id, column);
    }
    hide S.Taken, RegisterOf, RegisterOk, Text.Lower;
  }

  lemma ValidRowIsClean(db: Db, categories: set<string>, host: S.Host, rows: seq<S.Row>, batch: S.Batch, i: nat)
    requires RegisterOk(db.assets) && S.Reports(batch, host, RegisterOf(db, categories), rows)
    requires i < |rows| && batch.rows[i].status == S.Valid
    ensures CleanRow(db, DraftOf(host, rows[i].payload)) && TextIn(rows[i].payload, "categoryId") in categories
  {
    hide RegisterOk, S.Reports, S.Taken, Text.Trim, Text.Lower, KeysOf, Shares;
    var register, draft := RegisterOf(db, categories), DraftOf(host, rows[i].payload);
    S.ValidRowsAreFree(batch, host, register, rows, i);
    NamesOfFields(host, rows[i]);
    assert S.IdOf(rows[i], "assetTag") != "" && S.IdOf(rows[i], "barcode") != "" by {
      assert S.REQUIRED[0] == "assetTag" && S.REQUIRED[2] == "barcode";
    }
    assert forall field :: !S.Taken(register, S.IdentityOf(rows[i], field)) by { NothingTaken(register, rows[i]); }
    hide S.IdentityOf;
    assert !S.Taken(register, Text.Lower(draft.assetTag)) && !S.Taken(register, Text.Lower(draft.barcode));
    forall id | id in db.assets && !db.assets[id].deleted
      ensures !Shares(db.assets[id].keys, KeysOf(draft))
    {
      FreeTextsAreNotShared(db, categories, id, draft);
    }
  }

  lemma NothingTaken(register: S.Register, row: S.Row)
    requires forall field, asset | asset in register.live :: S.IdentityOf(row, field) !in S.Occupied(asset)
    ensures forall field :: !S.Taken(register, S.IdentityOf(row, field))
  {
    hide S.IdentityOf, S.Occupied;
  }

  lemma DraftsDiffer(a: Draft, b: Draft)
    requires a.assetTag != b.assetTag && a.barcode != b.barcode && a.systemUuid.None?
    requires a.serialNumber.Some? ==> a.serialNumber != b.serialNumber
    ensures !Shares(KeysOf(a), KeysOf(b))
  {
  }

  lemma CleanRowsDiffer(batch: S.Batch, host: S.Host, register: S.Register, rows: seq<S.Row>, i: nat, j: nat)
    requires S.Reports(batch, host, register, rows) && i < |rows| && j < |rows| && i != j
    requires batch.rows[i].status == S.Valid && batch.rows[j].status == S.Valid
    requires DraftOf(host, rows[i].payload).assetTag != "" && DraftOf(host, rows[i].payload).barcode != ""
    ensures !Shares(KeysOf(DraftOf(host, rows[i].payload)), KeysOf(DraftOf(host, rows[j].payload)))
  {
    hide S.Reports, S.IdentityOf, Text.Lower, Text.Trim, KeysOf, Shares;
    var a, b := DraftOf(host, rows[i].payload), DraftOf(host, rows[j].payload);
    DistinctIdentities(batch, host, register, rows, i, j, S.AssetTag);
    DistinctIdentities(batch, host, register, rows, i, j, S.Barcode);
    DistinctIdentities(batch, host, register, rows, i, j, S.SerialNumber);
    NamesOfFields(host, rows[i]);
    NamesOfFields(host, rows[j]);
    LowerIsEmptyIff(a.assetTag);
    LowerIsEmptyIff(a.barcode);
    LowerIsEmptyIff(TextIn(rows[i].payload, "serialNumber"));
    hide TextIn;
    DraftsDiffer(a, b);
  }

  lemma DistinctIdentities(batch: S.Batch, host: S.Host, register: S.Register, rows: seq<S.Row>, i: nat, j: nat,
                           field: S.IdField)
    requires S.Reports(batch, host, register, rows) && i < |rows| && j < |rows| && i != j
    requires batch.rows[i].status == S.Valid && batch.rows[j].status == S.Valid
    ensures S.IdentityOf(rows[i], field) == S.IdentityOf(rows[j], field) ==> S.IdentityOf(rows[i], field) == ""
  {
    hide S.Reports, S.IdentityOf;
    S.ValidRowsAreDistinct(batch, host, register, rows, if i < j then i else j, if i < j then j else i, field);
  }

  lemma LowerIsEmptyIff(s: string)
    ensures Text.Lower(s) == "" <==> s == ""
  {
  }

  /** The tag or the barcode of a row is the tombstone of a deleted asset. */
  predicate NamedLikeTombstone(assets: map<AssetId, Asset>, draft: Draft) {
    exists id | id in assets && assets[id].deleted :: BearsTombstone(assets[id], draft)
  }

  predicate BearsTombstone(asset: Asset, draft: Draft) {
    AssetTag in asset.keys && asset.keys[AssetTag] in {draft.assetTag, draft.barcode}
  }

  /** A deleted asset shares a key with a clean row exactly when the row is named like its tombstone. */
  lemma DeletedSharesIff(id: AssetId, asset: Asset, draft: Draft)
    requires AssetOk(id, asset) && asset.deleted && draft.systemUuid.None?
    ensures Shares(asset.keys, KeysOf(draft)) <==> BearsTombstone(asset, draft)
  {
    var keys := KeysOf(draft);
    assert asset.keys[AssetTag] == asset.keys[Barcode] && SerialNumber !in asset.keys && SystemUuid !in keys;
    if asset.keys[AssetTag] == draft.assetTag {
      assert AssetTag in asset.keys && AssetTag in keys && asset.keys[AssetTag] == keys[AssetTag];
    }
    if asset.keys[AssetTag] == draft.barcode {
      assert Barcode in asset.keys && Barcode in keys && asset.keys[Barcode] == keys[Barcode];
    }
  }

  lemma {:induction false} AllValid(rows: seq<Row>)
    requires forall k | 0 <= k < |rows| :: rows[k].status == Valid
    ensures CountInvalid(rows) == 0
  {
    if rows != [] {
      AllValid(rows[..|rows| - 1]);
    }
  }

  /** The keys of clean rows are new exactly when none is named like a tombstone. */
  lemma CleanKeysAreNewIff(db: Db, writes: seq<Write>, drafts: seq<Draft>)
    requires RegisterOk(db.assets) && |writes| == |drafts|
    requires forall k | 0 <= k < |drafts| :: writes[k].row.keys == KeysOf(drafts[k]) && CleanRow(db, drafts[k])
    requires forall k, l | 0 <= k < l < |drafts| :: !Shares(KeysOf(drafts[k]), KeysOf(drafts[l]))
    ensures R.KeysAreNew(db.assets, writes) <==> forall k | 0 <= k < |drafts| ::
      !NamedLikeTombstone(db.assets, drafts[k])
  {
    hide KeysOf, Shares, AssetOk;
    forall k, id | 0 <= k < |drafts| && id in db.assets
      ensures Shares(db.assets[id].keys, writes[k].row.keys) <==>
        db.assets[id].deleted && BearsTombstone(db.assets[id], drafts[k])
    {
      assert CleanRow(db, drafts[k]);
      if db.assets[id].deleted {
        assert AssetOk(id, db.assets[id]);
        DeletedSharesIff(id, db.assets[id], drafts[k]);
      }
    }
    hide CleanRow, BearsTombstone, RegisterOk;
  }

  function Drafts(rows: seq<Row>): (r: seq<Draft>)
    ensures |r| == |rows| && forall k | 0 <= k < |rows| :: r[k] == rows[k].draft
  {
    seq(|rows|, k requires 0 <= k < |rows| => rows[k].draft)
  }

  predicate LooseReferencesKnown(catalogue: Catalogue, rows: seq<S.Row>, order: seq<nat>)
    requires InRange(order, |rows|)
  {
    forall k | 0 <= k < |order| :: LooseReferences(rows[order[k]].payload) <= catalogue.references
  }

  predicate AllFit(stored: seq<Row>) {
    forall row | row in stored :: Fits(row.draft)
  }

  predicate AllReceivable(catalogue: Catalogue, stored: seq<Row>) {
    forall row | row in stored :: Receivable(catalogue, row.draft)
  }

  predicate NoTombstones(assets: map<AssetId, Asset>, stored: seq<Row>) {
    forall k | 0 <= k < |stored| :: !NamedLikeTombstone(assets, stored[k].draft)
  }

  ghost predicate CleanRows(db: Db, stored: seq<Row>) {
    && (forall k | 0 <= k < |stored| :: stored[k] == Row(stored[k].draft, Valid, None) && CleanRow(db, stored[k].draft))
    && (forall k, l | 0 <= k < l < |stored| :: !Shares(KeysOf(stored[k].draft), KeysOf(stored[l].draft)))
  }

  /** A list without any fault, stored and then committed against the register it was staged against, is refused for
      just four reasons: there is no READY status, a row names an unknown model or manufacturer, which staging does not
      look up, a tag or barcode is the tombstone of a deleted asset, which staging does not see, or a text, number or
      date does not fit its column, which staging does not measure. */
  lemma CleanBatchCommitsIff(db: Db, categories: set<string>, host: S.Host, rows: seq<S.Row>, batch: S.Batch,
                             order: seq<nat>, b: BatchId, ids: seq<AssetId>)
    requires RegisterOk(db.assets) && categories <= db.catalogue.references
    requires S.Reports(batch, host, RegisterOf(db, categories), rows) && batch.invalidRows == 0 && rows != []
    requires |order| == |rows| && InRange(order, |rows|) && forall k, l | 0 <= k < l < |order| :: order[k] != order[l]
    requires b !in db.batches && |ids| == |rows| && FreshIds(db.assets, ids)
    ensures Enabled(db, Stage(b, StoredRows(host, rows, order)))
    ensures Enabled(Apply(db, Stage(b, StoredRows(host, rows, order))), Commit(b, ids)) <==>
      && db.catalogue.hasReady
      && LooseReferencesKnown(db.catalogue, rows, order)
      && NoTombstones(db.assets, StoredRows(host, rows, order))
      && AllFit(StoredRows(host, rows, order))
  {
    hide S.Reports, RegisterOf, CleanRows, FreshIds, DraftOf, Enabled, Apply, NoTombstones, LooseReferencesKnown,
      AllFit, AllReceivable, RegisterOk, InRange, StoredRows;
    var stored := StoredRows(host, rows, order);
    CleanRowsOfBatch(db, categories, host, rows, batch, order);
    StagedCleanly(db, b, stored);
    ReceivableIff(db, categories, host, rows, batch, order);
    CleanCommitIff(Apply(db, Stage(b, stored)), b, ids, stored);
  }

  lemma StagedCleanly(db: Db, b: BatchId, stored: seq<Row>)
    requires b !in db.batches && CleanRows(db, stored)
    ensures Enabled(db, Stage(b, stored))
    ensures Apply(db, Stage(b, stored)) == db.(batches := db.batches[b := Batch(stored, Staged, 0, 0)])
    ensures CleanRows(Apply(db, Stage(b, stored)), stored)
  {
    AllValid(stored);
    hide KeysOf, Shares;
  }

  /** The commit of clean rows, against the register they are clean for. */
  lemma CleanCommitIff(db: Db, b: BatchId, ids: seq<AssetId>, stored: seq<Row>)
    requires RegisterOk(db.assets) && b in db.batches && db.batches[b] == Batch(stored, Staged, 0, 0) && stored != []
    requires |ids| == |stored| && FreshIds(db.assets, ids) && CleanRows(db, stored)
    ensures Enabled(db, Commit(b, ids)) <==>
      && db.catalogue.hasReady && AllReceivable(db.catalogue, stored) && AllFit(stored)
      && NoTombstones(db.assets, stored)
  {
    hide CleanRow, NamedLikeTombstone, Shares, FreshIds, Receivable, Fits, RegisterOk, KeysOf, WriteAll;
    assert Guard(db, Commit(b, ids)) <==>
      db.catalogue.hasReady && AllReceivable(db.catalogue, stored) && AllFit(stored);
    if Guard(db, Commit(b, ids)) {
      R.CommitCommitsIff(db, b, ids);
      var writes := CommitWrites(db.catalogue, stored, ids);
      forall k | 0 <= k < |stored|
        ensures writes[k].row.keys == KeysOf(Drafts(stored)[k])
      {
      }
      CleanKeysAreNewIff(db, writes, Drafts(stored));
    }
  }

  lemma ReceivableIff(db: Db, categories: set<string>, host: S.Host, rows: seq<S.Row>, batch: S.Batch, order: seq<nat>)
    requires RegisterOk(db.assets) && categories <= db.catalogue.references && InRange(order, |rows|)
    requires S.Reports(batch, host, RegisterOf(db, categories), rows) && batch.invalidRows == 0
    ensures AllReceivable(db.catalogue, StoredRows(host, rows, order)) <==>
      LooseReferencesKnown(db.catalogue, rows, order)
  {
    hide S.Reports, RegisterOf, RegisterOk;
    AllRowsAreClean(db, categories, host, rows, batch, order);
    var stored := StoredRows(host, rows, order);
    forall k | 0 <= k < |order|
      ensures stored[k] in stored
      ensures Receivable(db.catalogue, stored[k].draft) <==>
        LooseReferences(rows[order[k]].payload) <= db.catalogue.references
    {
      assert CleanRow(db, stored[k].draft);
      hide TextIn, LooseReferences;
    }
    hide LooseReferences, DraftOf, Receivable, CleanRow;
  }

  lemma AllRowsAreClean(db: Db, categories: set<string>, host: S.Host, rows: seq<S.Row>, batch: S.Batch,
                        order: seq<nat>)
    requires RegisterOk(db.assets) && InRange(order, |rows|)
    requires S.Reports(batch, host, RegisterOf(db, categories), rows) && batch.invalidRows == 0
    ensures forall k | 0 <= k < |order| :: CleanRow(db, DraftOf(host, rows[order[k]].payload))
    ensures forall k | 0 <= k < |order| :: TextIn(rows[order[k]].payload, "categoryId") in categories
    ensures forall i | 0 <= i < |rows| :: batch.rows[i].status == S.Valid
  {
    assert forall i | 0 <= i < |rows| :: batch.rows[i].status == S.Valid by {
      S.NoInvalidIffAllValid(batch.rows);
    }
    hide S.Reports, RegisterOf, RegisterOk, DraftOf, CleanRow;
    forall k | 0 <= k < |order|
      ensures CleanRow(db, DraftOf(host, rows[order[k]].payload))
      ensures TextIn(rows[order[k]].payload, "categoryId") in categories
    {
      ValidRowIsClean(db, categories, host, rows, batch, order[k]);
    }
  }

  /** What the reports of a clean batch say of the rows that are stored for it. */
  lemma CleanRowsOfBatch(db: Db, categories: set<string>, host: S.Host, rows: seq<S.Row>, batch: S.Batch,
                         order: seq<nat>)
    requires RegisterOk(db.assets) && InRange(order, |rows|)
    requires S.Reports(batch, host, RegisterOf(db, categories), rows) && batch.invalidRows == 0
    requires forall k, l | 0 <= k < l < |order| :: order[k] != order[l]
    ensures CleanRows(db, StoredRows(host, rows, order))
  {
    AllRowsAreClean(db, categories, host, rows, batch, order);
    hide S.Reports, RegisterOf, RegisterOk, KeysOf, Shares, DraftOf;
    forall k, l | 0 <= k < l < |order|
      ensures !Shares(KeysOf(DraftOf(host, rows[order[k]].payload)), KeysOf(DraftOf(host, rows[order[l]].payload)))
    {
      assert CleanRow(db, DraftOf(host, rows[order[k]].payload));
      CleanRowsDiffer(batch, host, RegisterOf(db, categories), rows, order[k], order[l]);
    }
  }

  /** A row with nothing but the required fields. */
  function PlainRow(tag: string, category: string, warehouse: string): S.Payload {
    map["assetTag" := S.Str(tag), "name" := S.Str(tag), "barcode" := S.Str(tag), "categoryId" := S.Str(category),
        "warehouseId" := S.Str(warehouse)]
  }

  /** The fourth reason occurs: a long text is staged without any fault and fits no column. */
  lemma LongTextIsStaged(host: S.Host, register: S.Register, tag: string, category: string, warehouse: string)
    requires Text.Trim(tag) == tag && |tag| > 200 && '\0' !in tag && !S.Taken(register, Text.Lower(tag))
    requires S.IsUuid(category) && Text.Trim(category) == category && category in register.categories
    requires S.IsUuid(warehouse) && Text.Trim(warehouse) == warehouse && warehouse in register.warehouses
    requires !S.Taken(register, "")
    ensures var rows := [S.Row(2, PlainRow(tag, category, warehouse))];
      && (forall fault :: !S.RowFault(host, register, rows, 0, fault))
      && !Fits(DraftOf(host, rows[0].payload))
  {
    hide Text.Trim, Text.Lower, S.IsUuid, S.Taken, S.PayloadFault, S.RowFault, PlainRow, Fits;
    var payload := PlainRow(tag, category, warehouse);
    var row := S.Row(2, payload);
    PlainRowIsFaultless(host, tag, category, warehouse);
    PlainFields(tag, category, warehouse);
    PlainIdentities(row, tag);
    assert forall field :: !S.Taken(register, S.IdentityOf(row, field));
    LoneRow(host, register, row);
    LongTagDoesNotFit(DraftOf(host, payload));
  }

  lemma PlainIdentities(row: S.Row, tag: string)
    requires S.Field(row.payload, "assetTag") == S.Field(row.payload, "barcode") == S.Str(tag) && Text.Trim(tag) == tag
    requires S.Field(row.payload, "serialNumber") == S.Undefined
    ensures forall field :: S.IdentityOf(row, field) in {Text.Lower(tag), ""}
  {
    hide Text.Trim, S.Field;
    assert Text.Lower("") == "";
    hide Text.Lower;
  }

  lemma LongTagDoesNotFit(draft: Draft)
    requires |draft.assetTag| > 100
    ensures !Fits(draft)
  {
    assert KeysOf(draft)[AssetTag] == draft.assetTag;
    hide DetailsFit;
  }

  /** A row that is alone in its batch has the faults it shows by itself and those against the register. */
  lemma LoneRow(host: S.Host, register: S.Register, row: S.Row)
    requires forall fault :: !S.PayloadFault(host, row.payload, fault)
    requires forall field :: !S.Taken(register, S.IdentityOf(row, field))
    requires S.IdOf(row, "categoryId") in register.categories && S.IdOf(row, "warehouseId") in register.warehouses
    ensures forall fault :: !S.RowFault(host, register, [row], 0, fault)
  {
    hide S.PayloadFault, S.Taken, S.IdentityOf, S.IsUuid, S.IdOf;
  }

  lemma PlainFields(tag: string, category: string, warehouse: string)
    ensures var payload := PlainRow(tag, category, warehouse);
      && (forall name | name in ["assetTag", "name", "barcode"] :: S.Field(payload, name) == S.Str(tag))
      && S.Field(payload, "categoryId") == S.Str(category) && S.Field(payload, "warehouseId") == S.Str(warehouse)
      && (forall name | name in ["modelId", "manufacturerId", "serialNumber", "purchaseCost", "warrantyMonths",
                                 "purchaseDate"] :: S.Field(payload, name) == S.Undefined)
  {
    assert "modelId"[0] != "barcode"[0];
  }

  lemma PlainRowIsFaultless(host: S.Host, tag: string, category: string, warehouse: string)
    requires Text.Trim(tag) == tag && tag != ""
    requires S.IsUuid(category) && Text.Trim(category) == category
    requires S.IsUuid(warehouse) && Text.Trim(warehouse) == warehouse
    ensures forall fault :: !S.PayloadFault(host, PlainRow(tag, category, warehouse), fault)
  {
    var payload := PlainRow(tag, category, warehouse);
    PlainFields(tag, category, warehouse);
    hide PlainRow, Text.Trim;
    assert category != "" && warehouse != "";
    hide S.IsUuid;
    forall field | field in S.REQUIRED
      ensures S.TextOf(S.Field(payload, field)) != ""
    {
      assert field in ["assetTag", "name", "barcode"] || field == "categoryId" || field == "warehouseId";
    }
    forall field | field in S.REFERENCES
      ensures S.Truthy(S.Field(payload, field)) ==> S.IsUuid(S.TextOf(S.Field(payload, field)))
    {
      assert field in ["modelId", "manufacturerId"] || field == "categoryId" || field == "warehouseId";
    }
  }
}
