/** Committing and rolling back a staged import, among the other writers of the asset register
    (apps/api/src/modules/asset-imports/asset-imports.service.ts and apps/api/src/modules/assets/assets.service.ts). */
module AssetImports {
  import opened Common

  type AssetId = string
  type BatchId = string

  // ---------------------------------------------------------------------------------------------
  // Tables
  // ---------------------------------------------------------------------------------------------

  /** The columns that are unique over all assets, deleted ones included. */
  datatype Column = AssetTag | Barcode | SerialNumber | SystemUuid

  type Keys = map<Column, string>

  datatype Status = Ready | OtherStatus(code: string)

  /** How many rows of each kind refer to an asset. */
  datatype Records = Records(assignments: nat, assetReturns: nat, transfers: nat, maintenance: nat, inventory: nat)

  const NO_RECORDS := Records(0, 0, 0, 0, 0)

  /** `storable` tells whether the database client and a DATE column take the date. */
  datatype Date = Date(text: string, storable: bool)

  /** The columns of an asset that are not unique; `notes` has no limit. */
  datatype Details = Details(name: string, cpu: Option<string>, ram: Option<string>, storage: Option<string>,
                             operatingSystem: Option<string>, ipAddress: Option<string>, macAddress: Option<string>,
                             notes: Option<string>, purchaseDate: Option<Date>, purchaseCost: Option<real>,
                             warrantyMonths: Option<int>)

  const NO_DETAILS := Details("", None, None, None, None, None, None, None, None, None, None)

  datatype Asset = Asset(keys: Keys, archived: Keys, details: Details, location: Option<string>, status: Status,
                         custodian: Option<string>, openAssignments: nat, deleted: bool, records: Records,
                         histories: nat)

  /** A row to be received; `references` are the ids of its category, model and manufacturer. */
  datatype Draft = Draft(assetTag: string, barcode: string, serialNumber: Option<string>, systemUuid: Option<string>,
                         details: Details, warehouse: string, references: set<string>)

  datatype RowStatus = Valid | Invalid | Committed | RolledBack

  datatype Row = Row(draft: Draft, status: RowStatus, assetId: Option<AssetId>)

  datatype BatchStatus = Staged | BatchCommitted | BatchRolledBack

  /** The rows are in the order of their row numbers. */
  datatype Batch = Batch(rows: seq<Row>, status: BatchStatus, invalidRows: nat, committedRows: nat)

  /** Active warehouses with their locations, the ids foreign keys can name, and whether the READY status exists. */
  datatype Catalogue = Catalogue(hasReady: bool, warehouses: map<string, string>, references: set<string>)

  datatype Db = Db(assets: map<AssetId, Asset>, batches: map<BatchId, Batch>, catalogue: Catalogue)

  datatype Error = BatchNotFound | NotStaged | HasInvalidRows | NoReadyStatus | BadWarehouse | UnknownReference
                 | DoesNotFit | IdentityExists | NotCommitted | Incomplete | AssetInUse | AssetNotFound | NotIdle
                 | HasOpenAssignment

  type Result = Outcome<Error>

  // ---------------------------------------------------------------------------------------------
  // Columns
  // ---------------------------------------------------------------------------------------------

  /** DECIMAL(18,2) rounds to cents and has 18 digits. */
  function Cents(amount: real): int {
    (amount * 100.0 + 0.5).Floor
  }

  const MAX_CENTS := 1_000_000_000_000_000_000

  /** The columns that are not unique: texts, and dates and numbers that are not negative. */
  predicate DetailsFit(details: Details) {
    && Takes(200, details.name)
    && TakesOptional(200, details.cpu) && TakesOptional(200, details.ram)
    && TakesOptional(200, details.storage) && TakesOptional(200, details.operatingSystem)
    && TakesOptional(64, details.ipAddress) && TakesOptional(64, details.macAddress)
    && (details.notes.Some? ==> Takes(|details.notes.value|, details.notes.value))
    && (details.purchaseDate.Some? ==> details.purchaseDate.value.storable)
    && (details.purchaseCost.Some? ==> Cents(details.purchaseCost.value) < MAX_CENTS)
    && (details.warrantyMonths.Some? ==> details.warrantyMonths.value <= MAX_INT)
  }

  function Width(column: Column): nat {
    match column case AssetTag => 100 case Barcode => 150 case SerialNumber => 150 case SystemUuid => 100
  }

  predicate KeysFit(keys: Keys) {
    forall column | column in keys :: Takes(Width(column), keys[column])
  }

  /** A row as the columns of an asset take it. */
  predicate Fits(draft: Draft) {
    KeysFit(KeysOf(draft)) && DetailsFit(draft.details)
  }

  // ---------------------------------------------------------------------------------------------
  // Writing under the unique indexes
  // ---------------------------------------------------------------------------------------------

  datatype Write = Write(id: AssetId, row: Asset)

  predicate Shares(a: Keys, b: Keys) {
    exists column | column in a && column in b :: a[column] == b[column]
  }

  /** The database reports P2002: another asset has one of the keys. */
  predicate Collides(assets: map<AssetId, Asset>, id: AssetId, keys: Keys) {
    exists other | other in assets && other != id :: Shares(assets[other].keys, keys)
  }

  /** The writes of one transaction in their order, or nothing when one of them collides. */
  function WriteAll(assets: map<AssetId, Asset>, writes: seq<Write>): Option<map<AssetId, Asset>> {
    if writes == [] then Some(assets)
    else
      var earlier, last := WriteAll(assets, writes[..|writes| - 1]), writes[|writes| - 1];
      if earlier.None? || Collides(earlier.value, last.id, last.row.keys) then None
      else Some(earlier.value[last.id := last.row])
  }

  lemma {:induction false} PrefixWrites(assets: map<AssetId, Asset>, writes: seq<Write>, n: nat)
    requires n <= |writes| && WriteAll(assets, writes).Some?
    ensures WriteAll(assets, writes[..n]).Some?
    decreases |writes|
  {
    if n < |writes| {
      assert writes[..|writes| - 1][..n] == writes[..n];
      PrefixWrites(assets, writes[..|writes| - 1], n);
    } else {
      assert writes[..n] == writes;
    }
  }

  lemma NextWrite(assets: map<AssetId, Asset>, writes: seq<Write>, i: nat, written: map<AssetId, Asset>)
    requires i < |writes| && WriteAll(assets, writes[..i]) == Some(written)
    ensures WriteAll(assets, writes[..i + 1]) ==
      (if Collides(written, writes[i].id, writes[i].row.keys) then None
        else Some(written[writes[i].id := writes[i].row]))
    ensures Collides(written, writes[i].id, writes[i].row.keys) ==> WriteAll(assets, writes).None?
  {
    assert writes[..i + 1][..i] == writes[..i];
    if WriteAll(assets, writes).Some? {
      PrefixWrites(assets, writes, i + 1);
    }
  }

  lemma NoWrites(assets: map<AssetId, Asset>)
    ensures WriteAll(assets, []) == Some(assets)
  {
  }

  lemma OneWrite(assets: map<AssetId, Asset>, write: Write)
    ensures WriteAll(assets, [write]) ==
      (if Collides(assets, write.id, write.row.keys) then None else Some(assets[write.id := write.row]))
  {
    assert [write][..0] == [];
  }

  // ---------------------------------------------------------------------------------------------
  // Rows and tombstones
  // ---------------------------------------------------------------------------------------------

  function KeysOf(draft: Draft): Keys {
    map[AssetTag := draft.assetTag, Barcode := draft.barcode]
    + (if draft.serialNumber.Some? then map[SerialNumber := draft.serialNumber.value] else map[])
    + (if draft.systemUuid.Some? then map[SystemUuid := draft.systemUuid.value] else map[])
  }

  function LocationOf(catalogue: Catalogue, warehouse: string): Option<string> {
    if warehouse in catalogue.warehouses then Some(catalogue.warehouses[warehouse]) else None
  }

  /** A received asset, with the one history entry that says so. */
  function NewAsset(draft: Draft, catalogue: Catalogue): Asset {
    Asset(KeysOf(draft), map[], draft.details, LocationOf(catalogue, draft.warehouse), Ready, None, 0, false,
          NO_RECORDS, 1)
  }

  function Tombstone(id: AssetId): string {
    "ROLLED-BACK-" + id
  }

  function DeletedTag(id: AssetId): string {
    "DELETED-" + id
  }

  function Entombed(id: AssetId, asset: Asset): Asset {
    asset.(keys := (asset.keys - {SerialNumber})[AssetTag := Tombstone(id)][Barcode := Tombstone(id)],
           deleted := true, histories := asset.histories + 1)
  }

  function Removed(id: AssetId, asset: Asset): Asset {
    asset.(keys := map[AssetTag := DeletedTag(id), Barcode := DeletedTag(id)], archived := asset.keys,
           custodian := None, openAssignments := 0, deleted := true, histories := asset.histories + 1)
  }

  /** An asset nothing has happened to since it was received. */
  predicate Untouched(asset: Asset) {
    !asset.deleted && asset.status == Ready && asset.custodian.None? && asset.records == NO_RECORDS
      && asset.histories == 1
  }

  function CommittedOf(rows: seq<Row>): (r: seq<Row>)
    ensures forall row | row in r :: row in rows && row.status == Committed
  {
    if rows == [] then []
    else CommittedOf(rows[..|rows| - 1]) + (if rows[|rows| - 1].status == Committed then [rows[|rows| - 1]] else [])
  }

  function CountInvalid(rows: seq<Row>): nat {
    if rows == [] then 0 else CountInvalid(rows[..|rows| - 1]) + (if rows[|rows| - 1].status == Invalid then 1 else 0)
  }

  // ---------------------------------------------------------------------------------------------
  // The steps: when each commits, and the tables it leaves
  // ---------------------------------------------------------------------------------------------

  /** `ids` and `id` of new rows are the keys the database generates. */
  datatype Step =
    | Stage(batch: BatchId, rows: seq<Row>)
    | Commit(batch: BatchId, ids: seq<AssetId>)
    | Rollback(batch: BatchId)
    | Create(id: AssetId, draft: Draft)
    | Update(id: AssetId, keys: Keys, details: Details, status: Option<Status>)
    | Remove(id: AssetId, admin: bool)
    /** Any other module writing one live asset or the records that refer to it. */
    | Elsewhere(id: AssetId, row: Asset)
    | Maintain(catalogue: Catalogue)

  predicate FreshIds(assets: map<AssetId, Asset>, ids: seq<AssetId>) {
    && (forall i | 0 <= i < |ids| :: ids[i] !in assets)
    && (forall i, j | 0 <= i < j < |ids| :: ids[i] != ids[j])
  }

  predicate Receivable(catalogue: Catalogue, draft: Draft) {
    draft.warehouse in catalogue.warehouses && draft.references <= catalogue.references
  }

  /** Other modules leave the keys alone and never delete a record, except that an inventory session goes with its
      items. */
  predicate Operates(before: Asset, after: Asset) {
    && !before.deleted && !after.deleted
    && after.keys == before.keys && after.archived == before.archived
    && after.histories >= before.histories
    && after.records.assignments >= before.records.assignments
    && after.records.assetReturns >= before.records.assetReturns
    && after.records.transfers >= before.records.transfers
    && after.records.maintenance >= before.records.maintenance
  }

  predicate Live(db: Db, id: AssetId) {
    id in db.assets && !db.assets[id].deleted
  }

  predicate CanRollBack(db: Db, batch: Batch) {
    && batch.status == BatchCommitted
    && |CommittedOf(batch.rows)| == batch.committedRows
    && (forall row | row in CommittedOf(batch.rows) ::
      row.assetId.Some? && row.assetId.value in db.assets && Untouched(db.assets[row.assetId.value]))
  }

  /** The checks a step makes before it writes. */
  predicate Guard(db: Db, step: Step) {
    match step
    case Stage(batch, rows) =>
      batch !in db.batches && forall row | row in rows ::
        row.status in {Valid, Invalid} && row.assetId.None? && row.draft.systemUuid.None?
    case Commit(batch, ids) =>
      && batch in db.batches && db.batches[batch].status == Staged
      && db.batches[batch].invalidRows == 0 && db.batches[batch].rows != []
      && db.catalogue.hasReady
      && |ids| == |db.batches[batch].rows| && FreshIds(db.assets, ids)
      && (forall row | row in db.batches[batch].rows :: Receivable(db.catalogue, row.draft) && Fits(row.draft))
    case Rollback(batch) => batch in db.batches && CanRollBack(db, db.batches[batch])
    case Create(id, draft) =>
      id !in db.assets && db.catalogue.hasReady && Receivable(db.catalogue, draft) && Fits(draft)
    case Update(id, keys, details, _) => Live(db, id) && KeysFit(keys) && DetailsFit(details)
    case Remove(id, admin) =>
      && Live(db, id)
      && (admin
        || (db.assets[id].status == Ready && db.assets[id].custodian.None? && db.assets[id].openAssignments == 0))
    case Elsewhere(id, row) => Live(db, id) && Operates(db.assets[id], row)
    case Maintain(_) => true
  }

  function CommitWrites(catalogue: Catalogue, rows: seq<Row>, ids: seq<AssetId>): (w: seq<Write>)
    requires |ids| == |rows|
    ensures |w| == |rows|
  {
    seq(|rows|, i requires 0 <= i < |rows| => Write(ids[i], NewAsset(rows[i].draft, catalogue)))
  }

  function RollbackWrites(assets: map<AssetId, Asset>, rows: seq<Row>): (w: seq<Write>)
    requires forall row | row in rows :: row.assetId.Some? && row.assetId.value in assets
    ensures |w| == |rows|
  {
    seq(|rows|, i requires 0 <= i < |rows| =>
      Write(rows[i].assetId.value, Entombed(rows[i].assetId.value, assets[rows[i].assetId.value])))
  }

  function Updated(asset: Asset, keys: Keys, details: Details, status: Option<Status>): Asset {
    asset.(keys := asset.keys + keys, details := details, histories := asset.histories + 1,
           status := if status.Some? then status.value else asset.status)
  }

  /** The asset rows a step writes, in order. */
  function Writes(db: Db, step: Step): seq<Write>
    requires Guard(db, step)
  {
    match step
    case Commit(batch, ids) => CommitWrites(db.catalogue, db.batches[batch].rows, ids)
    case Rollback(batch) => RollbackWrites(db.assets, CommittedOf(db.batches[batch].rows))
    case Create(id, draft) => [Write(id, NewAsset(draft, db.catalogue))]
    case Update(id, keys, details, status) => [Write(id, Updated(db.assets[id], keys, details, status))]
    case Remove(id, _) => [Write(id, Removed(id, db.assets[id]))]
    case Elsewhere(id, row) => [Write(id, row)]
    case _ => []
  }

  predicate Enabled(db: Db, step: Step) {
    Guard(db, step) && WriteAll(db.assets, Writes(db, step)).Some?
  }

  function CommittedRows(rows: seq<Row>, ids: seq<AssetId>): (r: seq<Row>)
    requires |ids| == |rows|
    ensures |r| == |rows|
  {
    seq(|rows|, i requires 0 <= i < |rows| => Row(rows[i].draft, Committed, Some(ids[i])))
  }

  function RolledBackRows(rows: seq<Row>): (r: seq<Row>)
    ensures |r| == |rows|
  {
    seq(|rows|, i requires 0 <= i < |rows| =>
      if rows[i].status == Committed then rows[i].(status := RolledBack) else rows[i])
  }

  function BatchesAfter(db: Db, step: Step): map<BatchId, Batch>
    requires Guard(db, step)
  {
    match step
    case Stage(batch, rows) => db.batches[batch := Batch(rows, Staged, CountInvalid(rows), 0)]
    case Commit(batch, ids) =>
      var rows := CommittedRows(db.batches[batch].rows, ids);
      db.batches[batch := db.batches[batch].(rows := rows, status := BatchCommitted, committedRows := |ids|)]
    case Rollback(batch) =>
      db.batches[batch := db.batches[batch].(rows := RolledBackRows(db.batches[batch].rows), status := BatchRolledBack)]
    case _ => db.batches
  }

  function Apply(db: Db, step: Step): Db
    requires Enabled(db, step)
  {
    Db(WriteAll(db.assets, Writes(db, step)).value, BatchesAfter(db, step),
       if step.Maintain? then step.catalogue else db.catalogue)
  }

  /** A step commits or changes nothing. */
  function Perform(db: Db, step: Step): Db {
    if Enabled(db, step) then Apply(db, step) else db
  }

  // ---------------------------------------------------------------------------------------------
  // The services
  // ---------------------------------------------------------------------------------------------

  class AssetRegister {
    var assets: map<AssetId, Asset>
    var batches: map<BatchId, Batch>
    var catalogue: Catalogue

    ghost function View(): Db
      reads this
    {
      Db(assets, batches, catalogue)
    }

    constructor (catalogue: Catalogue)
      ensures View() == Db(map[], map[], catalogue)
    {
      this.assets := map[];
      this.batches := map[];
      this.catalogue := catalogue;
    }

    method CommitBatch(id: BatchId, ids: seq<AssetId>) returns (r: Result)
      requires FreshIds(assets, ids) && (id in batches ==> |ids| == |batches[id].rows|)
      modifies this
      ensures r == Refused(BatchNotFound) <==> id !in old(batches)
      ensures r == Refused(NotStaged) <==> id in old(batches) && old(batches)[id].status != Staged
      ensures r == Refused(HasInvalidRows) <==>
        && id in old(batches) && old(batches)[id].status == Staged
        && (old(batches)[id].invalidRows > 0 || |old(batches)[id].rows| == 0)
      ensures r == Refused(NoReadyStatus) ==> !old(catalogue).hasReady
      ensures r == Refused(BadWarehouse) ==>
        exists row :: row in old(batches)[id].rows && row.draft.warehouse !in old(catalogue).warehouses
      ensures r == Refused(UnknownReference) ==>
        exists row :: row in old(batches)[id].rows && !(row.draft.references <= old(catalogue).references)
      ensures r == Refused(DoesNotFit) ==> exists row :: row in old(batches)[id].rows && !Fits(row.draft)
      ensures r in {Done, Refused(BatchNotFound), Refused(NotStaged), Refused(HasInvalidRows), Refused(NoReadyStatus),
                    Refused(BadWarehouse), Refused(UnknownReference), Refused(DoesNotFit), Refused(IdentityExists)}
      ensures r.Done? <==> Enabled(old(View()), Commit(id, ids))
      ensures View() == Perform(old(View()), Commit(id, ids))
    {
      hide Collides, KeysOf, FreshIds, Fits, KeysFit, DetailsFit, LocationOf, WriteAll;
      if id !in batches {
        return Refused(BatchNotFound);
      }
      var batch := batches[id];
      if batch.status != Staged {
        return Refused(NotStaged);
      }
      if batch.invalidRows != 0 || batch.rows == [] {
        return Refused(HasInvalidRows);
      }
      if !catalogue.hasReady {
        return Refused(NoReadyStatus);
      }
      ghost var writes := CommitWrites(catalogue, batch.rows, ids);
      NoWrites(assets);
      assert writes[..0] == [];
      var written, rows := assets, [];
      for i := 0 to |batch.rows|
        modifies {}
        invariant WriteAll(assets, writes[..i]) == Some(written)
        invariant forall k | 0 <= k < i :: Receivable(catalogue, batch.rows[k].draft) && Fits(batch.rows[k].draft)
        invariant |rows| == i && forall k | 0 <= k < i :: rows[k] == Row(batch.rows[k].draft, Committed, Some(ids[k]))
      {
        var draft := batch.rows[i].draft;
        if draft.warehouse !in catalogue.warehouses {
          return Refused(BadWarehouse);
        }
        if !(draft.references <= catalogue.references) {
          return Refused(UnknownReference);
        }
        if !Fits(draft) {
          return Refused(DoesNotFit);
        }
        var asset := NewAsset(draft, catalogue);
        NextWrite(assets, writes, i, written);
        if Collides(written, ids[i], asset.keys) {
          return Refused(IdentityExists);
        }
        written := written[ids[i] := asset];
        rows := rows + [Row(draft, Committed, Some(ids[i]))];
      }
      assert writes[..|writes|] == writes;
      assert rows == CommittedRows(batch.rows, ids);
      assets := written;
      batches := batches[id := batch.(rows := rows, status := BatchCommitted, committedRows := |rows|)];
      r := Done;
    }

    method RollbackBatch(id: BatchId) returns (r: Result)
      modifies this
      ensures r == Refused(BatchNotFound) <==> id !in old(batches)
      ensures r == Refused(NotCommitted) <==> id in old(batches) && old(batches)[id].status != BatchCommitted
      ensures r in {Done, Refused(BatchNotFound), Refused(NotCommitted), Refused(Incomplete), Refused(AssetInUse),
                    Refused(IdentityExists)}
      ensures r.Done? <==> Enabled(old(View()), Rollback(id))
      ensures View() == Perform(old(View()), Rollback(id))
    {
      hide Collides, KeysOf, FreshIds, Fits, KeysFit, DetailsFit;
      if id !in batches {
        return Refused(BatchNotFound);
      }
      var batch := batches[id];
      if batch.status != BatchCommitted {
        return Refused(NotCommitted);
      }
      var rows := CommittedOf(batch.rows);
      if |rows| != batch.committedRows {
        return Refused(Incomplete);
      }
      for i := 0 to |rows|
        modifies {}
        invariant forall k | 0 <= k < i ::
          rows[k].assetId.Some? && rows[k].assetId.value in assets && Untouched(assets[rows[k].assetId.value])
      {
        if rows[i].assetId.None? || rows[i].assetId.value !in assets || !Untouched(assets[rows[i].assetId.value]) {
          assert !CanRollBack(View(), batch) by { assert rows[i] in CommittedOf(batch.rows); }
          return Refused(AssetInUse);
        }
      }
      ghost var writes := RollbackWrites(assets, rows);
      var written := assets;
      for i := 0 to |rows|
        modifies {}
        invariant WriteAll(assets, writes[..i]) == Some(written)
      {
        var asset := rows[i].assetId.value;
        var row := Entombed(asset, assets[asset]);
        NextWrite(assets, writes, i, written);
        if Collides(written, asset, row.keys) {
          return Refused(IdentityExists);
        }
        written := written[asset := row];
      }
      assert writes[..|writes|] == writes;
      assets := written;
      batches := batches[id := batch.(rows := RolledBackRows(batch.rows), status := BatchRolledBack)];
      r := Done;
    }

    method CreateAsset(id: AssetId, draft: Draft) returns (r: Result)
      requires id !in assets
      modifies this
      ensures r == Refused(NoReadyStatus) <==> !old(catalogue).hasReady
      ensures r == Refused(BadWarehouse) <==>
        old(catalogue).hasReady && draft.warehouse !in old(catalogue).warehouses
      ensures r == Refused(UnknownReference) ==> !(draft.references <= old(catalogue).references)
      ensures r == Refused(DoesNotFit) ==> !Fits(draft)
      ensures r in {Done, Refused(NoReadyStatus), Refused(BadWarehouse), Refused(UnknownReference), Refused(DoesNotFit),
                    Refused(IdentityExists)}
      ensures r.Done? <==> Enabled(old(View()), Create(id, draft))
      ensures View() == Perform(old(View()), Create(id, draft))
    {
      hide Collides, KeysOf, FreshIds, Fits, KeysFit, DetailsFit;
      if !catalogue.hasReady {
        return Refused(NoReadyStatus);
      }
      if draft.warehouse !in catalogue.warehouses {
        return Refused(BadWarehouse);
      }
      if !(draft.references <= catalogue.references) {
        return Refused(UnknownReference);
      }
      if !Fits(draft) {
        return Refused(DoesNotFit);
      }
      OneWrite(assets, Write(id, NewAsset(draft, catalogue)));
      if Collides(assets, id, KeysOf(draft)) {
        return Refused(IdentityExists);
      }
      assets := assets[id := NewAsset(draft, catalogue)];
      r := Done;
    }

    method UpdateAsset(id: AssetId, keys: Keys, details: Details, status: Option<Status>) returns (r: Result)
      modifies this
      ensures r == Refused(AssetNotFound) <==> id !in old(assets) || old(assets)[id].deleted
      ensures r == Refused(DoesNotFit) ==> !KeysFit(keys) || !DetailsFit(details)
      ensures r in {Done, Refused(AssetNotFound), Refused(DoesNotFit), Refused(IdentityExists)}
      ensures r.Done? <==> Enabled(old(View()), Update(id, keys, details, status))
      ensures View() == Perform(old(View()), Update(id, keys, details, status))
    {
      hide Collides, KeysOf, FreshIds, Fits, KeysFit, DetailsFit;
      if id !in assets || assets[id].deleted {
        return Refused(AssetNotFound);
      }
      if !KeysFit(keys) || !DetailsFit(details) {
        return Refused(DoesNotFit);
      }
      var row := Updated(assets[id], keys, details, status);
      OneWrite(assets, Write(id, row));
      if Collides(assets, id, row.keys) {
        return Refused(IdentityExists);
      }
      assets := assets[id := row];
      r := Done;
    }

    method RemoveAsset(id: AssetId, admin: bool) returns (r: Result)
      modifies this
      ensures r == Refused(AssetNotFound) <==> id !in old(assets) || old(assets)[id].deleted
      ensures r == Refused(NotIdle) <==>
        && id in old(assets) && !old(assets)[id].deleted && !admin
        && (old(assets)[id].status != Ready || old(assets)[id].custodian != None)
      ensures r == Refused(HasOpenAssignment) ==> !admin && old(assets)[id].openAssignments > 0
      ensures r in {Done, Refused(AssetNotFound), Refused(NotIdle), Refused(HasOpenAssignment), Refused(IdentityExists)}
      ensures r.Done? <==> Enabled(old(View()), Remove(id, admin))
      ensures View() == Perform(old(View()), Remove(id, admin))
    {
      hide Collides, KeysOf, FreshIds, Fits, KeysFit, DetailsFit;
      if id !in assets || assets[id].deleted {
        return Refused(AssetNotFound);
      }
      var asset := assets[id];
      if !admin {
        if asset.status != Ready || asset.custodian.Some? {
          return Refused(NotIdle);
        }
        if asset.openAssignments > 0 {
          return Refused(HasOpenAssignment);
        }
      }
      OneWrite(assets, Write(id, Removed(id, asset)));
      if Collides(assets, id, Removed(id, asset).keys) {
        return Refused(IdentityExists);
      }
      assets := assets[id := Removed(id, asset)];
      r := Done;
    }
  }
}
