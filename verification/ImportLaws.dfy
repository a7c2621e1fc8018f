/** What an import leaves in the register, column by column, and from the payload on
    (apps/api/src/modules/asset-imports/asset-imports.service.ts). */
module ImportLaws {
  import opened Common
  import opened AssetImports
  import opened ImportRuns
  import R = ImportRollback
  import P = ImportPipeline
  import S = ImportStaging
  import G = StagingLaws

  /** The asset has a text under a column, or none. */
  predicate Bears(asset: Asset, column: Column, text: Option<string>) {
    if text.Some? then column in asset.keys && asset.keys[column] == text.value else column !in asset.keys
  }

  /** An asset as it is received: the columns of its row, the place of its warehouse, and nothing on its record but
      that. */
  predicate ReceivedAs(asset: Asset, draft: Draft, location: string) {
    && Bears(asset, AssetTag, Some(draft.assetTag)) && Bears(asset, Barcode, Some(draft.barcode))
    && Bears(asset, SerialNumber, draft.serialNumber) && Bears(asset, SystemUuid, draft.systemUuid)
    && asset.details.name == draft.details.name && asset.details.cpu == draft.details.cpu
    && asset.details.ram == draft.details.ram && asset.details.storage == draft.details.storage
    && asset.details.operatingSystem == draft.details.operatingSystem
    && asset.details.ipAddress == draft.details.ipAddress && asset.details.macAddress == draft.details.macAddress
    && asset.details.notes == draft.details.notes && asset.details.purchaseDate == draft.details.purchaseDate
    && asset.details.purchaseCost == draft.details.purchaseCost
    && asset.details.warrantyMonths == draft.details.warrantyMonths
    && asset.location == Some(location)
    && asset.status == Ready && asset.custodian == None && asset.openAssignments == 0 && !asset.deleted
    && asset.records == Records(0, 0, 0, 0, 0) && asset.histories == 1 && asset.archived == map[]
  }

  lemma NewAssetIsReceived(draft: Draft, catalogue: Catalogue)
    requires draft.warehouse in catalogue.warehouses
    ensures ReceivedAs(NewAsset(draft, catalogue), draft, catalogue.warehouses[draft.warehouse])
  {
  }

  /** After a commit there is one asset for each row, received as the row says, and the row names it. */
  lemma CommittedColumns(db: Db, b: BatchId, ids: seq<AssetId>, i: nat)
    requires Inv(db) && Enabled(db, Commit(b, ids)) && i < |ids|
    ensures var after := Apply(db, Commit(b, ids));
      var draft := db.batches[b].rows[i].draft;
      && draft.warehouse in db.catalogue.warehouses && draft.references <= db.catalogue.references
      && ids[i] !in db.assets && ids[i] in after.assets
      && ReceivedAs(after.assets[ids[i]], draft, db.catalogue.warehouses[draft.warehouse])
      && b in after.batches && |after.batches[b].rows| == |ids|
      && after.batches[b].rows[i] == Row(draft, Committed, Some(ids[i]))
      && after.batches[b].status == BatchCommitted && after.batches[b].committedRows == |ids|
  {
    R.CommitAdds(db, b, ids);
    var row := db.batches[b].rows[i];
    assert row in db.batches[b].rows;
    assert Receivable(db.catalogue, row.draft);
    NewAssetIsReceived(row.draft, db.catalogue);
    hide ReceivedAs, NewAsset, WriteAll, Inv, Fits, Writes;
    assert ids[i] in R.Received(db, b, ids);
  }

  /** The same for an asset received by itself. */
  lemma CreatedColumns(db: Db, id: AssetId, draft: Draft)
    requires Enabled(db, Create(id, draft))
    ensures var after := Apply(db, Create(id, draft));
      && draft.warehouse in db.catalogue.warehouses && draft.references <= db.catalogue.references
      && id !in db.assets && after.assets.Keys == db.assets.Keys + {id}
      && ReceivedAs(after.assets[id], draft, db.catalogue.warehouses[draft.warehouse])
      && forall other | other in db.assets :: after.assets[other] == db.assets[other]
  {
    OneWrite(db.assets, Write(id, NewAsset(draft, db.catalogue)));
    NewAssetIsReceived(draft, db.catalogue);
    hide ReceivedAs, NewAsset, Fits, Collides;
  }

  // ---------------------------------------------------------------------------------------------
  // From the payload on
  // ---------------------------------------------------------------------------------------------

  function ShownOrNone(payload: S.Payload, name: string): Option<string> {
    if G.Shown(payload, name) == "" then None else Some(G.Shown(payload, name))
  }

  /** What Number() makes of a value that is there. */
  function NumberOf(host: S.Host, payload: S.Payload, name: string): Option<real> {
    if name in payload && payload[name] != S.Undefined then host.finiteNumber(payload[name]) else None
  }

  /** The columns of an asset as the payload gives them. */
  predicate FromPayload(host: S.Host, asset: Asset, payload: S.Payload) {
    && Bears(asset, AssetTag, Some(G.Shown(payload, "assetTag")))
    && Bears(asset, Barcode, Some(G.Shown(payload, "barcode")))
    && Bears(asset, SerialNumber, ShownOrNone(payload, "serialNumber")) && Bears(asset, SystemUuid, None)
    && asset.details.name == G.Shown(payload, "name")
    && asset.details.cpu == ShownOrNone(payload, "cpu") && asset.details.ram == ShownOrNone(payload, "ram")
    && asset.details.storage == ShownOrNone(payload, "storage")
    && asset.details.operatingSystem == ShownOrNone(payload, "operatingSystem")
    && asset.details.ipAddress == ShownOrNone(payload, "ipAddress")
    && asset.details.macAddress == ShownOrNone(payload, "macAddress")
    && asset.details.notes == ShownOrNone(payload, "notes")
    && asset.details.purchaseCost == NumberOf(host, payload, "purchaseCost")
    && (asset.details.warrantyMonths.Some? <==> NumberOf(host, payload, "warrantyMonths").Some?)
    && (asset.details.warrantyMonths.Some? ==>
          asset.details.warrantyMonths.value as real <= NumberOf(host, payload, "warrantyMonths").value
          < (asset.details.warrantyMonths.value + 1) as real)
    && (asset.details.purchaseDate.Some? ==>
          asset.details.purchaseDate.value ==
          Date(G.Shown(payload, "purchaseDate"), host.dateFits(G.Shown(payload, "purchaseDate"))))
    && (asset.details.purchaseDate.Some? <==> !G.Blank(payload, "purchaseDate"))
  }

  lemma DraftIsFromPayload(host: S.Host, asset: Asset, payload: S.Payload, location: string)
    requires ReceivedAs(asset, P.DraftOf(host, payload), location)
    ensures FromPayload(host, asset, payload)
  {
    hide P.DetailsOf, G.Shown, ShownOrNone, NumberOf, Bears, P.TextIn, P.Optional, P.LooseReferences;
    DraftShows(host, payload);
    DraftDetails(host, payload);
    DraftSystem(host, payload);
    DraftCounts(host, payload);
  }

  lemma DraftShows(host: S.Host, payload: S.Payload)
    ensures var draft := P.DraftOf(host, payload);
      && draft.assetTag == G.Shown(payload, "assetTag") && draft.barcode == G.Shown(payload, "barcode")
      && draft.serialNumber == ShownOrNone(payload, "serialNumber") && draft.systemUuid == None
      && draft.details.name == G.Shown(payload, "name")
      && draft.warehouse == G.Shown(payload, "warehouseId")
  {
    hide P.TextIn, G.Shown, P.NumberIn, S.Truthy, P.LooseReferences;
    TextIsShown(payload, "assetTag");
    TextIsShown(payload, "barcode");
    TextIsShown(payload, "serialNumber");
    TextIsShown(payload, "name");
    TextIsShown(payload, "warehouseId");
  }

  lemma DraftDetails(host: S.Host, payload: S.Payload)
    ensures var details := P.DetailsOf(host, payload);
      && details.cpu == ShownOrNone(payload, "cpu") && details.ram == ShownOrNone(payload, "ram")
      && details.storage == ShownOrNone(payload, "storage")
  {
    hide P.TextIn, G.Shown, P.NumberIn, S.Truthy;
    TextIsShown(payload, "cpu");
    TextIsShown(payload, "ram");
    TextIsShown(payload, "storage");
  }

  lemma DraftSystem(host: S.Host, payload: S.Payload)
    ensures var details := P.DetailsOf(host, payload);
      && details.operatingSystem == ShownOrNone(payload, "operatingSystem")
      && details.ipAddress == ShownOrNone(payload, "ipAddress")
      && details.macAddress == ShownOrNone(payload, "macAddress")
      && details.notes == ShownOrNone(payload, "notes")
  {
    hide P.TextIn, G.Shown, P.NumberIn, S.Truthy;
    TextIsShown(payload, "operatingSystem");
    TextIsShown(payload, "ipAddress");
    TextIsShown(payload, "macAddress");
    TextIsShown(payload, "notes");
  }

  /** The catalogue rows a payload names: its category, and its model and manufacturer when it has them. */
  lemma DraftNames(host: S.Host, payload: S.Payload, reference: string)
    ensures reference in P.DraftOf(host, payload).references <==>
      || reference == G.Shown(payload, "categoryId")
      || (reference != ""
        && (reference == G.Shown(payload, "modelId") || reference == G.Shown(payload, "manufacturerId")))
  {
    hide P.TextIn, G.Shown, P.DetailsOf;
    TextIsShown(payload, "categoryId");
    TextIsShown(payload, "modelId");
    TextIsShown(payload, "manufacturerId");
  }

  lemma DraftCounts(host: S.Host, payload: S.Payload)
    ensures var details := P.DraftOf(host, payload).details;
      && details.purchaseCost == NumberOf(host, payload, "purchaseCost")
      && (details.warrantyMonths.Some? <==> NumberOf(host, payload, "warrantyMonths").Some?)
      && (details.warrantyMonths.Some? ==>
            details.warrantyMonths.value as real <= NumberOf(host, payload, "warrantyMonths").value
            < (details.warrantyMonths.value + 1) as real)
      && (details.purchaseDate.Some? ==>
            details.purchaseDate.value ==
            Date(G.Shown(payload, "purchaseDate"), host.dateFits(G.Shown(payload, "purchaseDate"))))
      && (details.purchaseDate.Some? <==> !G.Blank(payload, "purchaseDate"))
  {
    hide P.TextIn, G.Shown, G.Blank, S.Truthy, P.Optional, P.NumberIn, NumberOf;
    NumberIsShown(host, payload, "purchaseCost");
    NumberIsShown(host, payload, "warrantyMonths");
    TextIsShown(payload, "purchaseDate");
  }

  lemma NumberIsShown(host: S.Host, payload: S.Payload, name: string)
    ensures P.NumberIn(host, payload, name) == NumberOf(host, payload, name)
  {
  }

  lemma TextIsShown(payload: S.Payload, name: string)
    ensures P.TextIn(payload, name) == G.Shown(payload, name)
    ensures S.Truthy(S.Field(payload, name)) <==> !G.Blank(payload, name)
  {
  }

  lemma LocationOfReceived(asset: Asset, draft: Draft, location: string)
    requires ReceivedAs(asset, draft, location)
    ensures asset.location == Some(location)
  {
  }

  /** From a list to the register: each row of a clean list, committed, is an asset with the texts and numbers of its
      payload. */
  lemma ImportedColumns(db: Db, host: S.Host, rows: seq<S.Row>, order: seq<nat>, b: BatchId, ids: seq<AssetId>, k: nat)
    requires Inv(db) && P.InRange(order, |rows|) && k < |ids|
    requires b in db.batches && db.batches[b].rows == P.StoredRows(host, rows, order) && Enabled(db, Commit(b, ids))
    ensures |ids| == |order| && ids[k] in Apply(db, Commit(b, ids)).assets
    ensures var asset, payload := Apply(db, Commit(b, ids)).assets[ids[k]], rows[order[k]].payload;
      && FromPayload(host, asset, payload)
      && G.Shown(payload, "warehouseId") in db.catalogue.warehouses
      && asset.location == Some(db.catalogue.warehouses[G.Shown(payload, "warehouseId")])
      && G.Shown(payload, "categoryId") in db.catalogue.references
  {
    CommittedColumns(db, b, ids, k);
    hide FromPayload, ReceivedAs, P.DraftOf, Inv, Writes, WriteAll;
    var draft := db.batches[b].rows[k].draft;
    DraftShows(host, rows[order[k]].payload);
    DraftNames(host, rows[order[k]].payload, G.Shown(rows[order[k]].payload, "categoryId"));
    LocationOfReceived(Apply(db, Commit(b, ids)).assets[ids[k]], draft, db.catalogue.warehouses[draft.warehouse]);
    DraftIsFromPayload(host, Apply(db, Commit(b, ids)).assets[ids[k]], rows[order[k]].payload,
                       db.catalogue.warehouses[draft.warehouse]);
  }

  /** The asset is known by these texts. */
  predicate KnownBy(asset: Asset, identity: S.Identity) {
    && Bears(asset, AssetTag, Some(identity.assetTag)) && Bears(asset, Barcode, Some(identity.barcode))
    && Bears(asset, SerialNumber, identity.serialNumber)
  }

  /** Staging compares with the live assets, and with these only. */
  lemma RegisterMeans(db: Db, categories: set<string>, identity: S.Identity)
    requires P.RegisterOk(db.assets)
    ensures identity in P.RegisterOf(db, categories).live <==>
      exists id :: id in db.assets && !db.assets[id].deleted && KnownBy(db.assets[id], identity)
    ensures P.RegisterOf(db, categories).categories == categories
    ensures P.RegisterOf(db, categories).warehouses == db.catalogue.warehouses.Keys
  {
    forall id | id in db.assets && !db.assets[id].deleted
      ensures AssetTag in db.assets[id].keys && Barcode in db.assets[id].keys
      ensures KnownBy(db.assets[id], identity) <==> identity == P.IdentityOfAsset(db.assets[id])
    {
    }
    hide KnownBy, P.IdentityOfAsset;
  }

  // ---------------------------------------------------------------------------------------------
  // When each writer commits, and what it leaves
  // ---------------------------------------------------------------------------------------------

  /** A text no longer than the width, without the character 0. */
  predicate Narrow(text: string, width: nat) {
    |text| <= width && forall i | 0 <= i < |text| :: text[i] as int != 0
  }

  predicate NarrowOrNone(text: Option<string>, width: nat) {
    text == None || Narrow(text.value, width)
  }

  predicate NarrowDetails(details: Details) {
    && Narrow(details.name, 200)
    && NarrowOrNone(details.cpu, 200) && NarrowOrNone(details.ram, 200) && NarrowOrNone(details.storage, 200)
    && NarrowOrNone(details.operatingSystem, 200)
    && NarrowOrNone(details.ipAddress, 64) && NarrowOrNone(details.macAddress, 64)
    && (details.notes == None || Narrow(details.notes.value, |details.notes.value|))
    && (details.purchaseDate == None || details.purchaseDate.value.storable)
    && (details.purchaseCost == None || details.purchaseCost.value < 9_999_999_999_999_999.995)
    && (details.warrantyMonths == None || details.warrantyMonths.value < 0x8000_0000)
  }

  lemma TakesIsNarrow(width: nat, text: string)
    ensures Takes(width, text) <==> Narrow(text, width)
  {
  }

  lemma DetailsFitIff(details: Details)
    ensures DetailsFit(details) <==> NarrowDetails(details)
  {
    hide Takes, Narrow;
    forall width: nat, text ensures Takes(width, text) <==> Narrow(text, width) {
      TakesIsNarrow(width, text);
    }
  }

  lemma KeysFitIff(keys: Keys)
    ensures KeysFit(keys) <==>
      && (AssetTag in keys ==> Narrow(keys[AssetTag], 100)) && (Barcode in keys ==> Narrow(keys[Barcode], 150))
      && (SerialNumber in keys ==> Narrow(keys[SerialNumber], 150))
      && (SystemUuid in keys ==> Narrow(keys[SystemUuid], 100))
  {
    hide Takes, Narrow;
    forall width: nat, text ensures Takes(width, text) <==> Narrow(text, width) {
      TakesIsNarrow(width, text);
    }
  }

  /** Which rows the columns of an asset take. */
  lemma FitsIff(draft: Draft)
    ensures Fits(draft) <==>
      && Narrow(draft.assetTag, 100) && Narrow(draft.barcode, 150)
      && NarrowOrNone(draft.serialNumber, 150) && NarrowOrNone(draft.systemUuid, 100)
      && NarrowDetails(draft.details)
  {
    hide DetailsFit, NarrowDetails, KeysFit, Narrow;
    DetailsFitIff(draft.details);
    KeysFitIff(KeysOf(draft));
  }

  /** Another asset, live or deleted, has the text under the column. */
  predicate Taken(assets: map<AssetId, Asset>, id: AssetId, column: Column, text: string) {
    exists other :: other in assets && other != id && Bears(assets[other], column, Some(text))
  }

  lemma CollidesIff(assets: map<AssetId, Asset>, id: AssetId, keys: Keys)
    ensures Collides(assets, id, keys) <==> exists column | column in keys :: Taken(assets, id, column, keys[column])
  {
    if other :| other in assets && other != id && Shares(assets[other].keys, keys) {
      var column :| column in assets[other].keys && column in keys && assets[other].keys[column] == keys[column];
      assert Bears(assets[other], column, Some(keys[column]));
    }
    if column :| column in keys && Taken(assets, id, column, keys[column]) {
      var other :| other in assets && other != id && Bears(assets[other], column, Some(keys[column]));
      assert Shares(assets[other].keys, keys);
    }
  }

  /** No other asset has one of the keys. */
  predicate Unclaimed(assets: map<AssetId, Asset>, id: AssetId, keys: Keys) {
    forall column | column in keys :: !Taken(assets, id, column, keys[column])
  }

  lemma OneWriteIff(db: Db, step: Step, id: AssetId, row: Asset)
    requires Guard(db, step) && Writes(db, step) == [Write(id, row)]
    ensures Enabled(db, step) <==> Unclaimed(db.assets, id, row.keys)
    ensures Enabled(db, step) ==> Perform(db, step) == db.(assets := db.assets[id := row])
    requires !step.Maintain? && !step.Stage? && !step.Commit? && !step.Rollback?
  {
    OneWrite(db.assets, Write(id, row));
    CollidesIff(db.assets, id, row.keys);
    hide Collides, Taken, Guard;
  }

  /** An asset is received when the catalogue knows what its row names, its texts fit, and its keys are free. */
  lemma CreateIff(db: Db, id: AssetId, draft: Draft)
    requires id !in db.assets
    ensures Enabled(db, Create(id, draft)) <==>
      && db.catalogue.hasReady && draft.warehouse in db.catalogue.warehouses
      && (forall reference | reference in draft.references :: reference in db.catalogue.references)
      && Narrow(draft.assetTag, 100) && Narrow(draft.barcode, 150)
      && NarrowOrNone(draft.serialNumber, 150) && NarrowOrNone(draft.systemUuid, 100)
      && NarrowDetails(draft.details)
      && !Taken(db.assets, id, AssetTag, draft.assetTag) && !Taken(db.assets, id, Barcode, draft.barcode)
      && (draft.serialNumber.Some? ==> !Taken(db.assets, id, SerialNumber, draft.serialNumber.value))
      && (draft.systemUuid.Some? ==> !Taken(db.assets, id, SystemUuid, draft.systemUuid.value))
  {
    hide Fits, NarrowDetails, Narrow, Taken, WriteAll;
    FitsIff(draft);
    if Guard(db, Create(id, draft)) {
      OneWriteIff(db, Create(id, draft), id, NewAsset(draft, db.catalogue));
      var keys := NewAsset(draft, db.catalogue).keys;
      assert keys[AssetTag] == draft.assetTag && keys[Barcode] == draft.barcode;
      assert draft.serialNumber.Some? ==> keys[SerialNumber] == draft.serialNumber.value;
      assert draft.systemUuid.Some? ==> keys[SystemUuid] == draft.systemUuid.value;
    }
  }

  /** A batch is received whole: when it has rows, none of them invalid, each receivable and fitting, with keys that no
      asset of the register and no other row has. */
  lemma CommitGuardMeans(db: Db, b: BatchId, ids: seq<AssetId>)
    requires b in db.batches && |ids| == |db.batches[b].rows| && FreshIds(db.assets, ids)
    ensures Guard(db, Commit(b, ids)) <==>
      && db.batches[b].status == Staged && db.batches[b].invalidRows == 0 && |ids| > 0 && db.catalogue.hasReady
      && forall i | 0 <= i < |ids| ::
           && db.batches[b].rows[i].draft.warehouse in db.catalogue.warehouses
           && db.batches[b].rows[i].draft.references <= db.catalogue.references
           && Fits(db.batches[b].rows[i].draft)
  {
    hide Fits;
    var rows := db.batches[b].rows;
    assert forall row | row in rows :: exists i :: 0 <= i < |rows| && rows[i] == row;
  }

  /** An update keeps what it does not name, adds one entry to the history, and needs its keys free. */
  lemma UpdateIff(db: Db, id: AssetId, keys: Keys, details: Details, status: Option<Status>)
    requires id in db.assets
    ensures var before := db.assets[id];
      Enabled(db, Update(id, keys, details, status)) <==>
        && !before.deleted && KeysFit(keys) && NarrowDetails(details)
        && (forall column | column in keys :: !Taken(db.assets, id, column, keys[column]))
        && (forall column | column in before.keys && column !in keys ::
              !Taken(db.assets, id, column, before.keys[column]))
    ensures Enabled(db, Update(id, keys, details, status)) ==>
      var before, after := db.assets[id], Perform(db, Update(id, keys, details, status));
      && after == db.(assets := db.assets[id := after.assets[id]])
      && (forall column | column in keys :: Bears(after.assets[id], column, Some(keys[column])))
      && (forall column | column !in keys :: Bears(after.assets[id], column,
            if column in before.keys then Some(before.keys[column]) else None))
      && after.assets[id].details == details && after.assets[id].histories == before.histories + 1
      && after.assets[id].status == (if status == None then before.status else status.value)
      && after.assets[id] == before.(keys := after.assets[id].keys, details := details,
                                     histories := before.histories + 1, status := after.assets[id].status)
  {
    hide KeysFit, DetailsFit, NarrowDetails, Taken, WriteAll;
    DetailsFitIff(details);
    if Guard(db, Update(id, keys, details, status)) {
      OneWriteIff(db, Update(id, keys, details, status), id, Updated(db.assets[id], keys, details, status));
    }
  }

  /** A deleted asset has its tombstone for a tag and a barcode, its keys in the archive, and nobody to hold it. Only an
      administrator deletes one that is in use. */
  lemma RemoveIff(db: Db, id: AssetId, admin: bool)
    requires id in db.assets
    ensures var before := db.assets[id];
      Enabled(db, Remove(id, admin)) <==>
        && !before.deleted
        && (admin || (before.status == Ready && before.custodian == None && before.openAssignments == 0))
        && !Taken(db.assets, id, AssetTag, "DELETED-" + id) && !Taken(db.assets, id, Barcode, "DELETED-" + id)
    ensures Enabled(db, Remove(id, admin)) ==>
      var before, after := db.assets[id], Perform(db, Remove(id, admin));
      && after == db.(assets := db.assets[id := after.assets[id]])
      && Bears(after.assets[id], AssetTag, Some("DELETED-" + id))
      && Bears(after.assets[id], Barcode, Some("DELETED-" + id))
      && Bears(after.assets[id], SerialNumber, None) && Bears(after.assets[id], SystemUuid, None)
      && after.assets[id] == Asset(after.assets[id].keys, before.keys, before.details, before.location, before.status,
                                   None, 0, true, before.records, before.histories + 1)
  {
    hide Taken, WriteAll;
    if Guard(db, Remove(id, admin)) {
      var keys := Removed(id, db.assets[id]).keys;
      assert keys[AssetTag] == "DELETED-" + id && keys[Barcode] == "DELETED-" + id;
      OneWriteIff(db, Remove(id, admin), id, Removed(id, db.assets[id]));
    }
  }

  /** What is undone, and what a rollback leaves of an asset: its tombstone for a tag and a barcode, and no serial
      number. */
  lemma UntouchedMeans(id: AssetId, asset: Asset)
    ensures Untouched(asset) <==>
      && !asset.deleted && asset.status == Ready && asset.custodian == None && asset.histories == 1
      && asset.records.assignments == 0 && asset.records.assetReturns == 0 && asset.records.transfers == 0
      && asset.records.maintenance == 0 && asset.records.inventory == 0
    ensures var gone := Entombed(id, asset);
      && Bears(gone, AssetTag, Some("ROLLED-BACK-" + id)) && Bears(gone, Barcode, Some("ROLLED-BACK-" + id))
      && Bears(gone, SerialNumber, None)
      && Bears(gone, SystemUuid, if SystemUuid in asset.keys then Some(asset.keys[SystemUuid]) else None)
      && gone == asset.(keys := gone.keys, deleted := true, histories := asset.histories + 1)
  {
  }

  /** A rolled-back batch keeps its rows with the ids of their assets; those committed are marked as rolled back. */
  lemma RollbackMeans(db: Db, b: BatchId)
    requires b in db.batches && Enabled(db, Rollback(b))
    ensures var before, after := db.batches[b], Perform(db, Rollback(b)).batches[b];
      && before.status == BatchCommitted && after.status == BatchRolledBack
      && after.invalidRows == before.invalidRows && after.committedRows == before.committedRows
      && |after.rows| == |before.rows|
      && (forall i | 0 <= i < |before.rows| :: after.rows[i] == Row(before.rows[i].draft,
            if before.rows[i].status == Committed then RolledBack else before.rows[i].status, before.rows[i].assetId))
      && Perform(db, Rollback(b)).batches == db.batches[b := after]
      && Perform(db, Rollback(b)).catalogue == db.catalogue
  {
    hide WriteAll, Untouched;
  }

  /** The positions of the rows with a status. */
  function With(rows: seq<Row>, status: RowStatus): set<int> {
    set i | 0 <= i < |rows| && rows[i].status == status
  }

  lemma WithNext(rows: seq<Row>, status: RowStatus)
    requires rows != []
    ensures var n := |rows| - 1;
      |With(rows, status)| == |With(rows[..n], status)| + (if rows[n].status == status then 1 else 0)
  {
    var n := |rows| - 1;
    assert With(rows, status) == With(rows[..n], status) + (if rows[n].status == status then {n} else {});
  }

  lemma {:induction false} RowsAreCounted(rows: seq<Row>)
    ensures CountInvalid(rows) == |With(rows, Invalid)| && |CommittedOf(rows)| == |With(rows, Committed)|
  {
    if rows != [] {
      RowsAreCounted(rows[..|rows| - 1]);
      WithNext(rows, Invalid);
      WithNext(rows, Committed);
      hide With;
    }
  }

  lemma {:induction false} CommittedIsListed(rows: seq<Row>, i: nat)
    requires i < |rows| && rows[i].status == Committed
    ensures rows[i] in CommittedOf(rows)
  {
    if i < |rows| - 1 {
      CommittedIsListed(rows[..|rows| - 1], i);
    }
  }

  /** A rollback is taken on for a committed batch that is whole and none of whose assets has been worked with. */
  lemma RollbackGuardMeans(db: Db, b: BatchId)
    requires b in db.batches
    ensures Guard(db, Rollback(b)) <==>
      && db.batches[b].status == BatchCommitted
      && db.batches[b].committedRows == |With(db.batches[b].rows, Committed)|
      && forall i | i in With(db.batches[b].rows, Committed) ::
           && db.batches[b].rows[i].assetId.Some? && db.batches[b].rows[i].assetId.value in db.assets
           && Untouched(db.assets[db.batches[b].rows[i].assetId.value])
  {
    hide Untouched;
    var rows := db.batches[b].rows;
    RowsAreCounted(rows);
    forall i | 0 <= i < |rows| && rows[i].status == Committed ensures rows[i] in CommittedOf(rows) {
      CommittedIsListed(rows, i);
    }
    forall row | row in CommittedOf(rows) ensures exists i :: i in With(rows, Committed) && rows[i] == row {
      var i :| 0 <= i < |rows| && rows[i] == row;
      assert i in With(rows, Committed);
    }
  }

  /** A new batch is staged with as many invalid rows as it has, none of them committed. */
  lemma StageMeans(db: Db, b: BatchId, rows: seq<Row>)
    requires b !in db.batches
    ensures Enabled(db, Stage(b, rows)) <==> forall i | 0 <= i < |rows| ::
      && rows[i].status != Committed && rows[i].status != RolledBack
      && rows[i].assetId == None && rows[i].draft.systemUuid == None
    ensures Enabled(db, Stage(b, rows)) ==>
      Perform(db, Stage(b, rows)) ==
      db.(batches := db.batches[b := Batch(rows, Staged, |With(rows, Invalid)|, 0)])
  {
    RowsAreCounted(rows);
    hide CountInvalid, With;
    forall i | 0 <= i < |rows|
      ensures rows[i].status in {Valid, Invalid} <==> rows[i].status != Committed && rows[i].status != RolledBack
    {
      StatusesAre(rows[i].status);
    }
    assert forall i | 0 <= i < |rows| :: rows[i] in rows;
  }

  lemma StatusesAre(status: RowStatus)
    ensures status in {Valid, Invalid} <==> status != Committed && status != RolledBack
  {
    assert status.Valid? || status.Invalid? || status.Committed? || status.RolledBack?;
  }
}
