/** What staging finds in order, told by the texts of the payload
    (apps/api/src/modules/asset-imports/asset-imports.rules.ts and asset-imports.service.ts). */
module StagingLaws {
  import opened Common
  import opened ImportStaging
  import Text

  /** The text without blanks around it; whatever is no text reads as the empty one. */
  function Shown(payload: Payload, name: string): string {
    if name in payload && payload[name].Str? then Text.Trim(payload[name].chars) else ""
  }

  /** Missing, null, false, zero and the empty text. */
  predicate Blank(payload: Payload, name: string) {
    || name !in payload || payload[name] == Undefined || payload[name] == Null || payload[name] == Bool(false)
    || payload[name] == Number(0.0) || payload[name] == Str("")
  }

  lemma TextIsShown(payload: Payload, name: string)
    ensures TextOf(Field(payload, name)) == Shown(payload, name)
    ensures Truthy(Field(payload, name)) <==> !Blank(payload, name)
  {
    hide Text.Trim;
  }

  predicate HexDigit(c: char) {
    48 <= c as int <= 57 || 65 <= c as int <= 70 || 97 <= c as int <= 102
  }

  /** Five groups of 8, 4, 4, 4 and 12 hexadecimal digits, the third starting with a version from 1 to 5 and the fourth
      with the bits of the variant of RFC 4122. */
  ghost predicate UuidText(s: string) {
    && |s| == 36
    && s[8] == '-' && s[13] == '-' && s[18] == '-' && s[23] == '-'
    && (forall i | 0 <= i < 8 || 9 <= i < 13 || 14 <= i < 18 || 19 <= i < 23 || 24 <= i < 36 :: HexDigit(s[i]))
    && 49 <= s[14] as int <= 53
    && s[19] as int in {56, 57, 65, 66, 97, 98}
  }

  lemma IsUuidIff(s: string)
    ensures IsUuid(s) <==> UuidText(s)
  {
    if |s| == 36 {
      VariantIff(s[19]);
    }
  }

  lemma VariantIff(c: char)
    ensures c in "89abAB" <==> c as int in {56, 57, 65, 66, 97, 98}
  {
    assert "89abAB"[0] == '8' && "89abAB"[1] == '9' && "89abAB"[2] == 'a' && "89abAB"[3] == 'b';
    assert "89abAB"[4] == 'A' && "89abAB"[5] == 'B';
  }

  /** A reference is left out or has the form of an id. */
  ghost predicate WellReferenced(payload: Payload, name: string) {
    Blank(payload, name) || UuidText(Shown(payload, name))
  }

  ghost predicate CleanNumbers(host: Host, payload: Payload) {
    && ("purchaseCost" in payload && payload["purchaseCost"] != Undefined ==>
          var cost := host.finiteNumber(payload["purchaseCost"]); cost.Some? && cost.value >= 0.0)
    && ("warrantyMonths" in payload && payload["warrantyMonths"] != Undefined ==>
          var months := host.finiteNumber(payload["warrantyMonths"]);
          months.Some? && months.value >= 0.0 && months.value.Floor as real == months.value)
    && (Blank(payload, "purchaseDate") || host.dateParses(Shown(payload, "purchaseDate")))
  }

  lemma MissingIff(payload: Payload)
    ensures (forall field | field in REQUIRED :: TextOf(Field(payload, field)) != "") <==>
      && Shown(payload, "assetTag") != "" && Shown(payload, "name") != "" && Shown(payload, "barcode") != ""
      && Shown(payload, "categoryId") != "" && Shown(payload, "warehouseId") != ""
  {
    TextIsShown(payload, "assetTag");
    TextIsShown(payload, "name");
    TextIsShown(payload, "barcode");
    TextIsShown(payload, "categoryId");
    TextIsShown(payload, "warehouseId");
    hide TextOf, Field, Shown;
    assert REQUIRED[0] == "assetTag" && REQUIRED[1] == "name" && REQUIRED[2] == "barcode";
    assert REQUIRED[3] == "categoryId" && REQUIRED[4] == "warehouseId";
  }

  predicate UuidMissing(payload: Payload, name: string) {
    Truthy(Field(payload, name)) && !IsUuid(TextOf(Field(payload, name)))
  }

  lemma ReferenceIff(payload: Payload, name: string)
    ensures UuidMissing(payload, name) <==> !WellReferenced(payload, name)
  {
    TextIsShown(payload, name);
    IsUuidIff(Shown(payload, name));
    hide Truthy, Field, IsUuid, UuidText, Shown, Blank, TextOf;
  }

  lemma ReferencesIff(payload: Payload)
    ensures (forall name | name in REFERENCES :: !UuidMissing(payload, name)) <==>
      && WellReferenced(payload, "categoryId") && WellReferenced(payload, "warehouseId")
      && WellReferenced(payload, "modelId") && WellReferenced(payload, "manufacturerId")
  {
    ReferenceIff(payload, "categoryId");
    ReferenceIff(payload, "warehouseId");
    ReferenceIff(payload, "modelId");
    ReferenceIff(payload, "manufacturerId");
    hide UuidMissing, WellReferenced;
    assert REFERENCES[0] == "categoryId" && REFERENCES[1] == "warehouseId";
    assert REFERENCES[2] == "modelId" && REFERENCES[3] == "manufacturerId";
  }

  lemma NumbersIff(host: Host, payload: Payload)
    ensures CleanNumbers(host, payload) <==>
      && !PayloadFault(host, payload, BadCost) && !PayloadFault(host, payload, BadWarranty)
      && !PayloadFault(host, payload, BadPurchaseDate)
  {
    TextIsShown(payload, "purchaseDate");
    hide TextOf, Truthy, Shown, Blank;
  }

  /** The payloads without a fault: the five required texts are there, references have the form of ids, a cost is a
      number not below zero, a warranty a whole one, and a date a date. */
  lemma CleanPayloadIff(host: Host, payload: Payload)
    ensures PayloadFaults(host, payload) == [] <==>
      && Shown(payload, "assetTag") != "" && Shown(payload, "name") != "" && Shown(payload, "barcode") != ""
      && Shown(payload, "categoryId") != "" && Shown(payload, "warehouseId") != ""
      && WellReferenced(payload, "categoryId") && WellReferenced(payload, "warehouseId")
      && WellReferenced(payload, "modelId") && WellReferenced(payload, "manufacturerId")
      && CleanNumbers(host, payload)
  {
    hide PayloadFaults, PayloadFault, CleanNumbers, WellReferenced, Shown;
    PayloadFaultsAre(host, payload);
    MissingIff(payload);
    ReferencesIff(payload);
    NumbersIff(host, payload);
    FaultsAreThese(host, payload);
    if PayloadFaults(host, payload) != [] {
      assert PayloadFaults(host, payload)[0] in PayloadFaults(host, payload);
    }
    hide UuidMissing, TextOf, Field;
  }

  lemma FaultsAreThese(host: Host, payload: Payload)
    ensures (forall fault :: !PayloadFault(host, payload, fault)) <==>
      && (forall field | field in REQUIRED :: TextOf(Field(payload, field)) != "")
      && (forall name | name in REFERENCES :: !UuidMissing(payload, name))
      && !PayloadFault(host, payload, BadCost) && !PayloadFault(host, payload, BadWarranty)
      && !PayloadFault(host, payload, BadPurchaseDate)
  {
    hide TextOf, Field, Truthy, IsUuid, WholeNumber, Negative, REQUIRED, REFERENCES;
    forall field ensures PayloadFault(host, payload, Missing(field)) <==>
      field in REQUIRED && TextOf(Field(payload, field)) == "" {
    }
    forall name
      ensures PayloadFault(host, payload, BadUuid(name)) <==> name in REFERENCES && UuidMissing(payload, name)
    {
    }
    assert forall fault :: PayloadFault(host, payload, fault) ==>
      fault.Missing? || fault.BadUuid? || fault.BadCost? || fault.BadWarranty? || fault.BadPurchaseDate?;
    hide PayloadFault, UuidMissing;
  }

  // ---------------------------------------------------------------------------------------------
  // Identities
  // ---------------------------------------------------------------------------------------------

  /** Tags, barcodes and serial numbers are compared without blanks around them and in lower case. */
  lemma IdentityMeans(row: Row)
    ensures IdentityOf(row, AssetTag) == Text.Lower(Shown(row.payload, "assetTag"))
    ensures IdentityOf(row, Barcode) == Text.Lower(Shown(row.payload, "barcode"))
    ensures IdentityOf(row, SerialNumber) == Text.Lower(Shown(row.payload, "serialNumber"))
  {
    TextIsShown(row.payload, "assetTag");
    TextIsShown(row.payload, "barcode");
    TextIsShown(row.payload, "serialNumber");
  }

  /** A live asset takes its tag, its barcode and its serial number from every row, whatever field a row has them in. */
  lemma TakenMeans(register: Register, value: string)
    ensures Taken(register, value) <==>
      && value != ""
      && exists asset | asset in register.live ::
           || Text.Lower(asset.assetTag) == value || Text.Lower(asset.barcode) == value
           || (asset.serialNumber.Some? && Text.Lower(asset.serialNumber.value) == value)
  {
    forall asset | asset in register.live
      ensures value in Occupied(asset) <==>
        && value != ""
        && (|| Text.Lower(asset.assetTag) == value || Text.Lower(asset.barcode) == value
            || (asset.serialNumber.Some? && Text.Lower(asset.serialNumber.value) == value))
    {
    }
  }

  /** Categories and warehouses are looked up once they have the form of an id. */
  lemma UnknownMeans(register: Register, row: Row)
    ensures var category, warehouse := Shown(row.payload, "categoryId"), Shown(row.payload, "warehouseId");
      && (LateFault(register, row, UnknownCategory) <==> UuidText(category) && category !in register.categories)
      && (LateFault(register, row, UnknownWarehouse) <==> UuidText(warehouse) && warehouse !in register.warehouses)
  {
    TextIsShown(row.payload, "categoryId");
    TextIsShown(row.payload, "warehouseId");
    IsUuidIff(Shown(row.payload, "categoryId"));
    IsUuidIff(Shown(row.payload, "warehouseId"));
    hide TextOf, Field, Shown, IsUuid, UuidText;
  }

  /** Which lists of rows the tables take: each row number once and in 32 bits, and no text with the character 0. */
  lemma InsertableMeans(rows: seq<Row>)
    ensures Insertable(rows) <==>
      && (forall i, j | 0 <= i < |rows| && 0 <= j < |rows| && rows[i].rowNumber == rows[j].rowNumber :: i == j)
      && (forall i | 0 <= i < |rows| :: rows[i].rowNumber < 0x8000_0000)
      && (forall i, name | 0 <= i < |rows| && name in rows[i].payload ::
            && (forall k | 0 <= k < |name| :: name[k] as int != 0)
            && match rows[i].payload[name]
               case Str(chars) => forall k | 0 <= k < |chars| :: chars[k] as int != 0
               case Composite(zero) => !zero
               case _ => true)
  {
    if DistinctNumbers(rows) {
      forall i, j | 0 <= i < |rows| && 0 <= j < |rows| && rows[i].rowNumber == rows[j].rowNumber ensures i == j {
      }
    }
    forall i, name | 0 <= i < |rows| && name in rows[i].payload
      ensures ('\0' !in name && !HoldsZero(rows[i].payload[name])) <==>
        && (forall k | 0 <= k < |name| :: name[k] as int != 0)
        && match rows[i].payload[name]
           case Str(chars) => forall k | 0 <= k < |chars| :: chars[k] as int != 0
           case Composite(zero) => !zero
           case _ => true
    {
    }
  }

  /** A stored batch has every row with its number and payload, marked VALID exactly when nothing was found, and its
      three counts are those of its rows. */
  lemma StoredMeans(batch: Batch, host: Host, register: Register, rows: seq<Row>)
    requires Reports(batch, host, register, rows)
    ensures |batch.rows| == |rows| == batch.totalRows
    ensures batch.validRows == |With(batch.rows, Valid)| && batch.invalidRows == |With(batch.rows, Invalid)|
    ensures forall i | 0 <= i < |rows| ::
      && batch.rows[i].rowNumber == rows[i].rowNumber && batch.rows[i].payload == rows[i].payload
      && (batch.rows[i].status == Valid <==> |batch.rows[i].errors| == 0)
      && (batch.rows[i].status == Valid <==> forall fault :: !RowFault(host, register, rows, i, fault))
  {
    StatusIsCounted(batch.rows, Valid);
    StatusIsCounted(batch.rows, Invalid);
    hide RowFault, CountStatus, With;
    forall i | 0 <= i < |rows|
      ensures batch.rows[i].errors == [] <==> forall fault :: !RowFault(host, register, rows, i, fault)
    {
      if batch.rows[i].errors != [] {
        assert batch.rows[i].errors[0] in batch.rows[i].errors;
      }
    }
  }

  /** The positions of the rows with a status. */
  function With(rows: seq<StagedRow>, status: RowStatus): set<int> {
    set i | 0 <= i < |rows| && rows[i].status == status
  }

  lemma {:induction false} StatusIsCounted(rows: seq<StagedRow>, status: RowStatus)
    ensures CountStatus(rows, status) == |With(rows, status)|
  {
    if rows != [] {
      var n := |rows| - 1;
      StatusIsCounted(rows[..n], status);
      assert With(rows, status) == With(rows[..n], status) + (if rows[n].status == status then {n} else {});
    }
  }
}
