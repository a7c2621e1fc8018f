/** Staging of an asset import (apps/api/src/modules/asset-imports/asset-imports.service.ts and
    asset-imports.rules.ts): every row is checked, and the batch is stored with the faults found. */
module ImportStaging {
  import opened Common
  import opened Text

  // ---------------------------------------------------------------------------------------------
  // Payloads
  // ---------------------------------------------------------------------------------------------

  /** `zero` tells whether a text inside a list or an object holds the character 0. */
  datatype Json =
    | Undefined | Null | Bool(flag: bool) | Number(number: real) | Str(chars: string) | Composite(zero: bool)

  type Payload = map<string, Json>

  /** Conversions of the JavaScript runtime: the finite value of Number(x), and whether Date.parse reads a text; and
      whether a DATE column takes the date read. */
  datatype Host = Host(finiteNumber: Json -> Option<real>, dateParses: string -> bool, dateFits: string -> bool)

  function Field(payload: Payload, name: string): Json {
    if name in payload then payload[name] else Undefined
  }

  function TextOf(value: Json): string {
    if value.Str? then Trim(value.chars) else ""
  }

  predicate Truthy(value: Json) {
    match value
    case Undefined => false
    case Null => false
    case Bool(flag) => flag
    case Number(number) => number != 0.0
    case Str(chars) => chars != ""
    case Composite(_) => true
  }

  predicate IsHex(c: char) {
    '0' <= c <= '9' || 'a' <= c <= 'f' || 'A' <= c <= 'F'
  }

  predicate IsUuid(s: string) {
    && |s| == 36
    && (forall i :: 0 <= i < 36 ==> if i in {8, 13, 18, 23} then s[i] == '-' else IsHex(s[i]))
    && '1' <= s[14] <= '5'
    && s[19] in "89abAB"
  }

  const REQUIRED := ["assetTag", "name", "barcode", "categoryId", "warehouseId"]
  const REFERENCES := ["categoryId", "warehouseId", "modelId", "manufacturerId"]

  datatype IdField = AssetTag | Barcode | SerialNumber

  const IDENTITIES := [AssetTag, Barcode, SerialNumber]

  function Name(field: IdField): string {
    match field case AssetTag => "assetTag" case Barcode => "barcode" case SerialNumber => "serialNumber"
  }

  /** Position of a field in IDENTITIES. */
  function Position(field: IdField): (n: nat)
    ensures n < |IDENTITIES| && IDENTITIES[n] == field
  {
    match field case AssetTag => 0 case Barcode => 1 case SerialNumber => 2
  }

  datatype Fault =
    | Missing(field: string)
    | BadUuid(field: string)
    | BadCost
    | BadWarranty
    | BadPurchaseDate
    | RepeatedRowNumber
    | RepeatedIdentity(idField: IdField, firstRow: nat)
    | TakenIdentity(idField: IdField)
    | UnknownCategory
    | UnknownWarehouse

  predicate Negative(number: Option<real>) {
    number.None? || number.value < 0.0
  }

  predicate WholeNumber(number: Option<real>) {
    number.Some? && number.value == number.value.Floor as real
  }

  /** When a payload on its own is at fault. */
  predicate PayloadFault(host: Host, payload: Payload, fault: Fault) {
    match fault
    case Missing(field) => field in REQUIRED && TextOf(Field(payload, field)) == ""
    case BadUuid(field) =>
      field in REFERENCES && Truthy(Field(payload, field)) && !IsUuid(TextOf(Field(payload, field)))
    case BadCost =>
      Field(payload, "purchaseCost") != Undefined && Negative(host.finiteNumber(Field(payload, "purchaseCost")))
    case BadWarranty =>
      var months := host.finiteNumber(Field(payload, "warrantyMonths"));
      Field(payload, "warrantyMonths") != Undefined && (!WholeNumber(months) || Negative(months))
    case BadPurchaseDate =>
      Truthy(Field(payload, "purchaseDate")) && !host.dateParses(TextOf(Field(payload, "purchaseDate")))
    case _ => false
  }

  function AddIf(faults: seq<Fault>, fault: Fault, condition: bool): seq<Fault> {
    if condition then faults + [fault] else faults
  }

  /** Faults of the first n required fields, in the order of the fields. */
  function MissingFields(payload: Payload, n: nat): (faults: seq<Fault>)
    requires n <= |REQUIRED|
  {
    if n == 0 then []
    else
      var field := REQUIRED[n - 1];
      AddIf(MissingFields(payload, n - 1), Missing(field), TextOf(Field(payload, field)) == "")
  }

  /** These of all required fields, followed by those of the first n references. */
  function FieldFaults(payload: Payload, n: nat): (faults: seq<Fault>)
    requires n <= |REFERENCES|
  {
    if n == 0 then MissingFields(payload, |REQUIRED|)
    else
      var field := REFERENCES[n - 1];
      var value := Field(payload, field);
      AddIf(FieldFaults(payload, n - 1), BadUuid(field), Truthy(value) && !IsUuid(TextOf(value)))
  }

  /** All faults of a payload, in the order in which they are listed. */
  function PayloadFaults(host: Host, payload: Payload): (faults: seq<Fault>) {
    var fields := FieldFaults(payload, |REFERENCES|);
    var cost := AddIf(fields, BadCost, PayloadFault(host, payload, BadCost));
    var warranty := AddIf(cost, BadWarranty, PayloadFault(host, payload, BadWarranty));
    AddIf(warranty, BadPurchaseDate, PayloadFault(host, payload, BadPurchaseDate))
  }

  ghost predicate Distinct(faults: seq<Fault>) {
    forall i, j | 0 <= i < j < |faults| :: faults[i] != faults[j]
  }

  lemma AddIfIs(faults: seq<Fault>, fault: Fault, condition: bool)
    requires Distinct(faults) && fault !in faults
    ensures forall other ::
      other in AddIf(faults, fault, condition) <==> other in faults || (condition && other == fault)
    ensures Distinct(AddIf(faults, fault, condition))
  {
  }

  predicate MissingFault(payload: Payload, fault: Fault) {
    fault.Missing? && TextOf(Field(payload, fault.field)) == ""
  }

  predicate UuidFault(payload: Payload, fault: Fault) {
    fault.BadUuid? && Truthy(Field(payload, fault.field)) && !IsUuid(TextOf(Field(payload, fault.field)))
  }

  lemma {:induction false} MissingFieldsAre(payload: Payload, n: nat)
    requires n <= |REQUIRED|
    ensures forall fault ::
      fault in MissingFields(payload, n) <==> MissingFault(payload, fault) && fault.field in REQUIRED[..n]
    ensures Distinct(MissingFields(payload, n))
  {
    hide TextOf, Field, AddIf, Distinct;
    if n > 0 {
      MissingFieldsAre(payload, n - 1);
      assert REQUIRED[..n] == REQUIRED[..n - 1] + [REQUIRED[n - 1]];
      assert REQUIRED[n - 1] !in REQUIRED[..n - 1];
      var field := REQUIRED[n - 1];
      AddIfIs(MissingFields(payload, n - 1), Missing(field), TextOf(Field(payload, field)) == "");
    } else {
      NoneAreDistinct();
    }
  }

  lemma NoneAreDistinct()
    ensures Distinct([])
  {
  }

  lemma {:induction false} FieldFaultsAre(payload: Payload, n: nat)
    requires n <= |REFERENCES|
    ensures forall fault :: fault in FieldFaults(payload, n) <==>
      (MissingFault(payload, fault) && fault.field in REQUIRED)
      || (UuidFault(payload, fault) && fault.field in REFERENCES[..n])
    ensures Distinct(FieldFaults(payload, n))
  {
    hide TextOf, Field, IsUuid, Truthy, AddIf, Distinct, MissingFields;
    if n > 0 {
      FieldFaultsAre(payload, n - 1);
      assert REFERENCES[..n] == REFERENCES[..n - 1] + [REFERENCES[n - 1]];
      assert REFERENCES[n - 1] !in REFERENCES[..n - 1];
      var field := REFERENCES[n - 1];
      var value := Field(payload, field);
      AddIfIs(FieldFaults(payload, n - 1), BadUuid(field), Truthy(value) && !IsUuid(TextOf(value)));
    } else {
      MissingFieldsAre(payload, |REQUIRED|);
      assert REQUIRED[..|REQUIRED|] == REQUIRED;
    }
  }

  /** Exactly the faults of a payload are listed, each once. */
  lemma PayloadFaultsAre(host: Host, payload: Payload)
    ensures forall fault :: fault in PayloadFaults(host, payload) <==> PayloadFault(host, payload, fault)
    ensures Distinct(PayloadFaults(host, payload))
  {
    hide TextOf, Field, IsUuid, Truthy, FieldFaults, WholeNumber, Negative, AddIf, Distinct;
    var fields := FieldFaults(payload, |REFERENCES|);
    FieldFaultsAre(payload, |REFERENCES|);
    assert REFERENCES[..|REFERENCES|] == REFERENCES;
    AddIfIs(fields, BadCost, PayloadFault(host, payload, BadCost));
    var cost := AddIf(fields, BadCost, PayloadFault(host, payload, BadCost));
    AddIfIs(cost, BadWarranty, PayloadFault(host, payload, BadWarranty));
    var warranty := AddIf(cost, BadWarranty, PayloadFault(host, payload, BadWarranty));
    AddIfIs(warranty, BadPurchaseDate, PayloadFault(host, payload, BadPurchaseDate));
  }

  method ValidateImportPayload(host: Host, payload: Payload) returns (errors: seq<Fault>)
    ensures errors == PayloadFaults(host, payload)
  {
    hide IsUuid, TextOf, Truthy, Field, WholeNumber, Negative;
    errors := [];
    for i := 0 to |REQUIRED|
      invariant errors == MissingFields(payload, i)
    {
      if TextOf(Field(payload, REQUIRED[i])) == "" {
        errors := errors + [Missing(REQUIRED[i])];
      }
    }
    for i := 0 to |REFERENCES|
      invariant errors == FieldFaults(payload, i)
    {
      var value := Field(payload, REFERENCES[i]);
      if Truthy(value) && !IsUuid(TextOf(value)) {
        errors := errors + [BadUuid(REFERENCES[i])];
      }
    }
    var cost := Field(payload, "purchaseCost");
    if cost != Undefined && Negative(host.finiteNumber(cost)) {
      errors := errors + [BadCost];
    }
    var months := Field(payload, "warrantyMonths");
    if months != Undefined && (!WholeNumber(host.finiteNumber(months)) || Negative(host.finiteNumber(months))) {
      errors := errors + [BadWarranty];
    }
    var date := Field(payload, "purchaseDate");
    if Truthy(date) && !host.dateParses(TextOf(date)) {
      errors := errors + [BadPurchaseDate];
    }
  }

  // ---------------------------------------------------------------------------------------------
  // Rows against each other and against the register
  // ---------------------------------------------------------------------------------------------

  datatype Row = Row(rowNumber: nat, payload: Payload)

  /** The identifying texts of an asset in the register. */
  datatype Identity = Identity(assetTag: string, barcode: string, serialNumber: Option<string>)

  /** What the database holds while a batch is staged: live assets, and the ids of active categories and warehouses. */
  datatype Register = Register(live: set<Identity>, categories: set<string>, warehouses: set<string>)

  /** A row's text for one identity field, as it is compared. */
  function IdentityOf(row: Row, field: IdField): string {
    Lower(TextOf(Field(row.payload, Name(field))))
  }

  /** The texts a live asset occupies, under any field. */
  function Occupied(asset: Identity): set<string> {
    ({Lower(asset.assetTag), Lower(asset.barcode)} +
      (if asset.serialNumber.Some? then {Lower(asset.serialNumber.value)} else {}))
    - {""}
  }

  /** The number of the first of the first n rows that carries a value. */
  function FirstRow(rows: seq<Row>, n: nat, field: IdField, value: string): Option<nat>
    requires n <= |rows|
  {
    if n == 0 then None
    else
      var earlier := FirstRow(rows, n - 1, field, value);
      if earlier.Some? then earlier
      else if IdentityOf(rows[n - 1], field) == value then Some(rows[n - 1].rowNumber)
      else None
  }

  /** A value of row i that an earlier row of the batch has in the same field; the fault names the first such row. */
  predicate RepeatFault(rows: seq<Row>, i: nat, fault: Fault)
    requires i < |rows|
  {
    && fault.RepeatedIdentity?
    && IdentityOf(rows[i], fault.idField) != ""
    && FirstRow(rows, i, fault.idField, IdentityOf(rows[i], fault.idField)) == Some(fault.firstRow)
  }

  predicate RepeatsNumber(rows: seq<Row>, i: nat)
    requires i < |rows|
  {
    exists j | 0 <= j < i :: rows[j].rowNumber == rows[i].rowNumber
  }

  predicate Taken(register: Register, value: string) {
    exists asset | asset in register.live :: value in Occupied(asset)
  }

  predicate UnknownIn(ids: set<string>, id: string) {
    IsUuid(id) && id !in ids
  }

  function IdOf(row: Row, name: string): string {
    TextOf(Field(row.payload, name))
  }

  predicate LateFault(register: Register, row: Row, fault: Fault) {
    match fault
    case TakenIdentity(field) => Taken(register, IdentityOf(row, field))
    case UnknownCategory => UnknownIn(register.categories, IdOf(row, "categoryId"))
    case UnknownWarehouse => UnknownIn(register.warehouses, IdOf(row, "warehouseId"))
    case _ => false
  }

  /** The faults of row i that the batch shows by itself. */
  predicate BatchFault(host: Host, rows: seq<Row>, i: nat, fault: Fault)
    requires i < |rows|
  {
    || PayloadFault(host, rows[i].payload, fault)
    || (fault == RepeatedRowNumber && RepeatsNumber(rows, i))
    || RepeatFault(rows, i, fault)
  }

  /** When row i of a batch is at fault. */
  predicate RowFault(host: Host, register: Register, rows: seq<Row>, i: nat, fault: Fault)
    requires i < |rows|
  {
    BatchFault(host, rows, i, fault) || LateFault(register, rows[i], fault)
  }

  datatype RowStatus = Valid | Invalid

  datatype StagedRow = StagedRow(rowNumber: nat, payload: Payload, status: RowStatus, errors: seq<Fault>)

  datatype Batch = Batch(rows: seq<StagedRow>, totalRows: nat, validRows: nat, invalidRows: nat)

  predicate DistinctNumbers(rows: seq<Row>) {
    forall i, j :: 0 <= i < j < |rows| ==> rows[i].rowNumber != rows[j].rowNumber
  }

  predicate HoldsZero(value: Json) {
    (value.Str? && '\0' in value.chars) || (value.Composite? && value.zero)
  }

  /** A JSONB column takes no text with the character 0. */
  predicate Storable(payload: Payload) {
    forall name | name in payload :: '\0' !in name && !HoldsZero(payload[name])
  }

  /** The rows as their table takes them: numbers are unique in a batch and 32 bits wide. */
  predicate Insertable(rows: seq<Row>) {
    && DistinctNumbers(rows)
    && (forall i | 0 <= i < |rows| :: rows[i].rowNumber <= MAX_INT && Storable(rows[i].payload))
  }

  function CountStatus(rows: seq<StagedRow>, status: RowStatus): (n: nat)
    ensures n <= |rows|
  {
    if rows == [] then 0
      else CountStatus(rows[..|rows| - 1], status) + (if rows[|rows| - 1].status == status then 1 else 0)
  }

  // ---------------------------------------------------------------------------------------------
  // The passes over a batch
  // ---------------------------------------------------------------------------------------------

  /** Row numbers by field and value; the service joins the two to one key, with a colon that no field name has. */
  type Memory = map<(IdField, string), nat>

  function Recall(memory: Memory, field: IdField, value: string): Option<nat> {
    if (field, value) in memory then Some(memory[(field, value)]) else None
  }

  /** What is remembered of one field after the first n rows. */
  ghost predicate Remembers(memory: Memory, rows: seq<Row>, n: nat, field: IdField)
    requires n <= |rows|
  {
    forall value | value != "" :: Recall(memory, field, value) == FirstRow(rows, n, field, value)
  }

  ghost predicate RemembersAll(memory: Memory, rows: seq<Row>, n: nat)
    requires n <= |rows|
  {
    forall field :: Remembers(memory, rows, n, field)
  }

  lemma FirstRowNext(rows: seq<Row>, i: nat, field: IdField, value: string)
    requires i < |rows|
    ensures FirstRow(rows, i + 1, field, value) ==
      (if FirstRow(rows, i, field, value).Some? then FirstRow(rows, i, field, value)
      else if IdentityOf(rows[i], field) == value then Some(rows[i].rowNumber) else None)
  {
  }

  predicate Numbered(rows: seq<Row>) {
    forall k :: 0 <= k < |rows| ==> rows[k].rowNumber >= 1
  }

  lemma {:induction false} FirstRowIsPositive(rows: seq<Row>, n: nat, field: IdField, value: string)
    requires n <= |rows| && Numbered(rows)
    ensures FirstRow(rows, n, field, value).Some? ==> FirstRow(rows, n, field, value).value >= 1
  {
    if n > 0 {
      FirstRowIsPositive(rows, n - 1, field, value);
    }
  }

  /** The first row of a batch that carries a value, found by search from the front. */
  lemma {:induction false} FirstRowIsFirst(rows: seq<Row>, n: nat, field: IdField, value: string)
    requires n <= |rows|
    ensures FirstRow(rows, n, field, value).None? ==> forall j | 0 <= j < n :: IdentityOf(rows[j], field) != value
    ensures FirstRow(rows, n, field, value).Some? ==> (exists j | 0 <= j < n ::
      && IdentityOf(rows[j], field) == value
      && rows[j].rowNumber == FirstRow(rows, n, field, value).value
      && forall k | 0 <= k < j :: IdentityOf(rows[k], field) != value)
  {
    hide IdentityOf;
    if n > 0 {
      FirstRowIsFirst(rows, n - 1, field, value);
      if FirstRow(rows, n - 1, field, value).None? && IdentityOf(rows[n - 1], field) == value {
        assert FirstRow(rows, n, field, value) == Some(rows[n - 1].rowNumber);
      }
    }
  }

  /** One identity field of one row against what has been seen. */
  method CheckRepeat(rows: seq<Row>, i: nat, field: IdField, found: seq<Fault>, memory: Memory)
    returns (errors: seq<Fault>, seen: Memory)
    requires i < |rows| && Numbered(rows)
    requires Remembers(memory, rows, i, field)
    ensures forall fault ::
      fault in errors <==> (fault in found || (RepeatFault(rows, i, fault) && fault.idField == field))
    ensures Remembers(seen, rows, i + 1, field)
    ensures forall other, value | other != field :: Recall(seen, other, value) == Recall(memory, other, value)
  {
    hide IdentityOf, FirstRow;
    errors, seen := found, memory;
    var value := IdentityOf(rows[i], field);
    if value != "" {
      var key := (field, value);
      assert Recall(memory, field, value) == FirstRow(rows, i, field, value);
      FirstRowIsPositive(rows, i, field, value);
      if key in memory && memory[key] != 0 {
        errors := errors + [RepeatedIdentity(field, memory[key])];
      } else {
        seen := memory[key := rows[i].rowNumber];
      }
    }
    forall other | other != ""
      ensures Recall(seen, field, other) == FirstRow(rows, i + 1, field, other)
    {
      FirstRowNext(rows, i, field, other);
      assert Recall(memory, field, other) == FirstRow(rows, i, field, other);
    }
  }

  /** The three identity fields of one row, in turn. */
  method CheckRepeats(rows: seq<Row>, i: nat, found: seq<Fault>, memory: Memory)
    returns (errors: seq<Fault>, seen: Memory)
    requires i < |rows| && Numbered(rows)
    requires RemembersAll(memory, rows, i)
    ensures forall fault :: fault in errors <==> (fault in found || RepeatFault(rows, i, fault))
    ensures RemembersAll(seen, rows, i + 1)
  {
    hide IdentityOf, FirstRow;
    errors, seen := found, memory;
    for f := 0 to |IDENTITIES|
      invariant forall fault :: fault in errors <==>
        (fault in found || (RepeatFault(rows, i, fault) && Position(fault.idField) < f))
      invariant forall field | Position(field) < f :: Remembers(seen, rows, i + 1, field)
      invariant forall field | Position(field) >= f :: Remembers(seen, rows, i, field)
    {
      ghost var before := seen;
      var field := IDENTITIES[f];
      assert Position(field) == f;
      errors, seen := CheckRepeat(rows, i, field, errors, seen);
      forall other | other != field
        ensures Remembers(before, rows, i, other) ==> Remembers(seen, rows, i, other)
        ensures Remembers(before, rows, i + 1, other) ==> Remembers(seen, rows, i + 1, other)
      {
      }
    }
    ghost var next := i + 1;
    forall field
      ensures Remembers(seen, rows, next, field)
    {
      assert Position(field) < |IDENTITIES|;
    }
  }

  method Prepare(host: Host, rows: seq<Row>) returns (errors: seq<seq<Fault>>)
    ensures |errors| == |rows|
    ensures forall i, fault | 0 <= i < |rows| :: fault in errors[i] <==> PayloadFault(host, rows[i].payload, fault)
  {
    hide PayloadFault, PayloadFaults, Distinct;
    errors := [];
    for i := 0 to |rows|
      invariant |errors| == i
      invariant forall k, fault | 0 <= k < i :: fault in errors[k] <==> PayloadFault(host, rows[k].payload, fault)
    {
      var found := ValidateImportPayload(host, rows[i].payload);
      PayloadFaultsAre(host, rows[i].payload);
      errors := errors + [found];
    }
  }

  /** The duplicate checks: one pass that remembers the row numbers and identities seen so far. */
  method FindRepeats(host: Host, rows: seq<Row>) returns (errors: seq<seq<Fault>>)
    requires Numbered(rows)
    ensures |errors| == |rows|
    ensures forall i, fault | 0 <= i < |rows| :: fault in errors[i] <==> BatchFault(host, rows, i, fault)
  {
    hide PayloadFault, FirstRow, IdentityOf;
    errors := Prepare(host, rows);
    var seenRows: set<nat> := {};
    var seenIdentity: Memory := map[];
    FirstRowOfNone(rows);
    for i := 0 to |rows|
      invariant |errors| == |rows|
      invariant forall k, fault | 0 <= k < i :: fault in errors[k] <==> BatchFault(host, rows, k, fault)
      invariant forall k, fault | i <= k < |rows| :: fault in errors[k] <==> PayloadFault(host, rows[k].payload, fault)
      invariant forall number :: number in seenRows <==> (exists j | 0 <= j < i :: rows[j].rowNumber == number)
      invariant RemembersAll(seenIdentity, rows, i)
    {
      var found := errors[i];
      if rows[i].rowNumber in seenRows {
        found := found + [RepeatedRowNumber];
      }
      seenRows := seenRows + {rows[i].rowNumber};
      found, seenIdentity := CheckRepeats(rows, i, found, seenIdentity);
      errors := errors[i := found];
    }
  }

  lemma FirstRowOfNone(rows: seq<Row>)
    ensures RemembersAll(map[], rows, 0)
  {
  }

  // ---------------------------------------------------------------------------------------------
  // Rows against the register
  // ---------------------------------------------------------------------------------------------

  function Texts(row: Row): set<string> {
    (set field | field in IDENTITIES :: IdOf(row, Name(field))) - {""}
  }

  /** One asset as the case-insensitive query sees it. */
  predicate Matches(asset: Identity, identities: set<string>) {
    exists identity | identity in identities ::
      || Lower(asset.assetTag) == Lower(identity)
      || Lower(asset.barcode) == Lower(identity)
      || (asset.serialNumber.Some? && Lower(asset.serialNumber.value) == Lower(identity))
  }

  /** Every text of the live assets that share one with the batch. */
  method OccupiedBy(register: Register, rows: seq<Row>) returns (occupied: set<string>)
    ensures forall row, field | row in rows ::
      IdentityOf(row, field) in occupied <==> Taken(register, IdentityOf(row, field))
  {
    hide Texts, Occupied, Matches, IdentityOf, Taken;
    var identities: set<string> := {};
    for i := 0 to |rows|
      invariant identities == (set k, text | 0 <= k < i && text in Texts(rows[k]) :: text)
    {
      identities := identities + Texts(rows[i]);
    }
    var existing := set asset | asset in register.live && Matches(asset, identities);
    occupied := set asset, text | asset in existing && text in Occupied(asset) :: text;
    forall row, field | row in rows
      ensures IdentityOf(row, field) in occupied <==> Taken(register, IdentityOf(row, field))
    {
      var k :| 0 <= k < |rows| && rows[k] == row;
      assert Texts(rows[k]) <= identities;
      OccupiedIsTaken(register, row, field, identities);
    }
  }

  lemma OccupiedIsTaken(register: Register, row: Row, field: IdField, identities: set<string>)
    requires Texts(row) <= identities
    ensures Taken(register, IdentityOf(row, field)) <==>
      (exists asset | asset in register.live && Matches(asset, identities) :: IdentityOf(row, field) in Occupied(asset))
  {
    var value := IdentityOf(row, field);
    if Taken(register, value) {
      var asset :| asset in register.live && value in Occupied(asset);
      assert field in IDENTITIES by { assert IDENTITIES[Position(field)] == field; }
      assert IdOf(row, Name(field)) in identities by { hide Trim; }
      assert Lower(IdOf(row, Name(field))) == value;
      hide Lower, IdOf, IdentityOf;
      assert Matches(asset, identities);
    }
  }

  method CheckTaken(row: Row, occupied: set<string>, found: seq<Fault>) returns (errors: seq<Fault>)
    ensures forall fault :: fault in errors <==>
      (fault in found || (fault.TakenIdentity? && IdentityOf(row, fault.idField) in occupied))
  {
    hide IdentityOf;
    errors := found;
    for f := 0 to |IDENTITIES|
      invariant forall fault :: fault in errors <==>
        (fault in found
          || (fault.TakenIdentity? && Position(fault.idField) < f && IdentityOf(row, fault.idField) in occupied))
    {
      assert Position(IDENTITIES[f]) == f;
      if IdentityOf(row, IDENTITIES[f]) in occupied {
        errors := errors + [TakenIdentity(IDENTITIES[f])];
      }
    }
    forall fault: Fault | fault.TakenIdentity?
      ensures Position(fault.idField) < |IDENTITIES|
    {
    }
  }

  method CheckReferences(register: Register, row: Row, found: seq<Fault>) returns (errors: seq<Fault>)
    ensures forall fault ::
      fault in errors <==> (fault in found || (!fault.TakenIdentity? && LateFault(register, row, fault)))
  {
    hide IsUuid, IdOf, Taken, IdentityOf;
    errors := found;
    if UnknownIn(register.categories, IdOf(row, "categoryId")) {
      errors := errors + [UnknownCategory];
    }
    if UnknownIn(register.warehouses, IdOf(row, "warehouseId")) {
      errors := errors + [UnknownWarehouse];
    }
  }

  /** The checks against the register: taken identities, then categories and warehouses that are not active. */
  method CheckRegister(register: Register, rows: seq<Row>, prepared: seq<seq<Fault>>) returns (errors: seq<seq<Fault>>)
    requires |prepared| == |rows|
    ensures |errors| == |rows|
    ensures forall i, fault | 0 <= i < |rows| ::
      fault in errors[i] <==> (fault in prepared[i] || LateFault(register, rows[i], fault))
  {
    hide Texts, Matches;
    var occupied := OccupiedBy(register, rows);
    forall i, field | 0 <= i < |rows|
      ensures IdentityOf(rows[i], field) in occupied <==> Taken(register, IdentityOf(rows[i], field))
    {
      assert rows[i] in rows;
    }
    hide IdentityOf, IsUuid, IdOf, Taken;
    errors := prepared;
    for i := 0 to |rows|
      invariant |errors| == |rows|
      invariant forall k, fault | 0 <= k < i :: fault in errors[k] <==>
        (fault in prepared[k] || (fault.TakenIdentity? && LateFault(register, rows[k], fault)))
      invariant forall k | i <= k < |rows| :: errors[k] == prepared[k]
    {
      var found := CheckTaken(rows[i], occupied, errors[i]);
      errors := errors[i := found];
    }
    ghost var checked := errors;
    for i := 0 to |rows|
      invariant |errors| == |rows|
      invariant forall k, fault | 0 <= k < i :: fault in errors[k] <==>
        (fault in prepared[k] || LateFault(register, rows[k], fault))
      invariant forall k | i <= k < |rows| :: errors[k] == checked[k]
    {
      assert errors[i] == checked[i];
      var found := CheckReferences(register, rows[i], errors[i]);
      forall fault
        ensures fault in found <==> (fault in prepared[i] || LateFault(register, rows[i], fault))
      {
        assert fault in checked[i] <==>
          (fault in prepared[i] || (fault.TakenIdentity? && LateFault(register, rows[i], fault)));
      }
      errors := errors[i := found];
    }
  }

  // ---------------------------------------------------------------------------------------------
  // Staging
  // ---------------------------------------------------------------------------------------------

  /** What a stored batch says of the rows it was given. */
  ghost predicate Reports(batch: Batch, host: Host, register: Register, rows: seq<Row>) {
    && |batch.rows| == |rows|
    && (forall i | 0 <= i < |rows| ::
      && batch.rows[i].rowNumber == rows[i].rowNumber
      && batch.rows[i].payload == rows[i].payload
      && (batch.rows[i].status == Valid <==> batch.rows[i].errors == []))
    && (forall i, fault | 0 <= i < |rows| ::
      fault in batch.rows[i].errors <==> RowFault(host, register, rows, i, fault))
    && batch.totalRows == |rows|
    && batch.validRows == CountStatus(batch.rows, Valid)
    && batch.invalidRows == CountStatus(batch.rows, Invalid)
  }

  lemma {:induction false} CountsAddUp(rows: seq<StagedRow>)
    ensures CountStatus(rows, Valid) + CountStatus(rows, Invalid) == |rows|
  {
    if rows != [] {
      CountsAddUp(rows[..|rows| - 1]);
    }
  }

  lemma {:induction false} NoInvalidIffAllValid(rows: seq<StagedRow>)
    ensures CountStatus(rows, Invalid) == 0 <==> forall i | 0 <= i < |rows| :: rows[i].status == Valid
  {
    if rows != [] {
      NoInvalidIffAllValid(rows[..|rows| - 1]);
      assert rows == rows[..|rows| - 1] + [rows[|rows| - 1]];
    }
  }

  /** The row that is stored for a row and its faults. */
  function StagedOf(row: Row, errors: seq<Fault>): StagedRow {
    StagedRow(row.rowNumber, row.payload, if errors == [] then Valid else Invalid, errors)
  }

  lemma Reported(batch: Batch, host: Host, register: Register, rows: seq<Row>, errors: seq<seq<Fault>>)
    requires |batch.rows| == |errors| == |rows|
    requires forall i | 0 <= i < |rows| :: batch.rows[i] == StagedOf(rows[i], errors[i])
    requires forall i, fault | 0 <= i < |rows| :: fault in errors[i] <==> RowFault(host, register, rows, i, fault)
    requires batch.totalRows == |rows| && batch.validRows == CountStatus(batch.rows, Valid)
    requires batch.invalidRows == |rows| - batch.validRows
    ensures Reports(batch, host, register, rows)
  {
    hide RowFault;
    CountsAddUp(batch.rows);
  }

  /** Stages a batch. The rows are stored under a unique index on batch and row number, so a list that repeats a row
      number is refused as a whole and nothing is stored, like one with a number or a payload that its column does not
      take. */
  method Stage(host: Host, register: Register, rows: seq<Row>) returns (stored: Option<Batch>)
    requires Numbered(rows)
    ensures stored.Some? <==> Insertable(rows)
    ensures stored.Some? ==> Reports(stored.value, host, register, rows)
  {
    hide BatchFault, LateFault, Reports, Insertable;
    var repeats := FindRepeats(host, rows);
    var errors := CheckRegister(register, rows, repeats);
    forall i, fault | 0 <= i < |rows|
      ensures fault in errors[i] <==> RowFault(host, register, rows, i, fault)
    {
      assert fault in repeats[i] <==> BatchFault(host, rows, i, fault);
    }
    var staged: seq<StagedRow> := [];
    var validRows := 0;
    for i := 0 to |rows|
      invariant |staged| == i
      invariant forall k | 0 <= k < i :: staged[k] == StagedOf(rows[k], errors[k])
      invariant validRows == CountStatus(staged, Valid)
    {
      var row := StagedOf(rows[i], errors[i]);
      assert (staged + [row])[..i] == staged;
      staged := staged + [row];
      if errors[i] == [] {
        validRows := validRows + 1;
      }
    }
    if Insertable(rows) {
      stored := Some(Batch(staged, |rows|, validRows, |rows| - validRows));
      Reported(stored.value, host, register, rows, errors);
    } else {
      stored := None;
    }
  }

  // ---------------------------------------------------------------------------------------------
  // What a stored batch promises
  // ---------------------------------------------------------------------------------------------

  lemma ValidHasNoFault(batch: Batch, host: Host, register: Register, rows: seq<Row>, i: nat, fault: Fault)
    requires Reports(batch, host, register, rows) && i < |rows| && batch.rows[i].status == Valid
    ensures !RowFault(host, register, rows, i, fault)
  {
    hide RowFault;
    assert fault in batch.rows[i].errors <==> RowFault(host, register, rows, i, fault);
  }

  /** Two VALID rows never share a row number or an identity. */
  lemma ValidRowsAreDistinct(batch: Batch, host: Host, register: Register, rows: seq<Row>, i: nat, j: nat,
                             field: IdField)
    requires Reports(batch, host, register, rows)
    requires i < j < |rows| && batch.rows[i].status == Valid && batch.rows[j].status == Valid
    ensures batch.rows[i].rowNumber != batch.rows[j].rowNumber
    ensures IdentityOf(rows[i], field) == IdentityOf(rows[j], field) ==> IdentityOf(rows[i], field) == ""
  {
    hide IdentityOf, PayloadFault, LateFault;
    var first := FirstRow(rows, j, field, IdentityOf(rows[j], field));
    var fault := RepeatedIdentity(field, if first.Some? then first.value else 0);
    ValidHasNoFault(batch, host, register, rows, j, fault);
    ValidHasNoFault(batch, host, register, rows, j, RepeatedRowNumber);
    FirstRowIsFirst(rows, j, field, IdentityOf(rows[j], field));
    hide Reports;
    assert !RepeatFault(rows, j, fault) && !RepeatsNumber(rows, j);
  }

  /** A VALID row takes no text of a live asset, fills every required field and names an active category and
      warehouse. */
  lemma ValidRowsAreFree(batch: Batch, host: Host, register: Register, rows: seq<Row>, i: nat)
    requires Reports(batch, host, register, rows)
    requires i < |rows| && batch.rows[i].status == Valid
    ensures forall field, asset | asset in register.live :: IdentityOf(rows[i], field) !in Occupied(asset)
    ensures forall name | name in REQUIRED :: IdOf(rows[i], name) != ""
    ensures IdOf(rows[i], "categoryId") in register.categories && IdOf(rows[i], "warehouseId") in register.warehouses
  {
    hide Reports, IsUuid, Occupied, Trim;
    var row := rows[i];
    forall field
      ensures !Taken(register, IdentityOf(row, field))
    {
      ValidHasNoFault(batch, host, register, rows, i, TakenIdentity(field));
      assert !LateFault(register, row, TakenIdentity(field));
    }
    forall name | name in REQUIRED
      ensures IdOf(row, name) != ""
    {
      ValidHasNoFault(batch, host, register, rows, i, Missing(name));
      assert !PayloadFault(host, row.payload, Missing(name));
    }
    forall name | name in REQUIRED && name in REFERENCES
      ensures IsUuid(IdOf(row, name))
    {
      ValidHasNoFault(batch, host, register, rows, i, BadUuid(name));
      assert !PayloadFault(host, row.payload, BadUuid(name));
      TextsAreTruthy(Field(row.payload, name));
    }
    assert REQUIRED[3] == REFERENCES[0] == "categoryId" && REQUIRED[4] == REFERENCES[1] == "warehouseId";
    ValidHasNoFault(batch, host, register, rows, i, UnknownCategory);
    ValidHasNoFault(batch, host, register, rows, i, UnknownWarehouse);
    assert !LateFault(register, row, UnknownCategory) && !LateFault(register, row, UnknownWarehouse);
  }

  lemma TextsAreTruthy(value: Json)
    ensures TextOf(value) != "" ==> Truthy(value)
  {
  }

  /** A row is blamed for a repeated value exactly when an earlier row has that value. */
  lemma RepeatsAreEarlierRows(batch: Batch, host: Host, register: Register, rows: seq<Row>, i: nat, field: IdField)
    requires Reports(batch, host, register, rows) && i < |rows|
    ensures (exists number :: RepeatedIdentity(field, number) in batch.rows[i].errors) <==>
      (IdentityOf(rows[i], field) != "" && exists j | 0 <= j < i ::
        IdentityOf(rows[j], field) == IdentityOf(rows[i], field))
  {
    hide IdentityOf, PayloadFault;
    var first := FirstRow(rows, i, field, IdentityOf(rows[i], field));
    forall number
      ensures RepeatedIdentity(field, number) in batch.rows[i].errors <==>
        RepeatFault(rows, i, RepeatedIdentity(field, number))
    {
      RepeatInReport(batch, host, register, rows, i, field, number);
    }
    FirstRowIsFirst(rows, i, field, IdentityOf(rows[i], field));
    hide Reports, FirstRow;
    if first.Some? {
      assert RepeatFault(rows, i, RepeatedIdentity(field, first.value)) <==> IdentityOf(rows[i], field) != "";
    }
  }

  lemma RepeatInReport(batch: Batch, host: Host, register: Register, rows: seq<Row>, i: nat, field: IdField,
                       number: nat)
    requires Reports(batch, host, register, rows) && i < |rows|
    ensures RepeatedIdentity(field, number) in batch.rows[i].errors <==>
      RepeatFault(rows, i, RepeatedIdentity(field, number))
  {
    hide FirstRow, IdentityOf;
    var fault := RepeatedIdentity(field, number);
    assert fault in batch.rows[i].errors <==> RowFault(host, register, rows, i, fault);
  }

  /** The row a fault names is the first that has the value, and is not blamed for it. */
  lemma FirstHolderIsNotBlamed(batch: Batch, host: Host, register: Register, rows: seq<Row>, i: nat, field: IdField,
                               number: nat)
    returns (j: nat)
    requires Reports(batch, host, register, rows) && i < |rows|
    requires RepeatedIdentity(field, number) in batch.rows[i].errors
    ensures j < i && rows[j].rowNumber == number && IdentityOf(rows[j], field) == IdentityOf(rows[i], field)
    ensures forall other :: RepeatedIdentity(field, other) !in batch.rows[j].errors
  {
    hide IdentityOf;
    var value := IdentityOf(rows[i], field);
    RepeatInReport(batch, host, register, rows, i, field, number);
    FirstRowIsFirst(rows, i, field, value);
    hide FirstRow, PayloadFault;
    j :| 0 <= j < i && IdentityOf(rows[j], field) == value && rows[j].rowNumber == number
      && forall k | 0 <= k < j :: IdentityOf(rows[k], field) != value;
    RepeatsAreEarlierRows(batch, host, register, rows, j, field);
  }

  lemma CountsOfBatch(batch: Batch, host: Host, register: Register, rows: seq<Row>)
    requires Reports(batch, host, register, rows)
    ensures batch.validRows + batch.invalidRows == |rows|
    ensures batch.invalidRows == 0 <==>
      (forall i, fault | 0 <= i < |rows| :: !RowFault(host, register, rows, i, fault))
  {
    hide RowFault;
    CountsAddUp(batch.rows);
    NoInvalidIffAllValid(batch.rows);
    forall i | 0 <= i < |rows|
      ensures batch.rows[i].status == Valid <==> forall fault :: !RowFault(host, register, rows, i, fault)
    {
      if batch.rows[i].errors != [] {
        assert batch.rows[i].errors[0] in batch.rows[i].errors;
      }
    }
  }
}
