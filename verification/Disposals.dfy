/** The disposal workflow over shared assets
    (apps/api/src/modules/disposals/disposals.rules.ts and disposals.service.ts). */
module Disposals {
  import opened Common
  import Text

  type AssetId = string
  type CaseId = string
  type UserId = string

  datatype AssetStatus = Ready | InUse | OnLoan | Returned | Reserved | Maintenance | Lost | Broken | Disposed

  datatype Placement = Placement(assignedUser: Option<UserId>, custodian: Option<UserId>,
                                 department: Option<string>, warehouse: Option<string>, location: Option<string>)

  const NOWHERE := Placement(None, None, None, None, None)

  datatype Asset = Asset(status: AssetStatus, deleted: bool, openAssignment: bool, openMaintenance: bool,
                         placement: Placement)

  datatype CaseStatus = Draft | Submitted | Approved | Rejected | InExecution | Completed | Cancelled

  datatype DisposalType = Sale | Donation | ReturnToVendor | Recycle | Destruction | OtherType

  datatype Evidence = ApprovalDocument | DataErasureCertificate | DestructionCertificate | SaleContract
                    | HandoverMinutes | Photo | OtherEvidence

  datatype Sanitization = NotRequired | Pending | Verified | Failed

  /** `snapshot` is the asset's status when the case was raised. */
  datatype Item = Item(assetId: AssetId, hasData: bool, sanitization: Sanitization, sanitizedBy: Option<UserId>,
                       snapshot: AssetStatus)

  datatype Action = Created | SubmittedForApproval | ApprovedBy | RejectedBy | ExecutionStarted | EvidenceAdded
                  | SanitizationUpdated | CompletedBy | CancelledBy

  datatype Case = Case(kind: DisposalType, status: CaseStatus, requester: UserId, approver: Option<UserId>,
                       executor: Option<UserId>, items: seq<Item>, evidence: seq<Evidence>, log: seq<Action>)

  datatype Db = Db(assets: map<AssetId, Asset>, cases: map<CaseId, Case>)

  datatype Error = CaseNotFound | ItemNotFound | AlreadyDisposed | NotEligible | NotDraft | RequiresAssets
                 | NotSubmitted | SegregationOfDuties | NotApproved | NotExecutable | NotInExecution
                 | EvidenceRequired | SanitizationRequired | CannotCancel | DuplicateAsset | AssetMissing
                 | InAnotherCase | NotReserved | OpenAssignment | OpenMaintenance | CertificateRequired
                 | SanitizationMandatory | MethodRequired

  type Result = Outcome<Error>

  // ---------------------------------------------------------------------------------------------
  // Rules
  // ---------------------------------------------------------------------------------------------

  predicate Eligible(status: AssetStatus) {
    status in {Ready, Returned, Broken}
  }

  function AssertEligible(status: AssetStatus): Result {
    if status == Disposed then Refused(AlreadyDisposed)
    else if !Eligible(status) then Refused(NotEligible)
    else Done
  }

  function AssertCanSubmit(status: CaseStatus, itemCount: nat): Result {
    if status != Draft then Refused(NotDraft)
    else if itemCount < 1 then Refused(RequiresAssets)
    else Done
  }

  function AssertCanApprove(status: CaseStatus, requester: UserId, approver: UserId): Result {
    if status != Submitted then Refused(NotSubmitted)
    else if requester == approver then Refused(SegregationOfDuties)
    else Done
  }

  function AssertCanStart(status: CaseStatus): Result {
    if status != Approved then Refused(NotApproved) else Done
  }

  function AssertCanRecordExecution(status: CaseStatus): Result {
    if status !in {Approved, InExecution} then Refused(NotExecutable) else Done
  }

  predicate HoldsData(items: seq<Item>) {
    exists item :: item in items && item.hasData
  }

  predicate DataErased(items: seq<Item>) {
    forall item :: item in items && item.hasData ==> item.sanitization == Verified
  }

  function AssertCanComplete(status: CaseStatus, evidenceCount: nat, items: seq<Item>): Result {
    if status != InExecution then Refused(NotInExecution)
    else if evidenceCount < 1 then Refused(EvidenceRequired)
    else if !DataErased(items) then Refused(SanitizationRequired)
    else Done
  }

  function AssertCanCancel(status: CaseStatus): Result {
    if status in {Completed, Cancelled, Rejected} then Refused(CannotCancel) else Done
  }

  /** The certificates a disposal type and data-bearing assets call for. */
  predicate HasRequiredEvidence(kind: DisposalType, evidence: seq<Evidence>, hasData: bool) {
    && (hasData ==> DataErasureCertificate in evidence)
    && (kind == Destruction ==> DestructionCertificate in evidence)
    && (kind == Sale ==> SaleContract in evidence || HandoverMinutes in evidence)
    && (kind in {Donation, ReturnToVendor, Recycle} ==> HandoverMinutes in evidence)
  }

  predicate Active(status: CaseStatus) {
    status in {Submitted, Approved, InExecution}
  }

  /** The case holds or has retired its assets. */
  predicate Held(status: CaseStatus) {
    Active(status) || status == Completed
  }

  function Rank(status: CaseStatus): nat {
    match status
    case Draft => 0
    case Submitted => 1
    case Approved => 2
    case InExecution => 3
    case _ => 4
  }

  // ---------------------------------------------------------------------------------------------
  // Assets of a case
  // ---------------------------------------------------------------------------------------------

  function AssetIds(items: seq<Item>): set<AssetId> {
    set item | item in items :: item.assetId
  }

  predicate DistinctAssets(items: seq<Item>) {
    forall i, j :: 0 <= i < j < |items| ==> items[i].assetId != items[j].assetId
  }

  function ItemFor(items: seq<Item>, id: AssetId): (item: Item)
    requires id in AssetIds(items)
    ensures item in items && item.assetId == id
  {
    if items[0].assetId == id then items[0] else ItemFor(items[1..], id)
  }

  /** The asset table after one change to each asset of the items. */
  function Touched(assets: map<AssetId, Asset>, items: seq<Item>, change: (Item, Asset) -> Asset): map<AssetId, Asset> {
    map id | id in assets :: if id in AssetIds(items) then change(ItemFor(items, id), assets[id]) else assets[id]
  }

  function Reserve(item: Item, asset: Asset): Asset {
    asset.(status := Reserved)
  }

  function Restore(item: Item, asset: Asset): Asset {
    asset.(status := item.snapshot)
  }

  function Retire(item: Item, asset: Asset): Asset {
    asset.(status := Disposed, placement := NOWHERE)
  }

  lemma {:induction false} ItemForPrefix(items: seq<Item>, n: nat, id: AssetId)
    requires n <= |items| && id in AssetIds(items[..n])
    ensures id in AssetIds(items) && ItemFor(items[..n], id) == ItemFor(items, id)
  {
    if items[0].assetId != id {
      assert items[..n][1..] == items[1..][..n - 1];
      ItemForPrefix(items[1..], n - 1, id);
    }
  }

  lemma {:induction false} ItemForOwn(items: seq<Item>, i: nat)
    requires i < |items| && DistinctAssets(items)
    ensures items[i].assetId in AssetIds(items) && ItemFor(items, items[i].assetId) == items[i]
  {
    if i > 0 {
      assert items[0].assetId != items[i].assetId;
      ItemForOwn(items[1..], i - 1);
    }
  }

  lemma TouchedNone(assets: map<AssetId, Asset>, items: seq<Item>, change: (Item, Asset) -> Asset)
    ensures Touched(assets, items[..0], change) == assets
  {
  }

  /** Changing the assets one item at a time, as the service's loops do. */
  lemma TouchedStep(assets: map<AssetId, Asset>, items: seq<Item>, i: nat, change: (Item, Asset) -> Asset)
    requires i < |items| && DistinctAssets(items) && items[i].assetId in assets
    ensures Touched(assets, items[..i + 1], change) ==
      Touched(assets, items[..i], change)[items[i].assetId := change(items[i], assets[items[i].assetId])]
    ensures items[i].assetId in Touched(assets, items[..i], change)
    ensures Touched(assets, items[..i], change)[items[i].assetId] == assets[items[i].assetId]
  {
    var before, after := items[..i], items[..i + 1];
    assert after == before + [items[i]];
    forall id | id in assets
      ensures id in AssetIds(after) <==> id in AssetIds(before) || id == items[i].assetId
      ensures id == items[i].assetId ==> id in AssetIds(after) && ItemFor(after, id) == items[i]
      ensures id in AssetIds(before) ==> id in AssetIds(after) && ItemFor(after, id) == ItemFor(before, id)
    {
      if id in AssetIds(before) {
        assert after[..i] == before;
        ItemForPrefix(after, i, id);
      }
      if id == items[i].assetId {
        ItemForOwn(after, i);
      }
    }
    forall id | id in AssetIds(before) ensures id != items[i].assetId {
      var item :| item in before && item.assetId == id;
    }
  }

  predicate ReservedElsewhere(cases: map<CaseId, Case>, id: CaseId, asset: AssetId) {
    exists other ::
      other in cases && other != id && Active(cases[other].status) && asset in AssetIds(cases[other].items)
  }

  // ---------------------------------------------------------------------------------------------
  // The steps: when each commits, and the tables it leaves
  // ---------------------------------------------------------------------------------------------

  datatype NewItem = NewItem(assetId: AssetId, hasData: bool)

  datatype Step =
    | Create(id: CaseId, kind: DisposalType, wanted: seq<NewItem>, actor: UserId)
    | Submit(id: CaseId)
    | Approve(id: CaseId, actor: UserId)
    | Reject(id: CaseId, actor: UserId)
    | Start(id: CaseId, actor: UserId)
    | AddEvidence(id: CaseId, evidence: Evidence)
    | UpdateSanitization(id: CaseId, asset: AssetId, sanitization: Sanitization, technique: string, actor: UserId)
    | Complete(id: CaseId, actor: UserId)
    | Cancel(id: CaseId)
    | Remove(id: CaseId)
    /** Any other module writing one asset: it leaves the status of an asset held by a case alone. */
    | Elsewhere(asset: AssetId, row: Asset)

  predicate DistinctWanted(wanted: seq<NewItem>) {
    forall i, j :: 0 <= i < j < |wanted| ==> wanted[i].assetId != wanted[j].assetId
  }

  predicate Wanted(assets: map<AssetId, Asset>, cases: map<CaseId, Case>, asset: AssetId) {
    && asset in assets && !assets[asset].deleted && Eligible(assets[asset].status)
    && !(exists other :: other in cases && Active(cases[other].status) && asset in AssetIds(cases[other].items))
  }

  predicate Reservable(db: Db, id: CaseId, asset: AssetId)
    requires asset in db.assets
  {
    Eligible(db.assets[asset].status) && !ReservedElsewhere(db.cases, id, asset)
  }

  predicate Retirable(asset: Asset) {
    asset.status == Reserved && !asset.openAssignment && !asset.openMaintenance
  }

  /** The foreign key and the unique index on case and asset. */
  ghost predicate Stored(db: Db) {
    && (forall id, item :: id in db.cases && item in db.cases[id].items ==> item.assetId in db.assets)
    && (forall id :: id in db.cases ==> DistinctAssets(db.cases[id].items))
  }

  ghost predicate HeldAsset(db: Db, asset: AssetId) {
    exists id :: id in db.cases && Held(db.cases[id].status) && asset in AssetIds(db.cases[id].items)
  }

  ghost predicate Enabled(db: Db, step: Step)
    requires Stored(db)
  {
    match step
    case Create(id, kind, wanted, actor) =>
      && id !in db.cases && wanted != []
      && DistinctWanted(wanted)
      && (forall item :: item in wanted ==> Wanted(db.assets, db.cases, item.assetId))
    case Elsewhere(asset, row) =>
      HeldAsset(db, asset) && asset in db.assets ==> row.status == db.assets[asset].status
    case Remove(id) => id in db.cases
    case _ =>
      step.id in db.cases && CaseEnabled(db, db.cases[step.id], step)
  }

  ghost predicate CaseEnabled(db: Db, c: Case, step: Step)
    requires Stored(db) && !step.Create? && !step.Elsewhere? && !step.Remove?
    requires step.id in db.cases && db.cases[step.id] == c
  {
    match step
    case Submit(id) => c.status == Draft && c.items != [] && forall item ::
      item in c.items ==> Reservable(db, id, item.assetId)
    case Approve(_, actor) => c.status == Submitted && actor != c.requester
    case Reject(_, actor) =>
      c.status == Submitted && actor != c.requester && forall item ::
        item in c.items ==> db.assets[item.assetId].status == Reserved
    case Start(_, _) => c.status == Approved
    case AddEvidence(_, _) => c.status in {Approved, InExecution}
    case UpdateSanitization(_, asset, sanitization, technique, _) =>
      && c.status in {Approved, InExecution} && asset in AssetIds(c.items)
      && (ItemFor(c.items, asset).hasData ==> sanitization != NotRequired)
      && (sanitization == Verified ==> Text.Trim(technique) != "")
    case Complete(_, _) =>
      && c.status == InExecution && c.evidence != []
      && DataErased(c.items)
      && HasRequiredEvidence(c.kind, c.evidence, HoldsData(c.items))
      && (forall item :: item in c.items ==> Retirable(db.assets[item.assetId]))
    case Cancel(_) =>
      && c.status in {Draft, Submitted, Approved, InExecution}
      && (c.status != Draft ==> forall item :: item in c.items ==> db.assets[item.assetId].status == Reserved)
  }

  function NewItems(assets: map<AssetId, Asset>, wanted: seq<NewItem>): seq<Item>
    requires forall item :: item in wanted ==> item.assetId in assets
  {
    seq(|wanted|, i requires 0 <= i < |wanted| =>
      Item(wanted[i].assetId, wanted[i].hasData, if wanted[i].hasData then Pending else NotRequired, None,
           assets[wanted[i].assetId].status))
  }

  function Sanitized(items: seq<Item>, asset: AssetId, sanitization: Sanitization, actor: UserId): seq<Item> {
    seq(|items|, i requires 0 <= i < |items| =>
      if items[i].assetId == asset
      then items[i].(sanitization := sanitization,
                     sanitizedBy := if sanitization == Verified then Some(actor) else None)
      else items[i])
  }

  /** The case after a step that its guard lets through. */
  function CaseAfter(c: Case, step: Step): Case {
    match step
    case Submit(_) => c.(status := Submitted, log := c.log + [SubmittedForApproval])
    case Approve(_, actor) => c.(status := Approved, approver := Some(actor), log := c.log + [ApprovedBy])
    case Reject(_, actor) => c.(status := Rejected, approver := Some(actor), log := c.log + [RejectedBy])
    case Start(_, actor) => c.(status := InExecution, executor := Some(actor), log := c.log + [ExecutionStarted])
    case AddEvidence(_, evidence) => c.(evidence := c.evidence + [evidence], log := c.log + [EvidenceAdded])
    case UpdateSanitization(_, asset, sanitization, _, actor) =>
      c.(items := Sanitized(c.items, asset, sanitization, actor), log := c.log + [SanitizationUpdated])
    case Complete(_, actor) =>
      c.(status := Completed, executor := if c.executor.Some? then c.executor else Some(actor),
         log := c.log + [CompletedBy])
    case Cancel(_) => c.(status := Cancelled, log := c.log + [CancelledBy])
    case _ => c
  }

  function AssetsAfter(assets: map<AssetId, Asset>, c: Case, step: Step): map<AssetId, Asset> {
    match step
    case Submit(_) => Touched(assets, c.items, Reserve)
    case Reject(_, _) => Touched(assets, c.items, Restore)
    case Complete(_, _) => Touched(assets, c.items, Retire)
    case Cancel(_) => if c.status == Draft then assets else Touched(assets, c.items, Restore)
    case Remove(_) => Touched(assets, c.items, Restore)
    case _ => assets
  }

  ghost function Apply(db: Db, step: Step): Db
    requires Stored(db) && Enabled(db, step)
  {
    match step
    case Create(id, kind, wanted, actor) =>
      db.(cases := db.cases[id := Case(kind, Draft, actor, None, None, NewItems(db.assets, wanted), [], [Created])])
    case Elsewhere(asset, row) => db.(assets := db.assets[asset := row])
    case Remove(id) => Db(AssetsAfter(db.assets, db.cases[id], step), db.cases - {id})
    case _ =>
      var c := db.cases[step.id];
      Db(AssetsAfter(db.assets, c, step), db.cases[step.id := CaseAfter(c, step)])
  }

  /** A step commits or changes nothing. */
  ghost function Perform(db: Db, step: Step): Db
    requires Stored(db)
  {
    if Enabled(db, step) then Apply(db, step) else db
  }

  // ---------------------------------------------------------------------------------------------
  // The service
  // ---------------------------------------------------------------------------------------------

  class DisposalsService {
    var assets: map<AssetId, Asset>
    var cases: map<CaseId, Case>

    ghost function View(): Db
      reads this
    {
      Db(assets, cases)
    }

    constructor (assets: map<AssetId, Asset>)
      ensures View() == Db(assets, map[])
    {
      this.assets := assets;
      this.cases := map[];
    }

    /** `id` is the key the database generates for the new case. */
    method CreateCase(id: CaseId, kind: DisposalType, wanted: seq<NewItem>, actor: UserId) returns (r: Result)
      requires Stored(View()) && id !in cases
      modifies this
      ensures r == Refused(RequiresAssets) <==> |wanted| == 0
      ensures r == Refused(DuplicateAsset) <==> |wanted| > 0 && !DistinctWanted(wanted)
      ensures r == Refused(AssetMissing) ==>
        exists item :: item in wanted && (item.assetId !in old(assets) || old(assets)[item.assetId].deleted)
      ensures r == Refused(AlreadyDisposed) ==>
        exists item :: item in wanted && item.assetId in old(assets) && old(assets)[item.assetId].status == Disposed
      ensures r.Done? <==> Enabled(old(View()), Create(id, kind, wanted, actor))
      ensures View() == Perform(old(View()), Create(id, kind, wanted, actor))
    {
      if wanted == [] {
        return Refused(RequiresAssets);
      }
      DistinctByCount(wanted);
      if |WantedIds(wanted)| != |wanted| {
        return Refused(DuplicateAsset);
      }
      if exists item :: item in wanted && (item.assetId !in assets || assets[item.assetId].deleted) {
        return Refused(AssetMissing);
      }
      for i := 0 to |wanted|
        modifies {}
        invariant forall k :: 0 <= k < i ==> Eligible(assets[wanted[k].assetId].status)
      {
        var check := AssertEligible(assets[wanted[i].assetId].status);
        if check.Refused? {
          return check;
        }
      }
      if exists other :: other in cases && Active(cases[other].status)
                         && exists item :: item in wanted && item.assetId in AssetIds(cases[other].items) {
        return Refused(InAnotherCase);
      }
      cases := cases[id := Case(kind, Draft, actor, None, None, NewItems(assets, wanted), [], [Created])];
      r := Done;
    }

    method SubmitCase(id: CaseId) returns (r: Result)
      requires Stored(View())
      modifies this
      ensures r == Refused(CaseNotFound) <==> id !in old(cases)
      ensures r == Refused(NotDraft) <==> id in old(cases) && old(cases)[id].status != Draft
      ensures r == Refused(RequiresAssets) <==>
        id in old(cases) && old(cases)[id].status == Draft && |old(cases)[id].items| == 0
      ensures r.Done? <==> Enabled(old(View()), Submit(id))
      ensures View() == Perform(old(View()), Submit(id))
    {
      hide Touched, ReservedElsewhere;
      if id !in cases {
        return Refused(CaseNotFound);
      }
      var disposal := cases[id];
      var check := AssertCanSubmit(disposal.status, |disposal.items|);
      if check.Refused? {
        return check;
      }
      ItemsStored(View(), id);
      var written := assets;
      TouchedNone(assets, disposal.items, Reserve);
      for i := 0 to |disposal.items|
        modifies {}
        invariant written == Touched(assets, disposal.items[..i], Reserve)
        invariant forall k :: 0 <= k < i ==> Reservable(View(), id, disposal.items[k].assetId)
      {
        var item := disposal.items[i];
        var eligible := AssertEligible(assets[item.assetId].status);
        if eligible.Refused? {
          return eligible;
        }
        if ReservedElsewhere(cases, id, item.assetId) {
          return Refused(InAnotherCase);
        }
        TouchedStep(assets, disposal.items, i, Reserve);
        written := written[item.assetId := written[item.assetId].(status := Reserved)];
      }
      assert disposal.items[..|disposal.items|] == disposal.items;
      assets := written;
      cases := cases[id := disposal.(status := Submitted, log := disposal.log + [SubmittedForApproval])];
      r := Done;
    }

    method ApproveCase(id: CaseId, actor: UserId) returns (r: Result)
      requires Stored(View())
      modifies this
      ensures r == Refused(CaseNotFound) <==> id !in old(cases)
      ensures r == Refused(NotSubmitted) <==> id in old(cases) && old(cases)[id].status != Submitted
      ensures r == Refused(SegregationOfDuties) <==>
        id in old(cases) && old(cases)[id].status == Submitted && old(cases)[id].requester == actor
      ensures r.Done? <==> Enabled(old(View()), Approve(id, actor))
      ensures View() == Perform(old(View()), Approve(id, actor))
    {
      if id !in cases {
        return Refused(CaseNotFound);
      }
      var disposal := cases[id];
      r := AssertCanApprove(disposal.status, disposal.requester, actor);
      if r.Done? {
        cases := cases[id :=
          disposal.(status := Approved, approver := Some(actor), log := disposal.log + [ApprovedBy])];
      }
    }

    method RejectCase(id: CaseId, actor: UserId) returns (r: Result)
      requires Stored(View())
      modifies this
      ensures r == Refused(CaseNotFound) <==> id !in old(cases)
      ensures r == Refused(NotSubmitted) <==> id in old(cases) && old(cases)[id].status != Submitted
      ensures r == Refused(SegregationOfDuties) <==>
        id in old(cases) && old(cases)[id].status == Submitted && old(cases)[id].requester == actor
      ensures r.Done? <==> Enabled(old(View()), Reject(id, actor))
      ensures View() == Perform(old(View()), Reject(id, actor))
    {
      if id !in cases {
        return Refused(CaseNotFound);
      }
      var disposal := cases[id];
      r := AssertCanApprove(disposal.status, disposal.requester, actor);
      if r.Refused? {
        return;
      }
      var written;
      r, written := RestoreAssets(disposal.items);
      if r.Done? {
        assets := written;
        cases := cases[id :=
          disposal.(status := Rejected, approver := Some(actor), log := disposal.log + [RejectedBy])];
      }
    }

    method StartCase(id: CaseId, actor: UserId) returns (r: Result)
      requires Stored(View())
      modifies this
      ensures r == Refused(CaseNotFound) <==> id !in old(cases)
      ensures r == Refused(NotApproved) <==> id in old(cases) && old(cases)[id].status != Approved
      ensures r.Done? <==> Enabled(old(View()), Start(id, actor))
      ensures View() == Perform(old(View()), Start(id, actor))
    {
      if id !in cases {
        return Refused(CaseNotFound);
      }
      var disposal := cases[id];
      r := AssertCanStart(disposal.status);
      if r.Done? {
        cases := cases[id :=
          disposal.(status := InExecution, executor := Some(actor), log := disposal.log + [ExecutionStarted])];
      }
    }

    method RecordEvidence(id: CaseId, evidence: Evidence) returns (r: Result)
      requires Stored(View())
      modifies this
      ensures r == Refused(CaseNotFound) <==> id !in old(cases)
      ensures r == Refused(NotExecutable) <==>
        id in old(cases) && old(cases)[id].status != Approved && old(cases)[id].status != InExecution
      ensures r.Done? <==> Enabled(old(View()), AddEvidence(id, evidence))
      ensures View() == Perform(old(View()), AddEvidence(id, evidence))
    {
      if id !in cases {
        return Refused(CaseNotFound);
      }
      var disposal := cases[id];
      r := AssertCanRecordExecution(disposal.status);
      if r.Done? {
        cases := cases[id :=
          disposal.(evidence := disposal.evidence + [evidence], log := disposal.log + [EvidenceAdded])];
      }
    }

    method RecordSanitization(id: CaseId, asset: AssetId, sanitization: Sanitization, technique: string, actor: UserId)
      returns (r: Result)
      requires Stored(View())
      modifies this
      ensures r == Refused(CaseNotFound) <==> id !in old(cases)
      ensures r == Refused(NotExecutable) <==>
        id in old(cases) && old(cases)[id].status != Approved && old(cases)[id].status != InExecution
      ensures r == Refused(ItemNotFound) ==>
        id in old(cases) && forall item :: item in old(cases)[id].items ==> item.assetId != asset
      ensures r == Refused(SanitizationMandatory) ==> sanitization == NotRequired
      ensures r == Refused(MethodRequired) ==> sanitization == Verified
      ensures r.Done? <==> Enabled(old(View()), UpdateSanitization(id, asset, sanitization, technique, actor))
      ensures View() == Perform(old(View()), UpdateSanitization(id, asset, sanitization, technique, actor))
    {
      if id !in cases {
        return Refused(CaseNotFound);
      }
      var disposal := cases[id];
      r := AssertCanRecordExecution(disposal.status);
      if r.Refused? {
        return;
      }
      if asset !in AssetIds(disposal.items) {
        return Refused(ItemNotFound);
      }
      var item := ItemFor(disposal.items, asset);
      if item.hasData && sanitization == NotRequired {
        return Refused(SanitizationMandatory);
      }
      if sanitization == Verified && Text.Trim(technique) == "" {
        return Refused(MethodRequired);
      }
      cases := cases[id := disposal.(items := Sanitized(disposal.items, asset, sanitization, actor),
                                     log := disposal.log + [SanitizationUpdated])];
    }

    method CompleteCase(id: CaseId, actor: UserId) returns (r: Result)
      requires Stored(View())
      modifies this
      ensures r == Refused(CaseNotFound) <==> id !in old(cases)
      ensures r == Refused(NotInExecution) <==> id in old(cases) && old(cases)[id].status != InExecution
      ensures r == Refused(EvidenceRequired) <==>
        id in old(cases) && old(cases)[id].status == InExecution && |old(cases)[id].evidence| == 0
      ensures id in old(cases) && old(cases)[id].status == InExecution && |old(cases)[id].evidence| > 0 ==>
        var c := old(cases)[id];
        && (r == Refused(SanitizationRequired) <==>
              exists item :: item in c.items && item.hasData && item.sanitization != Verified)
        && (r == Refused(CertificateRequired) <==>
              && (forall item :: item in c.items && item.hasData ==> item.sanitization == Verified)
              && ( || (c.kind == Destruction && DestructionCertificate !in c.evidence)
                   || (c.kind == Sale && SaleContract !in c.evidence && HandoverMinutes !in c.evidence)
                   || (c.kind == Donation && HandoverMinutes !in c.evidence)
                   || (c.kind == ReturnToVendor && HandoverMinutes !in c.evidence)
                   || (c.kind == Recycle && HandoverMinutes !in c.evidence)
                   || (DataErasureCertificate !in c.evidence && exists item :: item in c.items && item.hasData)))
      ensures r == Refused(NotReserved) ==>
        exists item :: item in old(cases)[id].items && old(assets)[item.assetId].status != Reserved
      ensures r == Refused(OpenAssignment) ==>
        exists item :: item in old(cases)[id].items && old(assets)[item.assetId].openAssignment
      ensures r == Refused(OpenMaintenance) ==>
        exists item :: item in old(cases)[id].items && old(assets)[item.assetId].openMaintenance
      ensures r in {Done, Refused(CaseNotFound), Refused(NotInExecution), Refused(EvidenceRequired),
                    Refused(SanitizationRequired), Refused(CertificateRequired), Refused(NotReserved),
                    Refused(OpenAssignment), Refused(OpenMaintenance)}
      ensures r.Done? <==> Enabled(old(View()), Complete(id, actor))
      ensures View() == Perform(old(View()), Complete(id, actor))
    {
      hide Touched;
      if id !in cases {
        return Refused(CaseNotFound);
      }
      var disposal := cases[id];
      r := AssertCanComplete(disposal.status, |disposal.evidence|, disposal.items);
      if r.Refused? {
        return;
      }
      if !HasRequiredEvidence(disposal.kind, disposal.evidence, HoldsData(disposal.items)) {
        return Refused(CertificateRequired);
      }
      ItemsStored(View(), id);
      var written := assets;
      TouchedNone(assets, disposal.items, Retire);
      for i := 0 to |disposal.items|
        modifies {}
        invariant written == Touched(assets, disposal.items[..i], Retire)
        invariant forall k :: 0 <= k < i ==> Retirable(assets[disposal.items[k].assetId])
      {
        var item := disposal.items[i];
        if assets[item.assetId].status != Reserved {
          return Refused(NotReserved);
        }
        if assets[item.assetId].openAssignment {
          return Refused(OpenAssignment);
        }
        if assets[item.assetId].openMaintenance {
          return Refused(OpenMaintenance);
        }
        TouchedStep(assets, disposal.items, i, Retire);
        written := written[item.assetId := assets[item.assetId].(status := Disposed, placement := NOWHERE)];
      }
      assert disposal.items[..|disposal.items|] == disposal.items;
      assets := written;
      cases := cases[id := disposal.(status := Completed,
                                     executor := if disposal.executor.Some? then disposal.executor else Some(actor),
                                     log := disposal.log + [CompletedBy])];
    }

    method CancelCase(id: CaseId) returns (r: Result)
      requires Stored(View())
      modifies this
      ensures r == Refused(CaseNotFound) <==> id !in old(cases)
      ensures r == Refused(CannotCancel) <==>
        id in old(cases) && old(cases)[id].status in {Completed, Cancelled, Rejected}
      ensures r.Done? <==> Enabled(old(View()), Cancel(id))
      ensures View() == Perform(old(View()), Cancel(id))
    {
      if id !in cases {
        return Refused(CaseNotFound);
      }
      var disposal := cases[id];
      r := AssertCanCancel(disposal.status);
      if r.Refused? {
        return;
      }
      if disposal.status != Draft {
        var written;
        r, written := RestoreAssets(disposal.items);
        if r.Refused? {
          return;
        }
        assets := written;
      }
      cases := cases[id := disposal.(status := Cancelled, log := disposal.log + [CancelledBy])];
    }

    /** The asset rows a release writes; it stops at the first asset that is no longer reserved. */
    method RestoreAssets(items: seq<Item>) returns (r: Result, written: map<AssetId, Asset>)
      requires DistinctAssets(items) && forall item :: item in items ==> item.assetId in assets
      ensures r == Done || r == Refused(NotReserved)
      ensures r.Done? <==> forall item :: item in items ==> assets[item.assetId].status == Reserved
      ensures r.Done? ==> written == Touched(assets, items, Restore)
    {
      hide Touched;
      written := assets;
      TouchedNone(assets, items, Restore);
      for i := 0 to |items|
        modifies {}
        invariant written == Touched(assets, items[..i], Restore)
        invariant forall k :: 0 <= k < i ==> assets[items[k].assetId].status == Reserved
      {
        if assets[items[i].assetId].status != Reserved {
          return Refused(NotReserved), written;
        }
        TouchedStep(assets, items, i, Restore);
        written := written[items[i].assetId := assets[items[i].assetId].(status := items[i].snapshot)];
      }
      assert items[..|items|] == items;
      r := Done;
    }

    /** Deletes a case in any state, putting its assets back to their snapshots first. */
    method RemoveCase(id: CaseId) returns (r: Result)
      requires Stored(View())
      modifies this
      ensures r.Done? <==> Enabled(old(View()), Remove(id))
      ensures View() == Perform(old(View()), Remove(id))
    {
      hide Touched;
      if id !in cases {
        return Refused(CaseNotFound);
      }
      var disposal := cases[id];
      ItemsStored(View(), id);
      var written := assets;
      TouchedNone(assets, disposal.items, Restore);
      for i := 0 to |disposal.items|
        modifies {}
        invariant written == Touched(assets, disposal.items[..i], Restore)
      {
        var item := disposal.items[i];
        TouchedStep(assets, disposal.items, i, Restore);
        if assets[item.assetId].status == item.snapshot {
          assert assets[item.assetId] == Restore(item, assets[item.assetId]);
          continue;
        }
        written := written[item.assetId := assets[item.assetId].(status := item.snapshot)];
      }
      assert disposal.items[..|disposal.items|] == disposal.items;
      assets := written;
      cases := cases - {id};
      r := Done;
    }
  }

  /** The rows the items of a case point to. */
  lemma ItemsStored(db: Db, id: CaseId)
    requires Stored(db) && id in db.cases
    ensures forall k :: 0 <= k < |db.cases[id].items| ==> db.cases[id].items[k].assetId in db.assets
  {
    forall k | 0 <= k < |db.cases[id].items| ensures db.cases[id].items[k].assetId in db.assets {
      assert db.cases[id].items[k] in db.cases[id].items;
    }
  }

  function WantedIds(wanted: seq<NewItem>): set<AssetId> {
    set item | item in wanted :: item.assetId
  }

  lemma WantedSnoc(wanted: seq<NewItem>, last: NewItem)
    ensures WantedIds(wanted + [last]) == WantedIds(wanted) + {last.assetId}
    ensures DistinctWanted(wanted + [last]) <==> DistinctWanted(wanted) && last.assetId !in WantedIds(wanted)
  {
    var whole := wanted + [last];
    forall i | 0 <= i < |wanted| ensures whole[i] == wanted[i] && wanted[i].assetId in WantedIds(wanted) {
      assert wanted[i] in wanted;
    }
    if last.assetId in WantedIds(wanted) {
      var i :| 0 <= i < |wanted| && wanted[i].assetId == last.assetId;
      assert whole[i].assetId == whole[|wanted|].assetId;
    }
  }

  /** Counting the distinct ids finds every duplicate. */
  lemma {:induction false} DistinctByCount(wanted: seq<NewItem>)
    ensures |WantedIds(wanted)| <= |wanted|
    ensures |WantedIds(wanted)| == |wanted| <==> DistinctWanted(wanted)
  {
    if wanted != [] {
      hide WantedIds, DistinctWanted;
      var init, last := wanted[..|wanted| - 1], wanted[|wanted| - 1];
      assert wanted == init + [last];
      DistinctByCount(init);
      WantedSnoc(init, last);
    }
  }
}
