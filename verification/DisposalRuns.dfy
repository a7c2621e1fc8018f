/** What every run of the disposal workflow keeps. */
module DisposalRuns {
  import opened Common
  import opened Disposals

  // ---------------------------------------------------------------------------------------------
  // One case: its activity log and its decisions
  // ---------------------------------------------------------------------------------------------

  /** The status an activity log adds up to, if every entry was allowed where it stands. */
  function Replay(log: seq<Action>): Option<CaseStatus> {
    if log == [] then None
    else if log == [Created] then Some(Draft)
    else
      var before := Replay(log[..|log| - 1]);
      if before.None? then None else Follow(before.value, log[|log| - 1])
  }

  function Follow(status: CaseStatus, action: Action): Option<CaseStatus> {
    match action
    case Created => None
    case SubmittedForApproval => if status == Draft then Some(Submitted) else None
    case ApprovedBy => if status == Submitted then Some(Approved) else None
    case RejectedBy => if status == Submitted then Some(Rejected) else None
    case ExecutionStarted => if status == Approved then Some(InExecution) else None
    case EvidenceAdded => if status in {Approved, InExecution} then Some(status) else None
    case SanitizationUpdated => if status in {Approved, InExecution} then Some(status) else None
    case CompletedBy => if status == InExecution then Some(Completed) else None
    case CancelledBy => if status in {Draft, Submitted, Approved, InExecution} then Some(Cancelled) else None
  }

  /** How often the log changes the status. */
  function Changes(log: seq<Action>): nat {
    if log == [] then 0
    else Changes(log[..|log| - 1]) + (if log[|log| - 1] in {Created, EvidenceAdded, SanitizationUpdated} then 0 else 1)
  }

  lemma LogSnoc(log: seq<Action>, action: Action)
    requires log != []
    ensures Replay(log + [action]) == if Replay(log).None? then None else Follow(Replay(log).value, action)
    ensures Changes(log + [action]) == Changes(log) +
      (if action in {Created, EvidenceAdded, SanitizationUpdated} then 0 else 1)
  {
    assert (log + [action])[..|log|] == log;
  }

  predicate Separated(c: Case) {
    c.approver.Some? && c.approver.value != c.requester
  }

  /** The decisions and evidence behind a completed case. */
  ghost predicate ProperlyCompleted(c: Case) {
    && Separated(c)
    && DataErased(c.items)
    && c.evidence != []
    && HasRequiredEvidence(c.kind, c.evidence, HoldsData(c.items))
  }

  predicate ItemOk(item: Item) {
    && Eligible(item.snapshot)
    && (item.hasData ==> item.sanitization != NotRequired)
    && (item.sanitization == Verified <==> item.sanitizedBy.Some?)
  }

  ghost predicate ItemsOk(items: seq<Item>) {
    items != [] && forall i | 0 <= i < |items| :: ItemOk(items[i])
  }

  ghost predicate DecisionsOk(c: Case) {
    && (c.status in {Approved, InExecution, Rejected} ==> Separated(c))
    && (c.status == Completed ==> ProperlyCompleted(c))
  }

  ghost predicate LogOk(c: Case) {
    Replay(c.log) == Some(c.status) && Changes(c.log) <= Rank(c.status)
  }

  ghost predicate CaseOk(c: Case) {
    ItemsOk(c.items) && DecisionsOk(c) && LogOk(c)
  }

  // ---------------------------------------------------------------------------------------------
  // All cases and assets
  // ---------------------------------------------------------------------------------------------

  function CustodyStatus(status: CaseStatus): AssetStatus {
    if status == Completed then Disposed else Reserved
  }

  ghost predicate Holds(db: Db, id: CaseId, asset: AssetId) {
    id in db.cases && Held(db.cases[id].status) && asset in AssetIds(db.cases[id].items)
  }

  /** Active cases have their assets reserved, completed ones have them disposed of. */
  ghost predicate Custody(db: Db)
    requires Stored(db)
  {
    forall id, asset | Holds(db, id, asset) :: db.assets[asset].status == CustodyStatus(db.cases[id].status)
  }

  /** No asset is in two cases that hold it or have retired it. */
  ghost predicate Exclusive(db: Db) {
    forall a, b, asset | Holds(db, a, asset) && Holds(db, b, asset) :: a == b
  }

  ghost predicate Inv(db: Db) {
    && Stored(db)
    && Custody(db)
    && Exclusive(db)
    && forall id | id in db.cases :: CaseOk(db.cases[id])
  }

  /** No asset of the case is held or retired by another case. */
  ghost predicate FreeOfOthers(db: Db, id: CaseId)
    requires id in db.cases
  {
    forall other, asset | Holds(db, other, asset) && asset in AssetIds(db.cases[id].items) :: other == id
  }

  lemma InitialInv(assets: map<AssetId, Asset>)
    ensures Inv(Db(assets, map[]))
  {
  }

  /** One case moves, and with it only assets that no other case holds. */
  lemma CustodyMoves(db: Db, after: Db, id: CaseId)
    requires Inv(db) && Stored(after) && after.assets.Keys == db.assets.Keys
    requires forall other | other != id && other in after.cases ::
      other in db.cases && after.cases[other] == db.cases[other]
    requires forall other, asset | other != id && Holds(db, other, asset) ::
      after.assets[asset].status == db.assets[asset].status
    requires forall asset | Holds(after, id, asset) ::
      after.assets[asset].status == CustodyStatus(after.cases[id].status)
    requires forall other, asset | other != id && Holds(db, other, asset) :: !Holds(after, id, asset)
    ensures Custody(after) && Exclusive(after)
  {
    forall other, asset | other != id && Holds(after, other, asset) ensures Holds(db, other, asset) {
    }
  }

  // ---------------------------------------------------------------------------------------------
  // Steps
  // ---------------------------------------------------------------------------------------------

  predicate OnCase(step: Step) {
    !step.Create? && !step.Elsewhere? && !step.Remove?
  }

  function ActionOf(step: Step): Action {
    match step
    case Submit(_) => SubmittedForApproval
    case Approve(_, _) => ApprovedBy
    case Reject(_, _) => RejectedBy
    case Start(_, _) => ExecutionStarted
    case AddEvidence(_, _) => EvidenceAdded
    case UpdateSanitization(_, _, _, _, _) => SanitizationUpdated
    case Complete(_, _) => CompletedBy
    case _ => CancelledBy
  }

  /** A guard lets a step through only where its log entry may follow. */
  lemma StepFollows(db: Db, step: Step)
    requires Stored(db) && OnCase(step) && Enabled(db, step)
    ensures var c := db.cases[step.id]; var after := CaseAfter(c, step);
      after.log == c.log + [ActionOf(step)] && Follow(c.status, ActionOf(step)) == Some(after.status)
  {
    hide DataErased, HoldsData, HasRequiredEvidence, ItemFor, AssetIds, DistinctAssets, Stored, Sanitized, Retirable,
      Reservable;
  }

  lemma LogStep(c: Case, after: Case, action: Action)
    requires LogOk(c) && after.log == c.log + [action] && Follow(c.status, action) == Some(after.status)
    ensures LogOk(after)
    ensures after.status == c.status || Rank(c.status) < Rank(after.status)
  {
    LogSnoc(c.log, action);
  }

  /** The part of the invariant that concerns each case by itself. */
  ghost predicate CasesOk(db: Db) {
    Stored(db) && forall id | id in db.cases :: CaseOk(db.cases[id])
  }

  lemma DecisionStep(db: Db, step: Step)
    requires CasesOk(db) && OnCase(step) && Enabled(db, step)
    ensures DecisionsOk(CaseAfter(db.cases[step.id], step))
  {
  }

  lemma ItemsStep(db: Db, step: Step)
    requires CasesOk(db) && OnCase(step) && Enabled(db, step)
    ensures var items := db.cases[step.id].items; var after := CaseAfter(db.cases[step.id], step).items;
      ItemsOk(after) && AssetIds(after) == AssetIds(items) && DistinctAssets(after)
  {
    if step.UpdateSanitization? {
      SanitizedItems(db.cases[step.id].items, step.asset, step.sanitization, step.actor);
    }
  }

  lemma SanitizedItems(items: seq<Item>, asset: AssetId, sanitization: Sanitization, actor: UserId)
    requires ItemsOk(items) && DistinctAssets(items)
    requires asset in AssetIds(items) && (ItemFor(items, asset).hasData ==> sanitization != NotRequired)
    ensures var after := Sanitized(items, asset, sanitization, actor);
      ItemsOk(after) && AssetIds(after) == AssetIds(items) && DistinctAssets(after)
  {
    var after := Sanitized(items, asset, sanitization, actor);
    SameAssets(items, after);
    OnlyItemFor(items, asset);
    hide ItemFor, AssetIds;
  }

  lemma SameAssets(items: seq<Item>, after: seq<Item>)
    requires |after| == |items| && forall i :: 0 <= i < |items| ==> after[i].assetId == items[i].assetId
    ensures AssetIds(after) == AssetIds(items)
  {
    forall i | 0 <= i < |items| ensures items[i].assetId in AssetIds(after) && after[i].assetId in AssetIds(items) {
      assert after[i] in after && items[i] in items;
    }
  }

  lemma OnlyItemFor(items: seq<Item>, asset: AssetId)
    requires DistinctAssets(items) && asset in AssetIds(items)
    ensures forall i :: 0 <= i < |items| && items[i].assetId == asset ==> items[i] == ItemFor(items, asset)
  {
    forall i | 0 <= i < |items| && items[i].assetId == asset ensures items[i] == ItemFor(items, asset) {
      ItemForOwn(items, i);
    }
  }

  lemma CreatedCaseIsOk(db: Db, step: Step)
    requires Stored(db) && step.Create? && Enabled(db, step)
    ensures Stored(Apply(db, step)) && CaseOk(Apply(db, step).cases[step.id])
  {
    var after := Apply(db, step);
    var items := after.cases[step.id].items;
    forall i | 0 <= i < |items| ensures items[i].assetId in db.assets && ItemOk(items[i]) {
      assert step.wanted[i] in step.wanted;
    }
    assert Stored(after);
    var c := after.cases[step.id];
    assert Replay(c.log) == Some(Draft) && c.log[..0] == [];
  }

  lemma CreateStep(db: Db, step: Step)
    requires Inv(db) && step.Create? && Enabled(db, step)
    ensures Inv(Apply(db, step))
  {
    CreatedCaseIsOk(db, step);
    hide CaseOk;
    CustodyMoves(db, Apply(db, step), step.id);
  }

  lemma OnlyOwnAssets(assets: map<AssetId, Asset>, c: Case, step: Step)
    ensures AssetsAfter(assets, c, step).Keys == assets.Keys
    ensures forall asset | asset in assets && asset !in AssetIds(c.items) ::
      AssetsAfter(assets, c, step)[asset] == assets[asset]
  {
    hide ItemFor, AssetIds;
  }

  lemma HeldIsFree(db: Db, id: CaseId)
    requires Exclusive(db) && id in db.cases && Held(db.cases[id].status)
    ensures FreeOfOthers(db, id)
  {
    forall other, asset | Holds(db, other, asset) && asset in AssetIds(db.cases[id].items) ensures other == id {
      assert Holds(db, id, asset);
    }
  }

  /** An eligible asset that no active case holds is held by no case at all. */
  lemma ReservableIsFree(db: Db, id: CaseId)
    requires Inv(db) && Enabled(db, Submit(id))
    ensures FreeOfOthers(db, id)
  {
    hide ItemFor, Exclusive, CaseOk;
    forall other, asset | Holds(db, other, asset) && asset in AssetIds(db.cases[id].items) ensures other == id {
      var item :| item in db.cases[id].items && item.assetId == asset;
      assert Reservable(db, id, item.assetId);
    }
  }

  lemma CustodyAfter(db: Db, step: Step)
    requires Inv(db) && OnCase(step) && Enabled(db, step)
    requires Held(CaseAfter(db.cases[step.id], step).status)
    ensures forall asset | asset in AssetIds(db.cases[step.id].items) ::
      asset in db.assets
      && AssetsAfter(db.assets, db.cases[step.id], step)[asset].status ==
        CustodyStatus(CaseAfter(db.cases[step.id], step).status)
  {
    hide ItemFor, Exclusive, CaseOk, DataErased, HoldsData, HasRequiredEvidence;
    var c := db.cases[step.id];
    forall asset | asset in AssetIds(c.items) ensures asset in db.assets {
      var item :| item in c.items && item.assetId == asset;
    }
    if !step.Submit? && !step.Complete? {
      forall asset | asset in AssetIds(c.items) ensures Holds(db, step.id, asset) {
      }
    }
  }

  /** Assets a step gives back or retires belong to no other case. */
  lemma OnCaseStep(db: Db, step: Step)
    requires Inv(db) && OnCase(step) && Enabled(db, step)
    ensures Inv(Apply(db, step))
  {
    MovedCaseIsOk(db, step);
    hide CaseOk, CaseAfter, CaseEnabled;
    OnCaseCustody(db, step);
  }

  lemma MovedCaseIsOk(db: Db, step: Step)
    requires CasesOk(db) && OnCase(step) && Enabled(db, step)
    ensures CaseOk(CaseAfter(db.cases[step.id], step))
  {
    var c := db.cases[step.id];
    StepFollows(db, step);
    LogStep(c, CaseAfter(c, step), ActionOf(step));
    DecisionStep(db, step);
    ItemsStep(db, step);
  }

  /** Every step keeps every case sound, even a deletion that takes an asset from another case. */
  lemma StepKeepsCases(db: Db, step: Step)
    requires CasesOk(db)
    ensures CasesOk(Perform(db, step))
  {
    PerformStored(db, step);
    if Enabled(db, step) {
      hide CaseOk;
      if step.Create? {
        CreatedCaseIsOk(db, step);
      } else if OnCase(step) {
        MovedCaseIsOk(db, step);
      }
      hide CaseAfter, CaseEnabled, Stored, AssetsAfter;
    }
  }

  lemma OnCaseCustody(db: Db, step: Step)
    requires Inv(db) && OnCase(step) && Enabled(db, step)
    ensures var after := Apply(db, step); Stored(after) && Custody(after) && Exclusive(after)
  {
    ItemsStep(db, step);
    OnlyOwnAssets(db.assets, db.cases[step.id], step);
    StepFree(db, step);
    if Held(CaseAfter(db.cases[step.id], step).status) {
      CustodyAfter(db, step);
    }
    hide CaseOk, CaseEnabled, CaseAfter, AssetsAfter, AssetIds, DistinctAssets, Custody, Exclusive, CustodyStatus,
      ItemFor, Stored, FreeOfOthers;
    OneCaseMoves(db, Apply(db, step), step.id);
  }

  lemma OneCaseMoves(db: Db, after: Db, id: CaseId)
    requires Inv(db) && id in db.cases && id in after.cases && after.cases == db.cases[id := after.cases[id]]
    requires AssetIds(after.cases[id].items) == AssetIds(db.cases[id].items) && DistinctAssets(after.cases[id].items)
    requires after.assets.Keys == db.assets.Keys
    requires forall asset | asset in db.assets && asset !in AssetIds(db.cases[id].items) ::
      after.assets[asset] == db.assets[asset]
    requires (after.assets == db.assets && !Held(after.cases[id].status)) || FreeOfOthers(db, id)
    requires Held(after.cases[id].status) ==> forall asset | asset in AssetIds(db.cases[id].items) ::
      asset in db.assets && after.assets[asset].status == CustodyStatus(after.cases[id].status)
    ensures Stored(after) && Custody(after) && Exclusive(after)
  {
    StoredAfter(db, after, id);
    hide AssetIds, DistinctAssets, CaseOk, CustodyStatus;
    forall other, asset | other != id && Holds(db, other, asset)
      ensures asset in db.assets && after.assets[asset].status == db.assets[asset].status && !Holds(after, id, asset)
    {
      HeldIsStored(db, other, asset);
    }
    CustodyMoves(db, after, id);
  }

  lemma HeldIsStored(db: Db, id: CaseId, asset: AssetId)
    requires Stored(db) && Holds(db, id, asset)
    ensures asset in db.assets
  {
    var item :| item in db.cases[id].items && item.assetId == asset;
  }

  lemma StoredAfter(db: Db, after: Db, id: CaseId)
    requires Stored(db) && id in db.cases && after.assets.Keys == db.assets.Keys
    requires id in after.cases && after.cases == db.cases[id := after.cases[id]]
    requires AssetIds(after.cases[id].items) == AssetIds(db.cases[id].items) && DistinctAssets(after.cases[id].items)
    ensures Stored(after)
  {
    forall item | item in after.cases[id].items ensures item.assetId in after.assets {
      assert item.assetId in AssetIds(db.cases[id].items);
    }
  }

  lemma StepFree(db: Db, step: Step)
    requires Inv(db) && OnCase(step) && Enabled(db, step)
    ensures var after := Apply(db, step);
      (after.assets == db.assets && !Held(after.cases[step.id].status)) || FreeOfOthers(db, step.id)
  {
    hide ItemFor, Exclusive, Custody, CaseOk, DataErased, HoldsData, HasRequiredEvidence, Touched, FreeOfOthers;
    if Held(db.cases[step.id].status) {
      HeldIsFree(db, step.id);
    } else if step.Submit? {
      ReservableIsFree(db, step.id);
    }
  }

  lemma RemoveOfFree(db: Db, id: CaseId)
    requires Inv(db) && id in db.cases && FreeOfOthers(db, id)
    ensures Inv(Apply(db, Remove(id)))
  {
    var after := Apply(db, Remove(id));
    OnlyOwnAssets(db.assets, db.cases[id], Remove(id));
    hide ItemFor, Touched, CaseOk, DistinctAssets;
    forall other, asset | other != id && Holds(db, other, asset)
      ensures asset in db.assets && after.assets[asset] == db.assets[asset]
    {
      HeldIsStored(db, other, asset);
    }
    CustodyMoves(db, after, id);
  }

  lemma RemoveOfShared(db: Db, id: CaseId, other: CaseId, asset: AssetId)
    requires Inv(db) && id in db.cases && other != id && Holds(db, other, asset)
    requires asset in AssetIds(db.cases[id].items)
    ensures !Inv(Apply(db, Remove(id)))
  {
    var after := Apply(db, Remove(id));
    HeldIsStored(db, other, asset);
    SnapshotEligible(db.cases[id], asset);
    hide CaseOk, DistinctAssets, Exclusive;
    assert after.assets[asset].status == ItemFor(db.cases[id].items, asset).snapshot;
    assert Holds(after, other, asset);
  }

  /** Deleting a case keeps the invariant exactly when no other case holds one of its assets. */
  lemma RemoveKeepsInvIff(db: Db, id: CaseId)
    requires Inv(db) && id in db.cases
    ensures Inv(Apply(db, Remove(id))) <==> FreeOfOthers(db, id)
    ensures Held(db.cases[id].status) ==> FreeOfOthers(db, id)
  {
    hide Inv, Apply;
    if FreeOfOthers(db, id) {
      RemoveOfFree(db, id);
    } else {
      var other, asset :| Holds(db, other, asset) && asset in AssetIds(db.cases[id].items) && other != id;
      RemoveOfShared(db, id, other, asset);
    }
    if Held(db.cases[id].status) {
      InvIsExclusive(db);
      HeldIsFree(db, id);
    }
  }

  lemma InvIsExclusive(db: Db)
    requires Inv(db)
    ensures Exclusive(db)
  {
  }

  lemma SnapshotEligible(c: Case, asset: AssetId)
    requires CaseOk(c) && asset in AssetIds(c.items)
    ensures Eligible(ItemFor(c.items, asset).snapshot)
  {
    var item := ItemFor(c.items, asset);
    var i :| 0 <= i < |c.items| && c.items[i] == item;
    assert ItemOk(c.items[i]);
  }

  /** Assets still at their snapshot status are nobody else's, so then any case may be deleted. */
  lemma UnchangedAssetsAreFree(db: Db, id: CaseId)
    requires Inv(db) && id in db.cases
    requires forall item | item in db.cases[id].items :: db.assets[item.assetId].status == item.snapshot
    ensures FreeOfOthers(db, id)
  {
    forall asset | asset in AssetIds(db.cases[id].items)
      ensures asset in db.assets && Eligible(db.assets[asset].status)
    {
      SnapshotEligible(db.cases[id], asset);
    }
    forall other, asset | Holds(db, other, asset) ensures asset in db.assets && !Eligible(db.assets[asset].status) {
      HeldIsStored(db, other, asset);
    }
  }

  lemma ElsewhereStep(db: Db, step: Step)
    requires Inv(db) && step.Elsewhere? && Enabled(db, step)
    ensures Inv(Apply(db, step))
  {
    var after := Apply(db, step);
    forall id, asset | Holds(after, id, asset) ensures Holds(db, id, asset) && asset in db.assets {
      HeldIsStored(db, id, asset);
    }
    hide AssetIds, CaseOk, DistinctAssets;
    forall id, asset | Holds(after, id, asset)
      ensures after.assets[asset].status == CustodyStatus(after.cases[id].status)
    {
      assert step.asset == asset ==> HeldAsset(db, asset);
    }
  }

  /** So a write to an asset that is neither reserved nor disposed of is never refused for a case's sake. */
  lemma HeldAssetStatus(db: Db, asset: AssetId)
    requires Inv(db) && HeldAsset(db, asset)
    ensures asset in db.assets && db.assets[asset].status in {Reserved, Disposed}
  {
    var id :| id in db.cases && Held(db.cases[id].status) && asset in AssetIds(db.cases[id].items);
    assert Holds(db, id, asset);
    HeldIsStored(db, id, asset);
  }

  // ---------------------------------------------------------------------------------------------
  // Runs
  // ---------------------------------------------------------------------------------------------

  ghost function Run(db: Db, steps: seq<Step>): (after: Db)
    requires Stored(db)
    ensures Stored(after)
    decreases |steps|
  {
    if steps == [] then db
    else
      PerformStored(db, steps[0]);
      Run(Perform(db, steps[0]), steps[1..])
  }

  lemma PerformStored(db: Db, step: Step)
    requires Stored(db)
    ensures Stored(Perform(db, step))
  {
    if Enabled(db, step) && step.Create? {
      forall i | 0 <= i < |step.wanted| ensures step.wanted[i].assetId in db.assets {
        assert step.wanted[i] in step.wanted;
      }
    } else if Enabled(db, step) && OnCase(step) {
      var c := db.cases[step.id];
      OnlyOwnAssets(db.assets, c, step);
      SameAssets(c.items, CaseAfter(c, step).items);
      StoredAfter(db, Apply(db, step), step.id);
    } else if step.Remove? && Enabled(db, step) {
      OnlyOwnAssets(db.assets, db.cases[step.id], step);
    }
  }

  /** No step of the run deletes a case whose assets another case holds. */
  ghost predicate Careful(db: Db, steps: seq<Step>)
    requires Stored(db)
    decreases |steps|
  {
    steps != [] ==>
      && (steps[0].Remove? && steps[0].id in db.cases ==> FreeOfOthers(db, steps[0].id))
      && (PerformStored(db, steps[0]); Careful(Perform(db, steps[0]), steps[1..]))
  }

  lemma PerformKeepsInv(db: Db, step: Step)
    requires Inv(db) && (step.Remove? && step.id in db.cases ==> FreeOfOthers(db, step.id))
    ensures Inv(Perform(db, step))
  {
    if Enabled(db, step) {
      match step
      case Create(_, _, _, _) => CreateStep(db, step);
      case Elsewhere(_, _) => ElsewhereStep(db, step);
      case Remove(id) => RemoveKeepsInvIff(db, id);
      case _ => OnCaseStep(db, step);
    }
  }

  lemma {:induction false} RunKeepsInv(db: Db, steps: seq<Step>)
    requires Inv(db) && Careful(db, steps)
    ensures Inv(Run(db, steps))
    decreases |steps|
  {
    if steps != [] {
      PerformKeepsInv(db, steps[0]);
      RunKeepsInv(Perform(db, steps[0]), steps[1..]);
    }
  }

  /** The invariant holds now and after every step. */
  ghost predicate InvAlong(db: Db, steps: seq<Step>)
    requires Stored(db)
    decreases |steps|
  {
    Inv(db) && (steps != [] ==> (PerformStored(db, steps[0]); InvAlong(Perform(db, steps[0]), steps[1..])))
  }

  /** A run keeps the invariant throughout exactly when it deletes no case whose assets another case holds. */
  lemma {:induction false} RunKeepsInvIff(db: Db, steps: seq<Step>)
    requires Inv(db)
    ensures InvAlong(db, steps) <==> Careful(db, steps)
    decreases |steps|
  {
    if steps != [] {
      var step := steps[0];
      PerformStored(db, step);
      if step.Remove? && step.id in db.cases {
        RemoveKeepsInvIff(db, step.id);
        assert Perform(db, step) == Apply(db, step);
      }
      if !step.Remove? || step.id !in db.cases || FreeOfOthers(db, step.id) {
        PerformKeepsInv(db, step);
        hide Inv, Perform;
        RunKeepsInvIff(Perform(db, step), steps[1..]);
      }
    }
  }

  lemma {:induction false} RunKeepsCases(db: Db, steps: seq<Step>)
    requires CasesOk(db)
    ensures CasesOk(Run(db, steps))
    decreases |steps|
  {
    if steps != [] {
      StepKeepsCases(db, steps[0]);
      hide CasesOk, Perform;
      RunKeepsCases(Perform(db, steps[0]), steps[1..]);
    }
  }

  /** Whatever the run: every log tells the status in at most four changes, every snapshot is an eligible status, and
      completed cases were properly decided. */
  lemma ReachableCases(assets: map<AssetId, Asset>, steps: seq<Step>)
    ensures var db := Run(Db(assets, map[]), steps);
      && (forall id | id in db.cases ::
        Replay(db.cases[id].log) == Some(db.cases[id].status) && Changes(db.cases[id].log) <= 4)
      && (forall id, item | id in db.cases && item in db.cases[id].items :: Eligible(item.snapshot))
      && (forall id | id in db.cases && db.cases[id].status == Completed :: ProperlyCompleted(db.cases[id]))
  {
    RunKeepsCases(Db(assets, map[]), steps);
    var db := Run(Db(assets, map[]), steps);
    hide Run, ProperlyCompleted, Replay, Changes;
    forall id, item | id in db.cases && item in db.cases[id].items
      ensures Eligible(item.snapshot)
    {
      assert CaseOk(db.cases[id]);
      var i :| 0 <= i < |db.cases[id].items| && db.cases[id].items[i] == item;
      assert ItemOk(db.cases[id].items[i]);
    }
    forall id | id in db.cases
      ensures CaseOk(db.cases[id]) && Changes(db.cases[id].log) <= 4
    {
    }
  }

  /** In every state reached without such a deletion: one holder to an asset, and held assets in custody. */
  lemma ReachableStates(assets: map<AssetId, Asset>, steps: seq<Step>)
    requires Careful(Db(assets, map[]), steps)
    ensures var db := Run(Db(assets, map[]), steps);
      && (forall a, b, asset | Holds(db, a, asset) && Holds(db, b, asset) :: a == b)
      && (forall id, asset | Holds(db, id, asset) ::
        asset in db.assets && db.assets[asset].status == CustodyStatus(db.cases[id].status))
  {
    InitialInv(assets);
    RunKeepsInv(Db(assets, map[]), steps);
    var db := Run(Db(assets, map[]), steps);
    forall id, asset | Holds(db, id, asset) ensures asset in db.assets {
      HeldIsStored(db, id, asset);
    }
  }

  lemma CompletedStep(db: Db, step: Step, id: CaseId)
    requires Stored(db) && id in db.cases && db.cases[id].status == Completed && step != Remove(id)
    ensures id in Perform(db, step).cases && Perform(db, step).cases[id] == db.cases[id]
  {
  }

  /** A completed case never changes again, for as long as it exists. */
  lemma {:induction false} CompletedIsFrozen(db: Db, steps: seq<Step>, id: CaseId)
    requires Stored(db) && id in db.cases && db.cases[id].status == Completed && Remove(id) !in steps
    ensures id in Run(db, steps).cases && Run(db, steps).cases[id] == db.cases[id]
    decreases |steps|
  {
    if steps != [] {
      CompletedStep(db, steps[0], id);
      PerformStored(db, steps[0]);
      CompletedIsFrozen(Perform(db, steps[0]), steps[1..], id);
    }
  }

  /** Its assets stay disposed of as well. */
  lemma RetiredStayDisposed(db: Db, steps: seq<Step>, id: CaseId, asset: AssetId)
    requires Inv(db) && Careful(db, steps) && Remove(id) !in steps
    requires id in db.cases && db.cases[id].status == Completed && asset in AssetIds(db.cases[id].items)
    ensures asset in Run(db, steps).assets && Run(db, steps).assets[asset].status == Disposed
  {
    CompletedIsFrozen(db, steps, id);
    RunKeepsInv(db, steps);
    assert Holds(Run(db, steps), id, asset);
    HeldIsStored(Run(db, steps), id, asset);
  }

  /** Every status change raises the rank, whatever the step. */
  lemma RankNeverFalls(db: Db, step: Step, id: CaseId)
    requires CasesOk(db) && id in db.cases && id in Perform(db, step).cases
    ensures var before, after := db.cases[id].status, Perform(db, step).cases[id].status;
      after == before || Rank(before) < Rank(after)
  {
    if OnCase(step) && Enabled(db, step) && step.id == id {
      StepFollows(db, step);
      LogStep(db.cases[id], CaseAfter(db.cases[id], step), ActionOf(step));
    }
  }

  // ---------------------------------------------------------------------------------------------
  // Giving assets back
  // ---------------------------------------------------------------------------------------------

  /** Rejecting, cancelling or deleting writes the snapshot status to the case's own assets and nothing else. */
  lemma ReleaseGivesBack(db: Db, step: Step)
    requires Stored(db) && Enabled(db, step)
    requires step.Reject? || step.Remove? || (step.Cancel? && db.cases[step.id].status != Draft)
    ensures var items, after := db.cases[step.id].items, Apply(db, step).assets;
      && (forall i | 0 <= i < |items| :: items[i].assetId in db.assets && items[i].assetId in after
            && after[items[i].assetId] == db.assets[items[i].assetId].(status := items[i].snapshot))
      && (forall asset | asset in db.assets && asset !in AssetIds(items) ::
        asset in after && after[asset] == db.assets[asset])
      && after.Keys == db.assets.Keys
  {
    var items := db.cases[step.id].items;
    ItemsStored(db, step.id);
    forall i | 0 <= i < |items|
      ensures ItemFor(items, items[i].assetId) == items[i] && items[i].assetId in AssetIds(items)
    {
      ItemForOwn(items, i);
    }
  }

  lemma RestoreOfReserve(assets: map<AssetId, Asset>, items: seq<Item>)
    ensures Touched(Touched(assets, items, Reserve), items, Restore) == Touched(assets, items, Restore)
  {
  }

  lemma RestoreIsIdentityIff(assets: map<AssetId, Asset>, items: seq<Item>)
    requires DistinctAssets(items) && forall i :: 0 <= i < |items| ==> items[i].assetId in assets
    ensures Touched(assets, items, Restore) == assets <==>
      forall i :: 0 <= i < |items| ==> assets[items[i].assetId].status == items[i].snapshot
  {
    var after := Touched(assets, items, Restore);
    forall i | 0 <= i < |items|
      ensures after[items[i].assetId] == assets[items[i].assetId].(status := items[i].snapshot)
    {
      ItemForOwn(items, i);
    }
    if forall i :: 0 <= i < |items| ==> assets[items[i].assetId].status == items[i].snapshot {
      forall asset | asset in assets ensures after[asset] == assets[asset] {
        if asset in AssetIds(items) {
          var i :| 0 <= i < |items| && items[i].assetId == asset;
        }
      }
    }
  }

  /** Cancelling right after submitting undoes the reservation exactly when no asset changed status
      between raising the case and submitting it: what comes back is the status at creation. */
  lemma CancelUndoesSubmitIff(db: Db, id: CaseId)
    requires Stored(db) && Enabled(db, Submit(id))
    ensures var items, submitted := db.cases[id].items, Apply(db, Submit(id));
      Stored(submitted) && Enabled(submitted, Cancel(id))
      && (forall i :: 0 <= i < |items| ==> items[i].assetId in db.assets)
      && (Apply(submitted, Cancel(id)).assets == db.assets <==>
            forall i :: 0 <= i < |items| ==> db.assets[items[i].assetId].status == items[i].snapshot)
  {
    var items := db.cases[id].items;
    PerformStored(db, Submit(id));
    ItemsStored(db, id);
    RestoreOfReserve(db.assets, items);
    RestoreIsIdentityIff(db.assets, items);
    SubmittedIsCancellable(db, id);
  }

  lemma SubmittedIsCancellable(db: Db, id: CaseId)
    requires Stored(db) && Enabled(db, Submit(id)) && Stored(Apply(db, Submit(id)))
    ensures Enabled(Apply(db, Submit(id)), Cancel(id))
  {
    hide ItemFor, Reservable;
    var submitted := Apply(db, Submit(id));
    forall item | item in db.cases[id].items ensures submitted.assets[item.assetId].status == Reserved {
      assert item.assetId in AssetIds(db.cases[id].items);
    }
  }

  const LAPTOP := Asset(Ready, false, false, false, NOWHERE)
  const KEPT := Item("laptop", false, NotRequired, None, Ready)

  function OneCase(requester: UserId, status: CaseStatus, log: seq<Action>): Case {
    Case(Sale, status, requester, None, None, [KEPT], [], log)
  }

  /** The register of one laptop, with a case A and a case B over it. */
  function TwoCases(laptop: AssetStatus, a: Case): Db {
    Db(map["laptop" := LAPTOP.(status := laptop)], map["A" := a, "B" := OneCase("bob", Draft, [Created])])
  }

  lemma CreateBoth()
    ensures var wanted := [NewItem("laptop", false)];
      var first := Db(map["laptop" := LAPTOP], map["A" := OneCase("ann", Draft, [Created])]);
      Stored(first)
      && Perform(Db(map["laptop" := LAPTOP], map[]), Create("A", Sale, wanted, "ann")) == first
      && Perform(first, Create("B", Sale, wanted, "bob")) == TwoCases(Ready, OneCase("ann", Draft, [Created]))
  {
    assert NewItems(map["laptop" := LAPTOP], [NewItem("laptop", false)]) == [KEPT];
  }

  lemma LaptopTouched(laptop: AssetStatus, change: (Item, Asset) -> Asset)
    ensures Touched(map["laptop" := LAPTOP.(status := laptop)], [KEPT], change) ==
      map["laptop" := change(KEPT, LAPTOP.(status := laptop))]
    ensures AssetIds([KEPT]) == {"laptop"}
  {
    assert KEPT in [KEPT];
  }

  lemma TwoCasesStored(laptop: AssetStatus, a: Case)
    requires a.items == [KEPT]
    ensures Stored(TwoCases(laptop, a))
  {
  }

  lemma SubmitFirst()
    ensures var db := TwoCases(Ready, OneCase("ann", Draft, [Created]));
      Stored(db)
        && Perform(db, Submit("A")) == TwoCases(Reserved, OneCase("ann", Submitted, [Created, SubmittedForApproval]))
  {
    hide Touched, AssetIds, ItemFor, Stored, DistinctAssets, DataErased, HoldsData, HasRequiredEvidence, Sanitized;
    var db := TwoCases(Ready, OneCase("ann", Draft, [Created]));
    TwoCasesStored(Ready, db.cases["A"]);
    LaptopTouched(Ready, Reserve);
    assert LAPTOP.(status := Ready) == LAPTOP;
    assert Reservable(db, "A", "laptop");
    assert [Created] + [SubmittedForApproval] == [Created, SubmittedForApproval];
  }

  lemma RemoveSecond()
    ensures var a := OneCase("ann", Submitted, [Created, SubmittedForApproval]);
      Stored(TwoCases(Reserved, a))
        && Perform(TwoCases(Reserved, a), Remove("B")) == Db(map["laptop" := LAPTOP], map["A" := a])
  {
    hide Touched, AssetIds, ItemFor, Stored, DistinctAssets, DataErased, HoldsData, HasRequiredEvidence, Sanitized;
    var db := TwoCases(Reserved, OneCase("ann", Submitted, [Created, SubmittedForApproval]));
    TwoCasesStored(Reserved, db.cases["A"]);
    LaptopTouched(Reserved, Restore);
  }

  lemma RunStep(db: Db, step: Step, rest: seq<Step>)
    requires Stored(db)
    ensures Stored(Perform(db, step)) && Run(db, [step] + rest) == Run(Perform(db, step), rest)
  {
    PerformStored(db, step);
    assert ([step] + rest)[1..] == rest;
  }

  /** Two drafts over one laptop, the first submitted: deleting the second frees the first one's laptop. */
  lemma RemovingADraftCanBreakCustody()
    ensures
      var wanted := [NewItem("laptop", false)];
      var db := Run(Db(map["laptop" := LAPTOP], map[]),
                    [Create("A", Sale, wanted, "ann")] +
                      ([Create("B", Sale, wanted, "bob")] + ([Submit("A")] + ([Remove("B")] + []))));
      "A" in db.cases && db.cases["A"].status == Submitted && "laptop" in db.assets
        && db.assets["laptop"].status == Ready
      && !Inv(db)
  {
    var wanted := [NewItem("laptop", false)];
    var create, again := Create("A", Sale, wanted, "ann"), Create("B", Sale, wanted, "bob");
    var first := Db(map["laptop" := LAPTOP], map["A" := OneCase("ann", Draft, [Created])]);
    var submitted := OneCase("ann", Submitted, [Created, SubmittedForApproval]);
    CreateBoth();
    SubmitFirst();
    RemoveSecond();
    hide Perform, Enabled, Apply, CaseOk, ItemFor;
    RunStep(Db(map["laptop" := LAPTOP], map[]), create, [again] + ([Submit("A")] + ([Remove("B")] + [])));
    RunStep(first, again, [Submit("A")] + ([Remove("B")] + []));
    RunStep(TwoCases(Ready, OneCase("ann", Draft, [Created])), Submit("A"), [Remove("B")] + []);
    RunStep(TwoCases(Reserved, submitted), Remove("B"), []);
    BrokenCustody(submitted);
  }

  lemma BrokenCustody(a: Case)
    requires a.items == [KEPT] && a.status == Submitted
    ensures !Inv(Db(map["laptop" := LAPTOP], map["A" := a]))
  {
    var db := Db(map["laptop" := LAPTOP], map["A" := a]);
    assert KEPT in a.items;
    assert Holds(db, "A", "laptop");
  }
}
