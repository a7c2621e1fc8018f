/** What a disposal case has gone through when it is completed, told by its fields
    (apps/api/src/modules/disposals/disposals.rules.ts and disposals.service.ts). */
module DisposalLaws {
  import opened Common
  import opened Disposals
  import opened DisposalRuns
  import Text

  /** The documents the law asks for: by what is done with the assets, and when one of them holds data. */
  lemma CompletedHasDocuments(assets: map<AssetId, Asset>, steps: seq<Step>, id: CaseId)
    requires id in Run(Db(assets, map[]), steps).cases
    requires Run(Db(assets, map[]), steps).cases[id].status == Completed
    ensures var c := Run(Db(assets, map[]), steps).cases[id];
      && (c.kind == Destruction ==> DestructionCertificate in c.evidence)
      && (c.kind == Sale ==> SaleContract in c.evidence || HandoverMinutes in c.evidence)
      && (c.kind == Donation || c.kind == ReturnToVendor || c.kind == Recycle ==> HandoverMinutes in c.evidence)
      && (forall i | 0 <= i < |c.items| && c.items[i].hasData ::
            c.items[i].sanitization == Verified && DataErasureCertificate in c.evidence)
      && |c.evidence| > 0 && |c.items| > 0
      && c.approver.Some? && c.approver.value != c.requester
  {
    RunKeepsCases(Db(assets, map[]), steps);
    var db := Run(Db(assets, map[]), steps);
    hide Run;
    assert CaseOk(db.cases[id]);
    var c := db.cases[id];
    forall i | 0 <= i < |c.items| && c.items[i].hasData
      ensures c.items[i].sanitization == Verified && DataErasureCertificate in c.evidence
    {
      assert c.items[i] in c.items;
    }
  }

  // ---------------------------------------------------------------------------------------------
  // The way of a case
  // ---------------------------------------------------------------------------------------------

  /** The entries of a log that change the status. */
  function Milestones(log: seq<Action>): seq<Action> {
    if log == [] then []
    else
      var last := log[|log| - 1];
      Milestones(log[..|log| - 1]) + (if last == EvidenceAdded || last == SanitizationUpdated then [] else [last])
  }

  /** The ways that lead to a status. */
  predicate LeadsTo(way: seq<Action>, status: CaseStatus) {
    match status
    case Draft => way == [Created]
    case Submitted => way == [Created, SubmittedForApproval]
    case Approved => way == [Created, SubmittedForApproval, ApprovedBy]
    case Rejected => way == [Created, SubmittedForApproval, RejectedBy]
    case InExecution => way == [Created, SubmittedForApproval, ApprovedBy, ExecutionStarted]
    case Completed => way == [Created, SubmittedForApproval, ApprovedBy, ExecutionStarted, CompletedBy]
    case Cancelled =>
      || way == [Created, CancelledBy]
      || way == [Created, SubmittedForApproval, CancelledBy]
      || way == [Created, SubmittedForApproval, ApprovedBy, CancelledBy]
      || way == [Created, SubmittedForApproval, ApprovedBy, ExecutionStarted, CancelledBy]
  }

  lemma {:induction false} ReplayedWay(log: seq<Action>)
    requires Replay(log).Some?
    ensures LeadsTo(Milestones(log), Replay(log).value)
  {
    if log == [Created] {
      assert log[..0] == [];
    } else {
      ReplayedWay(log[..|log| - 1]);
      assert Milestones(log[..|log| - 1]) + [] == Milestones(log[..|log| - 1]);
    }
  }

  /** In every run, a case has come to its status by the way the workflow allows: completed only after submission,
      approval and start, in that order and once each. */
  lemma WayOfCase(assets: map<AssetId, Asset>, steps: seq<Step>, id: CaseId)
    requires id in Run(Db(assets, map[]), steps).cases
    ensures var c := Run(Db(assets, map[]), steps).cases[id]; LeadsTo(Milestones(c.log), c.status)
  {
    RunKeepsCases(Db(assets, map[]), steps);
    var db := Run(Db(assets, map[]), steps);
    hide Run;
    assert CaseOk(db.cases[id]);
    ReplayedWay(db.cases[id].log);
  }

  // ---------------------------------------------------------------------------------------------
  // What each step writes, field by field
  // ---------------------------------------------------------------------------------------------

  lemma TouchedMeans(assets: map<AssetId, Asset>, items: seq<Item>, change: (Item, Asset) -> Asset)
    requires DistinctAssets(items) && forall item :: item in items ==> item.assetId in assets
    ensures Touched(assets, items, change).Keys == assets.Keys
    ensures forall i :: 0 <= i < |items| ==>
      Touched(assets, items, change)[items[i].assetId] == change(items[i], assets[items[i].assetId])
    ensures forall id :: id in assets && (forall i :: 0 <= i < |items| ==> items[i].assetId != id) ==>
      Touched(assets, items, change)[id] == assets[id]
  {
    forall i | 0 <= i < |items|
      ensures Touched(assets, items, change)[items[i].assetId] == change(items[i], assets[items[i].assetId])
    {
      assert items[i] in items;
      ItemForOwn(items, i);
    }
    forall id | id in assets && (forall i :: 0 <= i < |items| ==> items[i].assetId != id)
      ensures Touched(assets, items, change)[id] == assets[id]
    {
      assert id !in AssetIds(items);
    }
  }

  /** Only the assets of the items are written. */
  predicate OthersKeep(before: map<AssetId, Asset>, after: map<AssetId, Asset>, items: seq<Item>) {
    && after.Keys == before.Keys
    && forall id ::
      id in before && (forall i :: 0 <= i < |items| ==> items[i].assetId != id) ==> after[id] == before[id]
  }

  /** A case under way or awaiting its decision has the asset. */
  predicate TakenBy(c: Case, asset: AssetId) {
    && (c.status == Submitted || c.status == Approved || c.status == InExecution)
    && exists i :: 0 <= i < |c.items| && c.items[i].assetId == asset
  }

  lemma TakenIsHeld(c: Case, asset: AssetId)
    ensures TakenBy(c, asset) <==> Active(c.status) && asset in AssetIds(c.items)
  {
    if asset in AssetIds(c.items) {
      var item :| item in c.items && item.assetId == asset;
      var i :| 0 <= i < |c.items| && c.items[i] == item;
    }
  }

  lemma CreatedCase(db: Db, id: CaseId, kind: DisposalType, wanted: seq<NewItem>, actor: UserId)
    requires Stored(db) && id !in db.cases
    ensures Enabled(db, Create(id, kind, wanted, actor)) <==>
      && |wanted| > 0
      && (forall i, j :: 0 <= i < j < |wanted| ==> wanted[i].assetId != wanted[j].assetId)
      && (forall item :: item in wanted ==>
            && item.assetId in db.assets
            && !db.assets[item.assetId].deleted
            && db.assets[item.assetId].status in {Ready, Returned, Broken})
      && (forall item, other :: item in wanted && other in db.cases ==> !TakenBy(db.cases[other], item.assetId))
    ensures Enabled(db, Create(id, kind, wanted, actor)) ==>
      var after := Apply(db, Create(id, kind, wanted, actor));
      && after.assets == db.assets
      && after.cases.Keys == db.cases.Keys + {id}
      && (forall other :: other in db.cases ==> after.cases[other] == db.cases[other])
      && after.cases[id].(items := []) == Case(kind, Draft, actor, None, None, [], [], [Created])
      && |after.cases[id].items| == |wanted|
      && forall i :: 0 <= i < |wanted| ==>
           && after.cases[id].items[i].assetId == wanted[i].assetId
           && after.cases[id].items[i].hasData == wanted[i].hasData
           && after.cases[id].items[i].sanitization == (if wanted[i].hasData then Pending else NotRequired)
           && after.cases[id].items[i].sanitizedBy == None
           && after.cases[id].items[i].snapshot == db.assets[wanted[i].assetId].status
  {
    forall item, other | item in wanted && other in db.cases
      ensures TakenBy(db.cases[other], item.assetId) <==>
        Active(db.cases[other].status) && item.assetId in AssetIds(db.cases[other].items)
    {
      TakenIsHeld(db.cases[other], item.assetId);
    }
  }

  lemma SubmittableCase(db: Db, id: CaseId)
    requires Stored(db) && id in db.cases
    ensures Enabled(db, Submit(id)) <==>
      && db.cases[id].status == Draft && |db.cases[id].items| > 0
      && forall item :: item in db.cases[id].items ==>
           && db.assets[item.assetId].status in {Ready, Returned, Broken}
           && forall other :: other in db.cases && other != id ==> !TakenBy(db.cases[other], item.assetId)
  {
    forall item, other | item in db.cases[id].items && other in db.cases
      ensures TakenBy(db.cases[other], item.assetId) <==>
        Active(db.cases[other].status) && item.assetId in AssetIds(db.cases[other].items)
    {
      TakenIsHeld(db.cases[other], item.assetId);
    }
  }

  lemma SubmittedCase(db: Db, id: CaseId)
    requires Stored(db) && Enabled(db, Submit(id))
    ensures var c, after := db.cases[id], Apply(db, Submit(id));
      && after.cases == db.cases[id := c.(status := Submitted, log := c.log + [SubmittedForApproval])]
      && OthersKeep(db.assets, after.assets, c.items)
      && forall i :: 0 <= i < |c.items| ==>
           var asset := db.assets[c.items[i].assetId]; after.assets[c.items[i].assetId] == asset.(status := Reserved)
  {
    var c := db.cases[id];
    assert DistinctAssets(c.items);
    TouchedMeans(db.assets, c.items, Reserve);
    forall i | 0 <= i < |c.items| ensures c.items[i].assetId in db.assets {
      assert c.items[i] in c.items;
    }
  }

  lemma DecidedCase(db: Db, id: CaseId, actor: UserId)
    requires Stored(db) && id in db.cases
    ensures Enabled(db, Approve(id, actor)) <==> db.cases[id].status == Submitted && actor != db.cases[id].requester
    ensures Enabled(db, Reject(id, actor)) <==>
      && Enabled(db, Approve(id, actor))
      && forall item :: item in db.cases[id].items ==> db.assets[item.assetId].status == Reserved
    ensures Enabled(db, Approve(id, actor)) ==>
      var c, after := db.cases[id], Apply(db, Approve(id, actor));
      && after.cases == db.cases[id := c.(status := Approved, approver := Some(actor), log := c.log + [ApprovedBy])]
      && after.assets == db.assets
    ensures Enabled(db, Reject(id, actor)) ==>
      var c, after := db.cases[id], Apply(db, Reject(id, actor));
      && after.cases == db.cases[id := c.(status := Rejected, approver := Some(actor), log := c.log + [RejectedBy])]
      && OthersKeep(db.assets, after.assets, c.items)
      && forall i :: 0 <= i < |c.items| ==> var asset := db.assets[c.items[i].assetId];
           after.assets[c.items[i].assetId] == asset.(status := c.items[i].snapshot)
  {
    TouchedMeans(db.assets, db.cases[id].items, Restore);
  }

  lemma ExecutedCase(db: Db, id: CaseId, actor: UserId, evidence: Evidence)
    requires Stored(db) && id in db.cases
    ensures Enabled(db, Start(id, actor)) <==> db.cases[id].status == Approved
    ensures Enabled(db, AddEvidence(id, evidence)) <==> db.cases[id].status in {Approved, InExecution}
    ensures Enabled(db, Start(id, actor)) ==>
      var c, after := db.cases[id], Apply(db, Start(id, actor));
      && after.assets == db.assets
      && after.cases ==
         db.cases[id := c.(status := InExecution, executor := Some(actor), log := c.log + [ExecutionStarted])]
    ensures Enabled(db, AddEvidence(id, evidence)) ==>
      var c, after := db.cases[id], Apply(db, AddEvidence(id, evidence));
      && after.assets == db.assets
      && after.cases == db.cases[id := c.(evidence := c.evidence + [evidence], log := c.log + [EvidenceAdded])]
  {
  }

  lemma SanitizedItem(db: Db, id: CaseId, i: nat, sanitization: Sanitization, technique: string, actor: UserId)
    requires Stored(db) && id in db.cases && i < |db.cases[id].items|
    ensures var c, step :=
        db.cases[id], UpdateSanitization(id, db.cases[id].items[i].assetId, sanitization, technique, actor);
      && (Enabled(db, step) <==>
            && c.status in {Approved, InExecution}
            && !(c.items[i].hasData && sanitization == NotRequired)
            && !(sanitization == Verified && Text.Trim(technique) == ""))
      && (Enabled(db, step) ==>
            && Apply(db, step).assets == db.assets
            && Apply(db, step).cases == db.cases[id := c.(
                 items := c.items[i := c.items[i].(
                   sanitization := sanitization,
                   sanitizedBy := if sanitization == Verified then Some(actor) else None)],
                 log := c.log + [SanitizationUpdated])])
  {
    var c := db.cases[id];
    assert DistinctAssets(c.items);
    ItemForOwn(c.items, i);
    var cleaner := if sanitization == Verified then Some(actor) else None;
    assert Sanitized(c.items, c.items[i].assetId, sanitization, actor) ==
      c.items[i := c.items[i].(sanitization := sanitization, sanitizedBy := cleaner)];
  }

  lemma CompletedCase(db: Db, id: CaseId, actor: UserId)
    requires Stored(db) && id in db.cases
    ensures var c := db.cases[id];
      Enabled(db, Complete(id, actor)) <==>
        && c.status == InExecution && |c.evidence| > 0
        && (forall item :: item in c.items && item.hasData ==>
              item.sanitization == Verified && DataErasureCertificate in c.evidence)
        && (c.kind == Destruction ==> DestructionCertificate in c.evidence)
        && (c.kind == Sale ==> SaleContract in c.evidence || HandoverMinutes in c.evidence)
        && (c.kind == Donation || c.kind == ReturnToVendor || c.kind == Recycle ==> HandoverMinutes in c.evidence)
        && (forall item :: item in c.items ==>
              && db.assets[item.assetId].status == Reserved
              && !db.assets[item.assetId].openAssignment && !db.assets[item.assetId].openMaintenance)
    ensures Enabled(db, Complete(id, actor)) ==>
      var c, after := db.cases[id], Apply(db, Complete(id, actor));
      && after.cases == db.cases[id := c.(status := Completed, log := c.log + [CompletedBy],
                                          executor := if c.executor == None then Some(actor) else c.executor)]
      && OthersKeep(db.assets, after.assets, c.items)
      && forall i :: 0 <= i < |c.items| ==>
           after.assets[c.items[i].assetId] ==
           Asset(Disposed, db.assets[c.items[i].assetId].deleted, false, false, Placement(None, None, None, None, None))
  {
    TouchedMeans(db.assets, db.cases[id].items, Retire);
    assert Enabled(db, Complete(id, actor)) ==>
      forall i :: 0 <= i < |db.cases[id].items| ==> db.cases[id].items[i] in db.cases[id].items;
  }

  /** A deleted case gives its assets their snapshots back whatever their status is, a cancelled one only when all are
      still reserved; a draft holds none. */
  lemma EndedCase(db: Db, id: CaseId)
    requires Stored(db) && id in db.cases
    ensures Enabled(db, Remove(id))
    ensures var c := db.cases[id];
      Enabled(db, Cancel(id)) <==>
        && c.status !in {Completed, Cancelled, Rejected}
        && (c.status == Draft || forall item :: item in c.items ==> db.assets[item.assetId].status == Reserved)
    ensures Enabled(db, Cancel(id)) ==>
      var c, after := db.cases[id], Apply(db, Cancel(id));
      && after.cases == db.cases[id := c.(status := Cancelled, log := c.log + [CancelledBy])]
      && after.assets == if c.status == Draft then db.assets else Apply(db, Remove(id)).assets
    ensures
      var c, after := db.cases[id], Apply(db, Remove(id));
      && after.cases == db.cases - {id}
      && OthersKeep(db.assets, after.assets, c.items)
      && forall i :: 0 <= i < |c.items| ==> var asset := db.assets[c.items[i].assetId];
           after.assets[c.items[i].assetId] == asset.(status := c.items[i].snapshot)
  {
    TouchedMeans(db.assets, db.cases[id].items, Restore);
  }

  /** Other modules write any asset, but not the status of one that a case under way holds or a completed one has
      retired. */
  lemma WrittenElsewhere(db: Db, asset: AssetId, row: Asset)
    requires Stored(db) && asset in db.assets
    ensures Enabled(db, Elsewhere(asset, row)) <==>
      || row.status == db.assets[asset].status
      || forall id, item :: id in db.cases && item in db.cases[id].items && item.assetId == asset ==>
           db.cases[id].status in {Draft, Rejected, Cancelled}
    ensures Enabled(db, Elsewhere(asset, row)) ==>
      Apply(db, Elsewhere(asset, row)) == Db(db.assets[asset := row], db.cases)
  {
    forall id | id in db.cases
      ensures Held(db.cases[id].status) <==> db.cases[id].status !in {Draft, Rejected, Cancelled}
    {
      HeldMeans(db.cases[id].status);
    }
    hide Held;
    if id, item :| id in db.cases && item in db.cases[id].items && item.assetId == asset && Held(db.cases[id].status) {
      assert asset in AssetIds(db.cases[id].items);
      assert HeldAsset(db, asset);
    }
  }

  lemma HeldMeans(status: CaseStatus)
    ensures Held(status) <==> status !in {Draft, Rejected, Cancelled}
  {
    assert status.Draft? || status.Submitted? || status.Approved? || status.Rejected? || status.InExecution?
      || status.Completed? || status.Cancelled?;
  }
}
