/** What agents, inbox and links keep over whole runs. */
module DiscoveryRuns {
  import opened Common
  import opened Discovery
  import F = Fingerprint

  ghost function Run(db: Db, steps: seq<Step>): Db
    decreases |steps|
  {
    if steps == [] then db else Run(Perform(db, steps[0]), steps[1..])
  }

  // ---------------------------------------------------------------------------------------------
  // The invariant
  // ---------------------------------------------------------------------------------------------

  /** No two agents are linked to one asset. */
  ghost predicate LinksApart(agents: map<AgentId, Agent>) {
    forall a, b | a in agents && b in agents && agents[a].linkedAsset.Some?
      && agents[a].linkedAsset == agents[b].linkedAsset :: a == b
  }

  /** An undecided item shows exactly the decision on what was last seen of its agent. */
  ghost predicate ShowsDecision(item: Item, sighting: Sighting) {
    && NoEmptyText(sighting.evidence)
    && Decision(item.status, item.suggested, item.confidence, item.conflict) ==
      Decide(sighting.assets, sighting.evidence)
  }

  ghost predicate ItemOk(db: Db, agent: AgentId, item: Item) {
    && agent in db.agents
    && match item.status
       case Ignored => item.suggested.None? && item.resolved.None?
       case Linked => item.suggested.None? && item.resolved.Some? && item.resolved == db.agents[agent].linkedAsset
         && item.confidence == 100
       case Created => item.suggested.None? && item.resolved.Some? && item.resolved == db.agents[agent].linkedAsset
         && item.confidence == 100
       case _ =>
         && db.agents[agent].linkedAsset.None? && item.resolved.None?
         && agent in db.seen && ShowsDecision(item, db.seen[agent])
  }

  ghost predicate Inv(db: Db) {
    && LinksApart(db.agents) && FingerprintsApart(db.agents)
    && (forall a | a in db.agents && db.agents[a].linkedAsset.Some? :: db.agents[a].linkedAsset.value in db.assets)
    && (forall a | a in db.agents :: a in db.inbox && db.agents[a].snapshots != map[])
    && (forall a | a in db.inbox :: ItemOk(db, a, db.inbox[a]))
  }

  /** Everything but the inbox item of one agent. */
  ghost predicate InvBut(db: Db, agent: AgentId) {
    && LinksApart(db.agents) && FingerprintsApart(db.agents)
    && (forall a | a in db.agents && db.agents[a].linkedAsset.Some? :: db.agents[a].linkedAsset.value in db.assets)
    && (forall a | a in db.agents :: (a != agent ==> a in db.inbox) && db.agents[a].snapshots != map[])
    && (forall a | a in db.inbox && a != agent :: ItemOk(db, a, db.inbox[a]))
  }

  /** An item depends on its own agent and its own sighting only. */
  lemma ItemStaysOk(db: Db, after: Db, agent: AgentId)
    requires agent in db.inbox && ItemOk(db, agent, db.inbox[agent])
    requires agent in after.inbox && after.inbox[agent] == db.inbox[agent]
    requires agent in after.agents && after.agents[agent].linkedAsset == db.agents[agent].linkedAsset
    requires agent in db.seen ==> agent in after.seen && after.seen[agent] == db.seen[agent]
    ensures ItemOk(after, agent, after.inbox[agent])
  {
    hide ShowsDecision;
  }

  /** A reconciliation mends the item of its agent, whatever it was before. */
  lemma ReconcileKeepsInv(db: Db, agent: AgentId, evidence: Evidence)
    requires agent in db.agents && NoEmptyText(evidence) && InvBut(db, agent)
    ensures Inv(Reconciled(db, agent, evidence))
  {
    hide LinksApart;
    var after := Reconciled(db, agent, evidence);
    ReconciledItemIsOk(db, agent, evidence);
    hide ReconciledItem, ItemOk;
    forall a | a in after.inbox && a != agent
      ensures ItemOk(after, a, after.inbox[a])
    {
      assert ItemOk(db, a, db.inbox[a]);
      ItemIsOfAgent(db, a);
      ItemStaysOk(db, after, a);
    }
  }

  lemma ItemIsOfAgent(db: Db, agent: AgentId)
    requires agent in db.inbox && ItemOk(db, agent, db.inbox[agent])
    ensures agent in db.agents
  {
  }

  lemma DecisionsAreUndecided(assets: map<AssetId, Asset>, evidence: Evidence)
    ensures Undecided(Decide(assets, evidence).status)
  {
    hide Candidates, Confidence, Single;
  }

  lemma ReconciledItemIsOk(db: Db, agent: AgentId, evidence: Evidence)
    requires agent in db.agents && NoEmptyText(evidence)
    ensures ItemOk(Reconciled(db, agent, evidence), agent, ReconciledItem(db, agent, evidence))
  {
    DecisionsAreUndecided(db.assets, evidence);
    hide Decide, NoEmptyText;
    var after, item := Reconciled(db, agent, evidence), ReconciledItem(db, agent, evidence);
    if db.agents[agent].linkedAsset.None? {
      assert ShowsDecision(item, after.seen[agent]);
      hide ShowsDecision;
    }
  }

  /** The agent row a report writes: an existing one keeps its link, a new one has none. */
  predicate ReportRow(db: Db, agent: AgentId, row: Agent) {
    if agent in db.agents
    then
      && row.linkedAsset == db.agents[agent].linkedAsset && row.snapshots == db.agents[agent].snapshots
      && row.fingerprint == db.agents[agent].fingerprint
    else row.linkedAsset.None? && !Known(db.agents, row.fingerprint)
  }

  lemma EnrolledRowIsReportRow(db: Db, agent: AgentId, key: string, body: Body, now: Time)
    requires agent in db.agents || !Known(db.agents, body.fingerprint)
    ensures ReportRow(db, agent, EnrolledRow(db.agents, agent, key, body, now))
  {
  }

  lemma WithReport(db: Db, agent: AgentId, row: Agent, snapshots: map<Time, Inventory>)
    requires Inv(db) && ReportRow(db, agent, row) && snapshots != map[]
    ensures InvBut(db.(agents := db.agents[agent := row.(snapshots := snapshots)]), agent)
  {
    hide ItemOk, LinksApart, FingerprintsApart, Known;
    var after := db.(agents := db.agents[agent := row.(snapshots := snapshots)]);
    ReportKeepsApart(db, agent, row, after.agents);
    ItemsStayOk(db, after, {agent});
  }

  lemma ReportKeepsApart(db: Db, agent: AgentId, row: Agent, after: map<AgentId, Agent>)
    requires LinksApart(db.agents) && FingerprintsApart(db.agents) && ReportRow(db, agent, row)
    requires agent in after && after == db.agents[agent := after[agent]]
    requires after[agent].linkedAsset == row.linkedAsset && after[agent].fingerprint == row.fingerprint
    ensures LinksApart(after) && FingerprintsApart(after)
  {
    if agent !in db.agents {
      forall a | a in db.agents
        ensures db.agents[a].fingerprint != row.fingerprint
      {
        assert !HasFingerprint(db.agents, a, row.fingerprint);
      }
    }
  }

  /** Items stay sound where they, the link of their agent and its sighting are left alone. */
  lemma ItemsStayOk(db: Db, after: Db, except: set<AgentId>)
    requires forall a | a in db.inbox :: ItemOk(db, a, db.inbox[a])
    requires forall a | a in after.inbox && a !in except :: a in db.inbox && after.inbox[a] == db.inbox[a]
    requires forall a | a in db.agents && a !in except ::
      a in after.agents && after.agents[a].linkedAsset == db.agents[a].linkedAsset
    requires after.seen == db.seen
    ensures forall a | a in after.inbox && a !in except :: ItemOk(after, a, after.inbox[a])
  {
    hide ItemOk;
    forall a | a in after.inbox && a !in except
      ensures ItemOk(after, a, after.inbox[a])
    {
      assert ItemOk(db, a, db.inbox[a]);
      ItemIsOfAgent(db, a);
      ItemStaysOk(db, after, a);
    }
  }

  lemma ReportKeepsInv(db: Db, agent: AgentId, row: Agent, inventory: Inventory, collectedAt: Time)
    requires Inv(db) && ReportRow(db, agent, row)
    ensures Inv(Reported(db, agent, row, inventory, collectedAt))
  {
    hide Inv, EvidenceOf, InvBut, ReportRow;
    var stored := WithSnapshot(row, collectedAt, inventory);
    assert collectedAt in stored.snapshots;
    WithReport(db, agent, row, stored.snapshots);
    assert stored == row.(snapshots := stored.snapshots);
    EvidenceIsNotEmpty(inventory);
    ReconcileKeepsInv(db.(agents := db.agents[agent := stored]), agent, EvidenceOf(inventory));
  }

  lemma LinkKeepsInv(db: Db, agent: AgentId, asset: AssetId, item: Item, assets: map<AssetId, Asset>)
    requires Inv(db) && agent in db.agents && !Occupied(db.agents, asset, agent)
    requires asset in assets && forall id | id in db.assets :: id in assets
    requires item.status in {Linked, Created} && item.suggested.None? && item.resolved == Some(asset)
    requires item.confidence == 100
    ensures Inv(Db(assets, db.agents[agent := db.agents[agent].(linkedAsset := Some(asset))],
                   db.inbox[agent := item], db.seen))
  {
    hide ShowsDecision, LinksApart, FingerprintsApart;
    LinkKeepsApart(db.agents, agent, asset);
    var after :=
      Db(assets, db.agents[agent := db.agents[agent].(linkedAsset := Some(asset))], db.inbox[agent := item], db.seen);
    forall a | a in after.inbox
      ensures ItemOk(after, a, after.inbox[a])
    {
      if a != agent {
        assert ItemOk(db, a, db.inbox[a]);
      }
    }
  }

  lemma LinkKeepsApart(agents: map<AgentId, Agent>, agent: AgentId, asset: AssetId)
    requires LinksApart(agents) && FingerprintsApart(agents) && agent in agents && !Occupied(agents, asset, agent)
    ensures LinksApart(agents[agent := agents[agent].(linkedAsset := Some(asset))])
    ensures FingerprintsApart(agents[agent := agents[agent].(linkedAsset := Some(asset))])
  {
  }

  lemma NewAssetIsFree(db: Db, agent: AgentId, asset: AssetId)
    requires Inv(db) && asset !in db.assets
    ensures !Occupied(db.agents, asset, agent)
  {
    hide ItemOk, LinksApart;
  }

  lemma PerformKeepsInv(db: Db, step: Step)
    requires Inv(db)
    ensures Inv(Perform(db, step))
  {
    hide ShowsDecision, NewAsset, Reported, ItemOk, LinksApart, EnrolledRow, Decide;
    if Enabled(db, step) {
      match step
      case Enroll(agent, key, body, now) =>
        EnrolledRowIsReportRow(db, agent, key, body, now);
        ReportKeepsInv(db, agent, EnrolledRow(db.agents, agent, key, body, now), body.inventory,
                       body.collectedAt.value);
      case Ingest(agent, _, body, now) =>
        ReportKeepsInv(db, agent, db.agents[agent].(lastSeen := now), body.inventory, body.collectedAt.value);
      case Reopen(agent) =>
        var inventory := LatestInventory(db.agents[agent].snapshots).value;
        EvidenceIsNotEmpty(inventory);
        ReconcileKeepsInv(db, agent, EvidenceOf(inventory));
      case Link(agent, asset, note, actor) =>
        LinkKeepsInv(db, agent, asset, Item(Linked, None, Some(asset), 100, false, note, Some(actor)), db.assets);
      case CreateAsset(agent, asset, _, _, _, note, actor) =>
        NewAssetIsFree(db, agent, asset);
        LinkKeepsInv(db, agent, asset, Item(Created, None, Some(asset), 100, false, note, Some(actor)),
                     Apply(db, step).assets);
      case _ => QuietStepKeepsInv(db, step);
    }
  }

  lemma QuietStepKeepsInv(db: Db, step: Step)
    requires Inv(db) && Enabled(db, step) && (step.Revoke? || step.Ignore? || step.Elsewhere?)
    ensures Inv(Apply(db, step))
  {
    hide Inv;
    match step
    case Ignore(agent, _, _) => IgnoreKeepsInv(db, step);
    case Revoke(_) => OtherAgentsKeepInv(db, Apply(db, step));
    case Elsewhere(_, _) => OtherAgentsKeepInv(db, Apply(db, step));
  }

  lemma IgnoreKeepsInv(db: Db, step: Step)
    requires Inv(db) && step.Ignore? && Enabled(db, step)
    ensures Inv(Apply(db, step))
  {
    hide ItemOk, LinksApart, FingerprintsApart;
    var agent, after := step.agent, Apply(db, step);
    ItemIsOfAgent(db, agent) by { assert ItemOk(db, agent, db.inbox[agent]); }
    IgnoredIsOk(after, agent);
    ItemsStayOk(db, after, {agent});
  }

  /** What is written beside the inbox and the links. */
  lemma OtherAgentsKeepInv(db: Db, after: Db)
    requires Inv(db) && after.inbox == db.inbox && after.seen == db.seen && after.agents.Keys == db.agents.Keys
    requires forall id | id in db.assets :: id in after.assets
    requires forall a | a in db.agents :: after.agents[a] == db.agents[a].(revoked := after.agents[a].revoked)
    ensures Inv(after)
  {
    hide ItemOk, LinksApart, FingerprintsApart;
    SameLinks(db.agents, after.agents);
    ItemsStayOk(db, after, {});
  }

  lemma SameLinks(before: map<AgentId, Agent>, after: map<AgentId, Agent>)
    requires LinksApart(before) && FingerprintsApart(before) && after.Keys == before.Keys
    requires forall a | a in before :: after[a].linkedAsset == before[a].linkedAsset
    requires forall a | a in before :: after[a].fingerprint == before[a].fingerprint
    ensures LinksApart(after) && FingerprintsApart(after)
  {
  }

  lemma IgnoredIsOk(db: Db, agent: AgentId)
    requires agent in db.agents && agent in db.inbox && db.inbox[agent].status == Ignored
    requires db.inbox[agent].suggested.None? && db.inbox[agent].resolved.None?
    ensures ItemOk(db, agent, db.inbox[agent])
  {
  }

  lemma {:induction false} RunKeepsInv(db: Db, steps: seq<Step>)
    requires Inv(db)
    ensures Inv(Run(db, steps))
    decreases |steps|
  {
    hide Inv, Perform;
    if steps != [] {
      PerformKeepsInv(db, steps[0]);
      RunKeepsInv(Perform(db, steps[0]), steps[1..]);
    }
  }

  // ---------------------------------------------------------------------------------------------
  // What every reachable state shows
  // ---------------------------------------------------------------------------------------------

  lemma ReachableStates(assets: map<AssetId, Asset>, steps: seq<Step>)
    ensures var db := Run(Db(assets, map[], map[], map[]), steps);
      && (forall a, b | a in db.agents && b in db.agents && db.agents[a].linkedAsset.Some?
                        && db.agents[a].linkedAsset == db.agents[b].linkedAsset :: a == b)
      && db.inbox.Keys == db.agents.Keys
      && (forall a | a in db.inbox && Undecided(db.inbox[a].status) ::
        db.agents[a].linkedAsset.None? && db.inbox[a].resolved.None?)
      && (forall a | a in db.inbox && db.inbox[a].status in {Linked, Created} ::
        db.inbox[a].resolved.Some? && db.inbox[a].resolved == db.agents[a].linkedAsset)
      && (forall a | a in db.inbox :: db.inbox[a].status == Matched <==> db.inbox[a].suggested.Some?)
  {
    var start := Db(assets, map[], map[], map[]);
    assert Inv(start);
    RunKeepsInv(start, steps);
    var db := Run(start, steps);
    hide Run, ShowsDecision, Decide;
    forall a | a in db.inbox
      ensures db.inbox[a].status == Matched <==> db.inbox[a].suggested.Some?
    {
      assert ItemOk(db, a, db.inbox[a]);
      if Undecided(db.inbox[a].status) {
        ShownDecision(db, a);
      }
    }
    forall a | a in db.inbox
      ensures a in db.agents
    {
      assert ItemOk(db, a, db.inbox[a]);
    }
    hide LinksApart;
    assert LinksApart(db.agents);
    LinksApartMeans(db.agents);
  }

  lemma LinksApartMeans(agents: map<AgentId, Agent>)
    requires LinksApart(agents)
    ensures forall a, b | a in agents && b in agents && agents[a].linkedAsset.Some?
      && agents[a].linkedAsset == agents[b].linkedAsset :: a == b
  {
  }

  lemma ShownDecision(db: Db, agent: AgentId)
    requires Inv(db) && agent in db.inbox && Undecided(db.inbox[agent].status)
    ensures agent in db.seen && ShowsDecision(db.inbox[agent], db.seen[agent])
    ensures db.inbox[agent].status == Matched <==> db.inbox[agent].suggested.Some?
  {
    assert ItemOk(db, agent, db.inbox[agent]);
    DecisionMeaning(db.seen[agent].assets, db.seen[agent].evidence);
    hide Decide, Candidates, LinksApart;
  }

  /** What the confidence of a suggestion says about the suggested asset, as it was when the device was last seen. */
  lemma ConfidenceMeaning(db: Db, agent: AgentId)
    requires Inv(db) && agent in db.inbox && db.inbox[agent].status == Matched
    ensures agent in db.seen
    ensures var item, sighting := db.inbox[agent], db.seen[agent];
      && item.suggested.Some? && item.suggested.value in sighting.assets
      && !sighting.assets[item.suggested.value].deleted
      && Single(Candidates(sighting.assets, sighting.evidence), item.suggested.value)
      && item.confidence in {80, 95, 99}
      && (item.confidence == 80 ==> Equals(sighting.assets[item.suggested.value].mac, sighting.evidence.mac))
      && (item.confidence == 95 ==>
        Agrees(sighting.assets[item.suggested.value].serialNumber, sighting.evidence.serial))
      && (item.confidence == 99 <==>
        Agrees(sighting.assets[item.suggested.value].systemUuid, sighting.evidence.systemUuid))
  {
    assert ItemOk(db, agent, db.inbox[agent]);
    DecisionMeaning(db.seen[agent].assets, db.seen[agent].evidence);
    hide Decide, Candidates, LinksApart, Agrees, Equals, Single;
  }

  /** A report is what undoes an ignored item: afterwards it is linked or shows a decision again. */
  lemma ReportEndsIgnoring(db: Db, agent: AgentId, key: string, body: Body, now: Time)
    requires Inv(db) && Enabled(db, Ingest(agent, key, body, now))
    ensures var after := Apply(db, Ingest(agent, key, body, now));
      && agent in after.inbox && after.inbox[agent].status != Ignored
      && (after.inbox[agent].status == Linked <==> db.agents[agent].linkedAsset.Some?)
  {
    hide Decide, Candidates, Agrees, Equals, EvidenceOf, Inv;
    EvidenceIsNotEmpty(body.inventory);
    DecisionMeaning(db.assets, EvidenceOf(body.inventory));
  }

  predicate IgnoredIn(db: Db, agent: AgentId) {
    agent in db.inbox && db.inbox[agent].status == Ignored
  }

  /** A report of the agent, a fresh look at its snapshot, or a link. */
  ghost predicate EndsIgnoring(db: Db, step: Step, agent: AgentId) {
    && Enabled(db, step) && (step.Enroll? || step.Ingest? || step.Reopen? || step.Link?) && step.agent == agent
  }

  /** The steps that end an ignored item: exactly these. */
  lemma IgnoredStaysIff(db: Db, step: Step, agent: AgentId)
    requires Inv(db) && IgnoredIn(db, agent)
    ensures agent in Perform(db, step).inbox
    ensures IgnoredIn(Perform(db, step), agent) <==> !EndsIgnoring(db, step, agent)
  {
    hide Inv, Decide, Collides, NewAsset, Occupied, LatestInventory, EvidenceOf, InWindow;
    if step.Enroll? || step.Ingest? {
      DecisionsAreUndecided(db.assets, EvidenceOf(step.body.inventory));
    } else if step.Reopen? && Enabled(db, step) {
      DecisionsAreUndecided(db.assets, EvidenceOf(LatestInventory(db.agents[step.agent].snapshots).value));
    }
  }

  ghost predicate IgnoredAlong(db: Db, steps: seq<Step>, agent: AgentId)
    decreases |steps|
  {
    IgnoredIn(db, agent) && (steps != [] ==> IgnoredAlong(Perform(db, steps[0]), steps[1..], agent))
  }

  ghost predicate NothingEndsIt(db: Db, steps: seq<Step>, agent: AgentId)
    decreases |steps|
  {
    steps != [] ==> !EndsIgnoring(db, steps[0], agent) && NothingEndsIt(Perform(db, steps[0]), steps[1..], agent)
  }

  /** An item stays ignored throughout a run exactly when its agent does not report, is not looked at again and is not
      linked in it. */
  lemma {:induction false} IgnoredLastsIff(db: Db, steps: seq<Step>, agent: AgentId)
    requires Inv(db) && IgnoredIn(db, agent)
    ensures IgnoredAlong(db, steps, agent) <==> NothingEndsIt(db, steps, agent)
    decreases |steps|
  {
    if steps != [] {
      IgnoredStaysIff(db, steps[0], agent);
      PerformKeepsInv(db, steps[0]);
      hide Inv, Perform, EndsIgnoring;
      if !EndsIgnoring(db, steps[0], agent) {
        IgnoredLastsIff(Perform(db, steps[0]), steps[1..], agent);
      }
    }
  }

  /** No step ever takes a link away, so the item of a linked agent can never be reopened, in any later state. */
  lemma {:induction false} LinkedStaysLinked(db: Db, agent: AgentId, steps: seq<Step>)
    requires agent in db.agents && db.agents[agent].linkedAsset.Some?
    ensures var after := Run(db, steps);
      && agent in after.agents && after.agents[agent].linkedAsset.Some?
      && Perform(after, Reopen(agent)) == after
    decreases |steps|
  {
    if steps != [] {
      LinkedAfterStep(db, agent, steps[0]);
      hide Perform;
      LinkedStaysLinked(Perform(db, steps[0]), agent, steps[1..]);
    }
  }

  lemma LinkedAfterStep(db: Db, agent: AgentId, step: Step)
    requires agent in db.agents && db.agents[agent].linkedAsset.Some?
    ensures agent in Perform(db, step).agents && Perform(db, step).agents[agent].linkedAsset.Some?
  {
    hide ReconciledItem, NewAsset, LatestInventory, Occupied, Collides;
  }

  /** An ignored item can be reopened unless its agent is linked: every agent has a snapshot. */
  lemma ReopenIff(db: Db, agent: AgentId)
    requires Inv(db) && agent in db.inbox
    ensures agent in db.agents && (Enabled(db, Reopen(agent)) <==> db.agents[agent].linkedAsset.None?)
  {
    assert ItemOk(db, agent, db.inbox[agent]);
    hide ItemOk, LinksApart;
    var t := LatestExists(db.agents[agent].snapshots.Keys);
    assert IsLatest(db.agents[agent].snapshots, t);
  }

  predicate IsGreatest(times: set<Time>, t: Time) {
    t in times && forall other | other in times :: other <= t
  }

  lemma {:induction false} LatestExists(times: set<Time>) returns (t: Time)
    requires times != {}
    ensures IsGreatest(times, t)
    decreases |times|
  {
    var s :| s in times;
    var rest := times - {s};
    if rest == {} {
      t := s;
    } else {
      var before := LatestExists(rest);
      t := if s > before then s else before;
    }
    assert forall other | other in times :: other in rest || other == s;
  }

  /** The link of an agent changes only when an operator links it elsewhere: creating an asset needs an unlinked
      agent. */
  lemma OnlyLinkMoves(db: Db, agent: AgentId, step: Step)
    requires Inv(db) && agent in db.agents && db.agents[agent].linkedAsset.Some?
    requires Perform(db, step).agents[agent].linkedAsset != db.agents[agent].linkedAsset
    ensures step.Link? && step.agent == agent
  {
    hide ReconciledItem, NewAsset, LatestInventory, Occupied, Collides, Inv;
    LinkedAfterStep(db, agent, step);
    CreationNeedsUnlinked(db, agent);
  }

  lemma CreationNeedsUnlinked(db: Db, agent: AgentId)
    requires Inv(db) && agent in db.agents && db.agents[agent].linkedAsset.Some?
    ensures agent in db.inbox && !Undecided(db.inbox[agent].status)
  {
    hide ShowsDecision;
    assert ItemOk(db, agent, db.inbox[agent]);
  }

  // ---------------------------------------------------------------------------------------------
  // Reports in time
  // ---------------------------------------------------------------------------------------------

  predicate Reports(step: Step) {
    step.Enroll? || step.Ingest?
  }

  /** The clock of a run: no report comes before the ones ahead of it. */
  predicate Timely(steps: seq<Step>, clock: Time)
    decreases |steps|
  {
    steps != [] ==>
      if Reports(steps[0]) then clock <= steps[0].now && Timely(steps[1..], steps[0].now) else Timely(steps[1..], clock)
  }

  ghost predicate SeenSince(db: Db, agent: AgentId, since: Time) {
    agent in db.agents && since <= db.agents[agent].lastSeen
  }

  lemma {:induction false} SeenSinceStays(db: Db, steps: seq<Step>, agent: AgentId, since: Time, clock: Time)
    requires SeenSince(db, agent, since) && Timely(steps, clock) && since <= clock
    ensures SeenSince(Run(db, steps), agent, since)
    decreases |steps|
  {
    if steps != [] {
      SeenSinceStep(db, steps[0], agent, since);
      hide Perform, SeenSince;
      SeenSinceStays(Perform(db, steps[0]), steps[1..], agent, since, ClockAfter(steps[0], clock));
    }
  }

  lemma SeenSinceStep(db: Db, step: Step, agent: AgentId, since: Time)
    requires SeenSince(db, agent, since) && (Reports(step) ==> since <= step.now)
    ensures SeenSince(Perform(db, step), agent, since)
  {
    hide ReconciledItem, NewAsset, LatestInventory, Occupied, Collides;
  }

  /** Whatever happens in between, an agent is heard again no earlier than 15 seconds after its last accepted report. */
  lemma ReportsAreSpaced(db: Db, first: Step, between: seq<Step>, second: Step)
    requires Reports(first) && Enabled(db, first) && Timely(between, first.now)
    requires second.Ingest? && second.agent == first.agent
    requires Enabled(Run(Perform(db, first), between), second)
    ensures first.now + RATE_LIMIT <= second.now
  {
    var start := Perform(db, first);
    assert SeenSince(start, first.agent, first.now) by { hide ReconciledItem; }
    SeenSinceStays(start, between, first.agent, first.now, first.now);
  }

  /** No snapshot is more than ten minutes ahead of the last report of its agent. */
  ghost predicate SnapshotsInTime(db: Db, clock: Time) {
    forall a | a in db.agents :: RowInTime(db.agents[a], clock)
  }

  ghost predicate RowInTime(row: Agent, clock: Time) {
    row.lastSeen <= clock && forall t | t in row.snapshots :: t <= row.lastSeen + MAX_AHEAD
  }

  function ClockAfter(step: Step, clock: Time): Time {
    if Reports(step) then step.now else clock
  }

  lemma StepKeepsTime(db: Db, step: Step, clock: Time)
    requires SnapshotsInTime(db, clock) && (Reports(step) ==> clock <= step.now)
    ensures SnapshotsInTime(Perform(db, step), ClockAfter(step, clock))
  {
    hide Perform, RowInTime;
    var after := Perform(db, step);
    forall a | a in after.agents
      ensures RowInTime(after.agents[a], ClockAfter(step, clock))
    {
      RowStaysInTime(db, step, clock, a);
    }
  }

  lemma RowStaysInTime(db: Db, step: Step, clock: Time, agent: AgentId)
    requires agent in Perform(db, step).agents && (Reports(step) ==> clock <= step.now)
    requires agent in db.agents ==> RowInTime(db.agents[agent], clock)
    ensures RowInTime(Perform(db, step).agents[agent], ClockAfter(step, clock))
  {
    hide ReconciledItem, NewAsset, LatestInventory, Occupied, Collides;
  }

  lemma {:induction false} SnapshotsStayInTime(db: Db, steps: seq<Step>, clock: Time)
    requires SnapshotsInTime(db, clock) && Timely(steps, clock)
    ensures forall a, t | a in Run(db, steps).agents && t in Run(db, steps).agents[a].snapshots ::
      t <= Run(db, steps).agents[a].lastSeen + MAX_AHEAD
    decreases |steps|
  {
    if steps == [] {
      forall a | a in db.agents
        ensures RowInTime(db.agents[a], clock)
      {
      }
    } else {
      StepKeepsTime(db, steps[0], clock);
      hide Perform, SnapshotsInTime;
      SnapshotsStayInTime(Perform(db, steps[0]), steps[1..], ClockAfter(steps[0], clock));
    }
  }
}
