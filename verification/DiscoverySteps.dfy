/** When each discovery command commits and what it writes, told by the fields of the tables
    (apps/api/src/modules/discovery/discovery.service.ts). */
module DiscoverySteps {
  import opened Common
  import opened Decimal
  import opened Discovery
  import opened Text
  import F = Fingerprint
  import L = DiscoveryLaws

  // ---------------------------------------------------------------------------------------------
  // Snapshots
  // ---------------------------------------------------------------------------------------------

  lemma {:induction false} NewestOf(times: set<Time>) returns (newest: Time)
    requires times != {}
    ensures newest in times && forall t | t in times :: t <= newest
    decreases |times|
  {
    var some :| some in times;
    newest := some;
    assert forall t | t in times :: t == some || t in times - {some};
    if times - {some} != {} {
      var best := NewestOf(times - {some});
      newest := if best > some then best else some;
    }
  }

  /** The newest snapshot is the latest one, and there is one as soon as there is any. */
  lemma LatestMeans(snapshots: map<Time, Inventory>)
    ensures LatestInventory(snapshots).None? <==> snapshots.Keys == {}
    ensures forall t | t in snapshots && (forall other | other in snapshots :: other <= t) ::
      LatestInventory(snapshots) == Some(snapshots[t])
  {
    if snapshots.Keys != {} {
      var newest := NewestOf(snapshots.Keys);
      assert IsLatest(snapshots, newest);
    }
    forall t | t in snapshots && (forall other | other in snapshots :: other <= t)
      ensures LatestInventory(snapshots) == Some(snapshots[t])
    {
      assert IsLatest(snapshots, t);
    }
  }

  /** A report is taken in up to 30 days after its inventory was collected, and up to ten minutes before. */
  predicate InTime(body: Body, now: Time) {
    && body.collectedAt.Some?
    && now - body.collectedAt.value <= 30 * 24 * 60 * 60 * 1000
    && body.collectedAt.value - now <= 10 * 60 * 1000
  }

  /** The agent has the inventory of that moment, the one it had before if there was one. */
  predicate Keeps(before: map<Time, Inventory>, after: map<Time, Inventory>, collectedAt: Time, inventory: Inventory) {
    && after.Keys == before.Keys + {collectedAt}
    && (forall t | t in before :: after[t] == before[t])
    && (collectedAt !in before ==> after[collectedAt] == inventory)
  }

  /** Only the rows of one agent are written, and no asset. */
  ghost predicate OnlyAgent(before: Db, after: Db, agent: AgentId) {
    && after.assets == before.assets
    && after.agents.Keys == before.agents.Keys + {agent}
    && (forall other | other in before.agents && other != agent :: after.agents[other] == before.agents[other])
    && after.inbox.Keys == before.inbox.Keys + {agent}
    && (forall other | other in before.inbox && other != agent :: after.inbox[other] == before.inbox[other])
  }

  /** What the report of an inventory puts into the inbox. */
  ghost predicate Shows(before: Db, linked: Option<AssetId>, item: Item, inventory: Inventory) {
    if linked.Some? then
      && item.status == Linked && item.resolved == linked && item.suggested == None
      && item.confidence == 100 && !item.conflict
    else
      && (item.status == Pending <==> L.NoneMayBe(before.assets, inventory.device))
      && (item.status == Conflict <==> L.SeveralMayBe(before.assets, inventory.device))
      && (forall id :: item.status == Matched && item.suggested == Some(id) <==>
            L.OnlyOne(before.assets, inventory.device, id))
      && item.status in {Pending, Conflict, Matched} && item.resolved == None
  }

  lemma ShownItem(db: Db, agent: AgentId, inventory: Inventory)
    requires agent in db.agents
    ensures var after := Reconciled(db, agent, EvidenceOf(inventory));
      && OnlyAgent(db, after, agent) && after.agents == db.agents
      && Shows(db, db.agents[agent].linkedAsset, after.inbox[agent], inventory)
  {
    hide L.NoneMayBe, L.SeveralMayBe, L.OnlyOne, L.Trust, Decide, EvidenceOf;
    if db.agents[agent].linkedAsset.None? {
      DecidedItem(db, agent, inventory);
    }
  }

  lemma DecidedItem(db: Db, agent: AgentId, inventory: Inventory)
    requires agent in db.agents && db.agents[agent].linkedAsset.None?
    ensures Shows(db, None, Reconciled(db, agent, EvidenceOf(inventory)).inbox[agent], inventory)
  {
    hide L.NoneMayBe, L.SeveralMayBe, L.OnlyOne, L.Trust, Decide, EvidenceOf;
    L.DecisionOfInventory(db.assets, inventory);
  }

  lemma ShownAfter(db: Db, agent: AgentId, row: Agent, inventory: Inventory, collectedAt: Time)
    ensures var after := Reported(db, agent, row, inventory, collectedAt);
      && OnlyAgent(db, after, agent)
      && Shows(db, row.linkedAsset, after.inbox[agent], inventory)
      && var now := after.agents[agent];
         now == row.(snapshots := now.snapshots) && Keeps(row.snapshots, now.snapshots, collectedAt, inventory)
  {
    hide L.NoneMayBe, L.SeveralMayBe, L.OnlyOne, Decide, EvidenceOf, Reconciled;
    var noted := db.(agents := db.agents[agent := WithSnapshot(row, collectedAt, inventory)]);
    ShownItem(noted, agent, inventory);
  }

  /** A report is accepted from an enrolled agent with the key of its last enrolment, 15 seconds after its last one. */
  lemma IngestMeans(db: Db, agent: AgentId, key: string, body: Body, now: Time)
    ensures Enabled(db, Ingest(agent, key, body, now)) <==>
      && body.digest == Lower(body.fingerprint) && InTime(body, now)
      && agent in db.agents && db.agents[agent].key == key && !db.agents[agent].revoked
      && now - db.agents[agent].lastSeen >= 15 * 1000
    ensures Enabled(db, Ingest(agent, key, body, now)) ==>
      var before, after := db.agents[agent], Perform(db, Ingest(agent, key, body, now));
      && OnlyAgent(db, after, agent)
      && Shows(db, before.linkedAsset, after.inbox[agent], body.inventory)
      && after.agents[agent] == before.(lastSeen := now, snapshots := after.agents[agent].snapshots)
      && Keeps(before.snapshots, after.agents[agent].snapshots, body.collectedAt.value, body.inventory)
  {
    if Enabled(db, Ingest(agent, key, body, now)) {
      ShownAfter(db, agent, db.agents[agent].(lastSeen := now), body.inventory, body.collectedAt.value);
    }
    hide Reported, Shows;
  }

  predicate AnyHas(agents: map<AgentId, Agent>, fingerprint: string) {
    exists id :: id in agents && agents[id].fingerprint == fingerprint
  }

  /** A device enrols under a new agent, or again under its revoked one. */
  lemma EnrollMeans(db: Db, agent: AgentId, key: string, body: Body, now: Time)
    ensures Enabled(db, Enroll(agent, key, body, now)) <==>
      && body.digest == Lower(body.fingerprint) && InTime(body, now)
      && if AnyHas(db.agents, body.fingerprint)
         then agent in db.agents && db.agents[agent].fingerprint == body.fingerprint && db.agents[agent].revoked
         else agent !in db.agents
  {
    if id :| id in db.agents && db.agents[id].fingerprint == body.fingerprint {
      assert HasFingerprint(db.agents, id, body.fingerprint);
    }
  }

  /** An agent that enrols again keeps its link and its snapshots. */
  lemma EnrolledMeans(db: Db, agent: AgentId, key: string, body: Body, now: Time)
    requires Enabled(db, Enroll(agent, key, body, now))
    ensures var after := Perform(db, Enroll(agent, key, body, now)); var row := after.agents[agent];
      var linked := if agent in db.agents then db.agents[agent].linkedAsset else None;
      var snapshots := if agent in db.agents then db.agents[agent].snapshots else map[];
      && OnlyAgent(db, after, agent)
      && Shows(db, linked, after.inbox[agent], body.inventory)
      && row == Agent(body.fingerprint, key, linked, false, now, row.snapshots)
      && Keeps(snapshots, row.snapshots, body.collectedAt.value, body.inventory)
  {
    hide Reported, Shows, Keeps, OnlyAgent;
    var row := EnrolledRow(db.agents, agent, key, body, now);
    ShownAfter(db, agent, row, body.inventory, body.collectedAt.value);
    if agent in db.agents {
      assert HasFingerprint(db.agents, agent, body.fingerprint);
    }
  }

  lemma RevokeMeans(db: Db, agent: AgentId)
    requires agent in db.agents
    ensures Perform(db, Revoke(agent)) == db.(agents := db.agents[agent := db.agents[agent].(revoked := true)])
  {
  }

  // ---------------------------------------------------------------------------------------------
  // The inbox
  // ---------------------------------------------------------------------------------------------

  /** A device can be linked to a live asset that no other agent has, whatever its item says. */
  lemma LinkMeans(db: Db, agent: AgentId, asset: AssetId, note: Option<string>, actor: UserId)
    requires agent in db.inbox && agent in db.agents
    ensures Enabled(db, Link(agent, asset, note, actor)) <==>
      && asset in db.assets && !db.assets[asset].deleted
      && forall other | other in db.agents && db.agents[other].linkedAsset == Some(asset) :: other == agent
    ensures Enabled(db, Link(agent, asset, note, actor)) ==>
      var after := Perform(db, Link(agent, asset, note, actor));
      && OnlyAgent(db, after, agent)
      && after.agents[agent] == db.agents[agent].(linkedAsset := Some(asset))
      && after.inbox[agent] == Item(Linked, None, Some(asset), 100, false, note, Some(actor))
  {
  }

  /** An ignored item forgets its asset, suggested or resolved, but neither the agent's link nor the confidence. */
  lemma IgnoreMeans(db: Db, agent: AgentId, reason: string, actor: UserId)
    requires agent in db.inbox
    ensures var after, before := Perform(db, Ignore(agent, reason, actor)), db.inbox[agent];
      && after.agents == db.agents && after.assets == db.assets && after.inbox.Keys == db.inbox.Keys
      && (forall other | other in db.inbox && other != agent :: after.inbox[other] == db.inbox[other])
      && after.inbox[agent] ==
         Item(Ignored, None, None, before.confidence, before.conflict, Some(Trim(reason)), Some(actor))
  {
  }

  /** Reopening decides again by the newest snapshot, and only for an agent without a link. */
  lemma ReopenMeans(db: Db, agent: AgentId, newest: Time)
    requires agent in db.inbox && agent in db.agents
    requires newest in db.agents[agent].snapshots && forall t | t in db.agents[agent].snapshots :: t <= newest
    ensures Enabled(db, Reopen(agent)) <==> db.agents[agent].linkedAsset == None
    ensures Enabled(db, Reopen(agent)) ==>
      var after := Perform(db, Reopen(agent));
      && OnlyAgent(db, after, agent) && after.agents == db.agents
      && Shows(db, None, after.inbox[agent], db.agents[agent].snapshots[newest])
  {
    hide LatestInventory, Shows, OnlyAgent, Reconciled;
    LatestMeans(db.agents[agent].snapshots);
    ShownItem(db, agent, db.agents[agent].snapshots[newest]);
  }

  // ---------------------------------------------------------------------------------------------
  // A new asset
  // ---------------------------------------------------------------------------------------------

  /** The first interface with a hardware address, none before it. */
  predicate FirstAt(interfaces: seq<F.Interface>, k: nat) {
    && k < |interfaces| && interfaces[k].mac != ""
    && forall j | 0 <= j < k :: interfaces[j].mac == ""
  }

  lemma {:induction false} PrimaryIs(interfaces: seq<F.Interface>, k: nat)
    requires FirstAt(interfaces, k)
    ensures Primary(interfaces) == Some(interfaces[k])
  {
    if k > 0 {
      PrimaryIs(interfaces[1..], k - 1);
    }
  }

  lemma {:induction false} NoPrimary(interfaces: seq<F.Interface>)
    requires forall j | 0 <= j < |interfaces| :: interfaces[j].mac == ""
    ensures Primary(interfaces) == None
  {
    if interfaces != [] {
      NoPrimary(interfaces[1..]);
    }
  }

  lemma {:induction false} FirstOrNone(interfaces: seq<F.Interface>, n: nat)
    requires n <= |interfaces|
    ensures (exists k: nat | k < n :: FirstAt(interfaces, k)) || forall j | 0 <= j < n :: interfaces[j].mac == ""
  {
    if n > 0 {
      FirstOrNone(interfaces, n - 1);
      if (forall j | 0 <= j < n - 1 :: interfaces[j].mac == "") && interfaces[n - 1].mac != "" {
        assert FirstAt(interfaces, n - 1);
      }
    }
  }

  /** The identifiers of a new asset: those of the device without placeholders, and its first hardware address. */
  lemma RowMeans(inventory: Inventory, assetTag: string, barcode: string)
    ensures var row, device := NewAsset(inventory, assetTag, barcode), inventory.device;
      && row.assetTag == Trim(assetTag) && row.barcode == Trim(barcode) && !row.deleted
      && row.systemUuid == (var id := L.Reported(device.systemUuid); if id == "" then None else Some(id))
      && row.serialNumber == (var id := L.Reported(device.serialNumber); if id == "" then None else Some(id))
      && (row.mac == None <==> forall j | 0 <= j < |device.interfaces| :: device.interfaces[j].mac == "")
      && (forall k: nat | FirstAt(device.interfaces, k) :: row.mac == Some(Trim(device.interfaces[k].mac)))
  {
    var device := inventory.device;
    L.ReportedIsSanitized(device.systemUuid);
    L.ReportedIsSanitized(device.serialNumber);
    hide F.Sanitize, L.Reported, Trim;
    FirstOrNone(device.interfaces, |device.interfaces|);
    if k: nat :| k < |device.interfaces| && FirstAt(device.interfaces, k) {
      PrimaryIs(device.interfaces, k);
    } else {
      NoPrimary(device.interfaces);
    }
    forall k: nat | FirstAt(device.interfaces, k)
      ensures Primary(device.interfaces) == Some(device.interfaces[k])
    {
      PrimaryIs(device.interfaces, k);
    }
  }

  /** The address of the first interface with a hardware address, up to the slash. */
  lemma AddressMeans(interfaces: seq<F.Interface>, k: nat, address: string, prefix: string)
    requires FirstAt(interfaces, k) && '/' !in address
    ensures interfaces[k].addresses == [] ==> FirstAddress(interfaces) == None
    ensures interfaces[k].addresses != [] && interfaces[k].addresses[0] == address ==>
      FirstAddress(interfaces) == Some(address)
    ensures interfaces[k].addresses != [] && interfaces[k].addresses[0] == address + "/" + prefix ==>
      FirstAddress(interfaces) == Some(address)
  {
    PrimaryIs(interfaces, k);
    SplitNone(address, '/');
    SplitFirst(address, prefix, '/');
    hide Primary, Split;
  }

  /** A disk is shown by its model, or by its name when there is none, with its size in gigabytes when that is known. */
  lemma DiskMeans(disk: Disk)
    ensures disk.size == 0 ==>
      DiskText(disk) ==
        Trim((if disk.model == None || disk.model == Some("") then disk.name else disk.model.value) + " ")
    ensures disk.size > 0 ==>
      DiskText(disk) ==
      Trim((if disk.model == None || disk.model == Some("") then disk.name else disk.model.value) + " " +
           Numeral(Gigabytes(disk.size)) + " GB")
    ensures 2 * disk.size < 2_147_483_648 * Gigabytes(disk.size) + 1_073_741_824
    ensures 2_147_483_648 * Gigabytes(disk.size) - 1_073_741_824 <= 2 * disk.size
  {
    hide Trim, Numeral;
    var shown := if disk.model == None || disk.model == Some("") then disk.name else disk.model.value;
    assert shown + " " + (Numeral(Gigabytes(disk.size)) + " GB") == shown + " " + Numeral(Gigabytes(disk.size)) + " GB";
    assert shown + " " + "" == shown + " ";
  }

  lemma SystemMeans(inventory: Inventory)
    ensures inventory.osVersion == None || inventory.osVersion == Some("") ==> SystemText(inventory) == inventory.osName
    ensures inventory.osVersion.Some? && inventory.osVersion != Some("") ==>
      SystemText(inventory) ==
      if inventory.osName == "" then inventory.osVersion.value else inventory.osName + " " + inventory.osVersion.value
  {
    var version := F.OrEmpty(inventory.osVersion);
    assert [inventory.osName, version][1..] == [version];
    assert F.NonEmpty([version]) == if version == "" then [] else [version];
    if inventory.osName != "" && version != "" {
      assert [inventory.osName, version][1..] == [version];
      assert Join([inventory.osName, version], " ") == inventory.osName + " " + Join([version], " ");
    }
  }

  /** When a device that is not yet handled becomes an asset: its texts fit their columns, and no asset, live or
      deleted, has its tag, barcode, system id or serial number. */
  lemma CreateMeans(db: Db, step: Step, newest: Time)
    requires step.CreateAsset? && step.agent in db.inbox && step.agent in db.agents && step.asset !in db.assets
    requires newest in db.agents[step.agent].snapshots && forall t | t in db.agents[step.agent].snapshots :: t <= newest
    ensures var inventory := db.agents[step.agent].snapshots[newest];
      var row := NewAsset(inventory, step.assetTag, step.barcode);
      Enabled(db, step) <==>
        && db.inbox[step.agent].status != Linked && db.inbox[step.agent].status != Created
        && db.inbox[step.agent].status != Ignored && step.catalogueOk
        && |row.assetTag| <= 100 && '\0' !in row.assetTag && |row.barcode| <= 150 && '\0' !in row.barcode
        && (row.systemUuid.Some? ==> |row.systemUuid.value| <= 100 && '\0' !in row.systemUuid.value)
        && (row.serialNumber.Some? ==> |row.serialNumber.value| <= 150 && '\0' !in row.serialNumber.value)
        && (row.mac.Some? ==> |row.mac.value| <= 64 && '\0' !in row.mac.value)
        && OthersFit(inventory)
        && forall other | other in db.assets ::
             && db.assets[other].assetTag != row.assetTag && db.assets[other].barcode != row.barcode
             && (row.systemUuid == None || db.assets[other].systemUuid != row.systemUuid)
             && (row.serialNumber == None || db.assets[other].serialNumber != row.serialNumber)
    ensures Enabled(db, step) ==>
      var after, row := Perform(db, step),
        NewAsset(db.agents[step.agent].snapshots[newest], step.assetTag, step.barcode);
      && OnlyAgent(db, after.(assets := db.assets), step.agent)
      && after.assets == db.assets[step.asset := row]
      && after.agents[step.agent] == db.agents[step.agent].(linkedAsset := Some(step.asset))
      && after.inbox[step.agent] == Item(Created, None, Some(step.asset), 100, false, step.note, Some(step.actor))
  {
    hide LatestInventory, FirstAddress, DiskTexts, SystemText, NewAsset, Trim, Join;
    LatestMeans(db.agents[step.agent].snapshots);
    UndecidedMeans(db.inbox[step.agent].status);
  }

  lemma UndecidedMeans(status: Status)
    ensures Undecided(status) <==> status != Linked && status != Created && status != Ignored
  {
    assert status.Pending? || status.Matched? || status.Conflict? || status.Linked? || status.Created?
      || status.Ignored?;
  }

  /** The texts of a new asset beside its keys. */
  predicate OthersFit(inventory: Inventory) {
    var address, disks := FirstAddress(inventory.device.interfaces), Join(DiskTexts(inventory.disks), "; ");
    && (address.Some? ==> |address.value| <= 64 && '\0' !in address.value)
    && (inventory.cpuModel.Some? ==>
          |Trim(inventory.cpuModel.value)| <= 200 && '\0' !in Trim(inventory.cpuModel.value))
    && |disks| <= 200 && '\0' !in disks && |SystemText(inventory)| <= 200 && '\0' !in SystemText(inventory)
  }
}
