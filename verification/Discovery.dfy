/** Matching discovered devices with the asset register: agents, the discovery inbox, and the links between agents and
    assets (apps/api/src/modules/discovery/discovery.rules.ts and discovery.service.ts). */
module Discovery {
  import opened Common
  import opened Decimal
  import opened Text
  import F = Fingerprint

  type AgentId = string
  type AssetId = string
  type UserId = string
  type Time = nat

  // ---------------------------------------------------------------------------------------------
  // Tables
  // ---------------------------------------------------------------------------------------------

  datatype Asset = Asset(assetTag: string, barcode: string, systemUuid: Option<string>, serialNumber: Option<string>,
                         mac: Option<string>, deleted: bool)

  datatype Disk = Disk(name: string, model: Option<string>, size: nat)

  /** What an agent reports of its device. */
  datatype Inventory = Inventory(device: F.Device, cpuModel: Option<string>, disks: seq<Disk>, osName: string,
                                 osVersion: Option<string>)

  /** `key` is the name the agent was given when it enrolled; snapshots are unique by the time they were collected. */
  datatype Agent = Agent(fingerprint: string, key: string, linkedAsset: Option<AssetId>, revoked: bool, lastSeen: Time,
                         snapshots: map<Time, Inventory>)

  datatype Status = Pending | Matched | Conflict | Linked | Created | Ignored

  /** `conflict` tells whether a conflict reason is stored. */
  datatype Item = Item(status: Status, suggested: Option<AssetId>, resolved: Option<AssetId>, confidence: nat,
                       conflict: bool, note: Option<string>, resolvedBy: Option<UserId>)

  /** What a reconciliation looked at. */
  datatype Sighting = Sighting(assets: map<AssetId, Asset>, evidence: Evidence)

  /** The inbox is keyed by agent, which is a unique column. `seen` is the latest sighting of each unlinked agent; the
      service does not store it. */
  datatype Db = Db(assets: map<AssetId, Asset>, agents: map<AgentId, Agent>, inbox: map<AgentId, Item>,
                   seen: map<AgentId, Sighting>)

  datatype Error = ItemNotFound | AssetNotFound | AssetOccupied | StillLinked | NoSnapshot | AlreadyHandled
                 | BadCatalogue | IdentityExists | AgentUnknown | BadFingerprint | BadTime | TooFast
                 | DoesNotFit

  type Result = Outcome<Error>

  // ---------------------------------------------------------------------------------------------
  // Rules
  // ---------------------------------------------------------------------------------------------

  datatype Evidence = Evidence(systemUuid: Option<string>, serial: Option<string>, mac: Option<string>)

  datatype Candidate = Candidate(id: AssetId, asset: Asset)

  datatype Decision = Decision(status: Status, suggested: Option<AssetId>, confidence: nat, conflict: bool)

  const NOTHING := Decision(Pending, None, 0, false)
  const AMBIGUOUS := Decision(Conflict, None, 0, true)

  function NonEmpty(text: string): Option<string> {
    if text == "" then None else Some(text)
  }

  function PrimaryMac(interfaces: seq<F.Interface>): Option<string> {
    if interfaces == [] then None
    else
      var mac := Upper(Trim(interfaces[0].mac));
      if mac != "" then Some(mac) else PrimaryMac(interfaces[1..])
  }

  function EvidenceOf(inventory: Inventory): Evidence {
    var device := inventory.device;
    Evidence(NonEmpty(F.Sanitize(device.systemUuid)), NonEmpty(F.Sanitize(device.serialNumber)),
             PrimaryMac(device.interfaces))
  }

  /** Equal as normalize sees them; a missing value normalizes to the empty text. */
  predicate Agrees(value: Option<string>, wanted: Option<string>) {
    wanted.Some? && wanted.value != ""
      && F.Normalize(if value.Some? then value.value else "") == F.Normalize(wanted.value)
  }

  function Confidence(asset: Asset, evidence: Evidence): nat {
    if Agrees(asset.systemUuid, evidence.systemUuid) then 99
    else if Agrees(asset.serialNumber, evidence.serial) then 95
    else 80
  }

  function ClassifyCandidates(candidates: seq<Candidate>, evidence: Evidence): Decision {
    if |candidates| == 0 then NOTHING
    else if |candidates| > 1 then AMBIGUOUS
    else Decision(Matched, Some(candidates[0].id), Confidence(candidates[0].asset, evidence), false)
  }

  /** Equal as the case-insensitive query sees them. */
  predicate Equals(value: Option<string>, wanted: Option<string>) {
    value.Some? && wanted.Some? && Lower(value.value) == Lower(wanted.value)
  }

  predicate Matches(asset: Asset, evidence: Evidence) {
    || Equals(asset.systemUuid, evidence.systemUuid)
    || Equals(asset.serialNumber, evidence.serial)
    || Equals(asset.mac, evidence.mac)
  }

  /** All live assets the evidence points at; the service fetches at most five of them. */
  function Candidates(assets: map<AssetId, Asset>, evidence: Evidence): set<AssetId> {
    set id | id in assets && !assets[id].deleted && Matches(assets[id], evidence)
  }

  predicate Single(ids: set<AssetId>, id: AssetId) {
    id in ids && forall other | other in ids :: other == id
  }

  /** The decision over all candidates: the only one, or none. */
  ghost function Decide(assets: map<AssetId, Asset>, evidence: Evidence): Decision {
    var ids := Candidates(assets, evidence);
    if ids == {} then NOTHING
    else if exists id | id in ids :: Single(ids, id) then
      var id :| id in ids && Single(ids, id); Decision(Matched, Some(id), Confidence(assets[id], evidence), false)
    else AMBIGUOUS
  }

  predicate FiveOf(rows: seq<Candidate>, assets: map<AssetId, Asset>, ids: set<AssetId>) {
    && |rows| == (if |ids| < 5 then |ids| else 5)
    && (forall i | 0 <= i < |rows| :: rows[i].id in ids && rows[i].id in assets && rows[i].asset == assets[rows[i].id])
    && (forall i, j | 0 <= i < j < |rows| :: rows[i].id != rows[j].id)
  }

  predicate Fetched(rows: seq<Candidate>, id: AssetId) {
    exists i :: 0 <= i < |rows| && rows[i].id == id
  }

  lemma FetchedNext(rows: seq<Candidate>, row: Candidate)
    ensures Fetched(rows + [row], row.id)
    ensures forall id | Fetched(rows, id) :: Fetched(rows + [row], id)
  {
    var longer := rows + [row];
    assert longer[|rows|] == row;
    forall id | Fetched(rows, id) ensures Fetched(longer, id) {
      var i :| 0 <= i < |rows| && rows[i].id == id;
      assert longer[i].id == id;
    }
  }

  /** Five rows, in any order, are enough to decide as if all candidates had been fetched. */
  lemma FiveRowsDecide(rows: seq<Candidate>, assets: map<AssetId, Asset>, evidence: Evidence)
    requires FiveOf(rows, assets, Candidates(assets, evidence))
    ensures ClassifyCandidates(rows, evidence) == Decide(assets, evidence)
  {
    hide Matches, Confidence;
    var ids := Candidates(assets, evidence);
    if |rows| == 1 {
      OnlyMember(ids, rows[0].id);
    } else if |rows| > 1 {
      assert rows[0].id != rows[1].id && rows[0].id in ids && rows[1].id in ids;
    }
  }

  lemma OnlyMember(ids: set<AssetId>, id: AssetId)
    requires |ids| == 1 && id in ids
    ensures Single(ids, id) && forall other | Single(ids, other) :: other == id
  {
    assert |ids - {id}| == 0;
    forall other | other in ids
      ensures other == id
    {
      assert other in {id} || other in ids - {id};
    }
  }

  /** Letters that differ only in case differ only in case after trimming. */
  lemma {:induction false} TrimStartOfLower(s: string)
    ensures TrimStart(Lower(s)) == Lower(TrimStart(s))
  {
    if s != "" && IsSpace(s[0]) {
      assert Lower(s)[1..] == Lower(s[1..]);
      TrimStartOfLower(s[1..]);
    }
  }

  lemma {:induction false} TrimEndOfLower(s: string)
    ensures TrimEnd(Lower(s)) == Lower(TrimEnd(s))
  {
    if s != "" && IsSpace(s[|s| - 1]) {
      assert Lower(s)[..|s| - 1] == Lower(s[..|s| - 1]);
      TrimEndOfLower(s[..|s| - 1]);
    }
  }

  lemma EqualsAgrees(value: Option<string>, wanted: Option<string>)
    requires Equals(value, wanted) && wanted.value != ""
    ensures Agrees(value, wanted)
  {
    TrimStartOfLower(value.value);
    TrimStartOfLower(wanted.value);
    TrimEndOfLower(TrimStart(value.value));
    TrimEndOfLower(TrimStart(wanted.value));
  }

  predicate NoEmptyText(evidence: Evidence) {
    evidence.systemUuid != Some("") && evidence.serial != Some("") && evidence.mac != Some("")
  }

  lemma {:induction false} PrimaryMacIsNotEmpty(interfaces: seq<F.Interface>)
    ensures PrimaryMac(interfaces) != Some("")
  {
    if interfaces != [] {
      PrimaryMacIsNotEmpty(interfaces[1..]);
    }
  }

  lemma EvidenceIsNotEmpty(inventory: Inventory)
    ensures NoEmptyText(EvidenceOf(inventory))
  {
    PrimaryMacIsNotEmpty(inventory.device.interfaces);
  }

  /** What a decision says of the register it was made on. */
  lemma DecisionMeaning(assets: map<AssetId, Asset>, evidence: Evidence)
    requires NoEmptyText(evidence)
    ensures var d := Decide(assets, evidence); var ids := Candidates(assets, evidence);
      && (d.status == Pending <==> ids == {})
      && (d.status == Conflict <==> exists a, b | a in ids && b in ids :: a != b)
      && (d.status == Matched <==> exists id | id in ids :: Single(ids, id))
      && (d.suggested.Some? ==> Single(ids, d.suggested.value))
      && (d.status == Matched <==> d.suggested.Some?)
      && (d.conflict <==> d.status == Conflict)
    ensures var d := Decide(assets, evidence); d.status == Matched ==>
      && d.suggested.value in assets && !assets[d.suggested.value].deleted
      && (d.confidence == 99 <==> Agrees(assets[d.suggested.value].systemUuid, evidence.systemUuid))
      && (d.confidence == 95 ==> Agrees(assets[d.suggested.value].serialNumber, evidence.serial))
      && (d.confidence == 80 ==> Equals(assets[d.suggested.value].mac, evidence.mac))
      && d.confidence in {80, 95, 99}
  {
    var d, ids := Decide(assets, evidence), Candidates(assets, evidence);
    if d.status == Matched {
      var asset := assets[d.suggested.value];
      assert Matches(asset, evidence);
      if Equals(asset.systemUuid, evidence.systemUuid) {
        EqualsAgrees(asset.systemUuid, evidence.systemUuid);
      } else if Equals(asset.serialNumber, evidence.serial) {
        EqualsAgrees(asset.serialNumber, evidence.serial);
      }
    }
    hide Matches, Confidence, Agrees, Equals;
    if d.status == Conflict {
      var a :| a in ids;
      assert !Single(ids, a);
    }
  }

  // ---------------------------------------------------------------------------------------------
  // The steps
  // ---------------------------------------------------------------------------------------------

  /** An inventory as it arrives, with the fingerprint posted with it; `digest` is the hash of F.HashInput(device), and
      `collectedAt` is None when the text is no date after 1970. */
  datatype Body = Body(inventory: Inventory, fingerprint: string, digest: string, collectedAt: Option<Time>)

  predicate FingerprintOk(body: Body) {
    body.digest == Lower(body.fingerprint)
  }

  predicate HasFingerprint(agents: map<AgentId, Agent>, id: AgentId, fingerprint: string) {
    id in agents && agents[id].fingerprint == fingerprint
  }

  predicate Known(agents: map<AgentId, Agent>, fingerprint: string) {
    exists id | id in agents :: HasFingerprint(agents, id, fingerprint)
  }

  /** The unique column of the agents. */
  ghost predicate FingerprintsApart(agents: map<AgentId, Agent>) {
    forall a, b | a in agents && b in agents && agents[a].fingerprint == agents[b].fingerprint :: a == b
  }

  const RATE_LIMIT := 15_000
  const MAX_AHEAD := 10 * 60_000
  const MAX_AGE := 30 * 86_400_000

  predicate InWindow(collectedAt: Option<Time>, now: Time) {
    collectedAt.Some? && now - MAX_AGE <= collectedAt.value <= now + MAX_AHEAD
  }

  datatype Step =
    | Enroll(agent: AgentId, key: string, body: Body, now: Time)
    | Ingest(agent: AgentId, key: string, body: Body, now: Time)
    | Revoke(agent: AgentId)
    | Link(agent: AgentId, asset: AssetId, note: Option<string>, actor: UserId)
    | Ignore(agent: AgentId, reason: string, actor: UserId)
    | Reopen(agent: AgentId)
    | CreateAsset(agent: AgentId, asset: AssetId, assetTag: string, barcode: string, catalogueOk: bool,
                  note: Option<string>, actor: UserId)
    /** Any other module writing one asset. */
    | Elsewhere(asset: AssetId, row: Asset)

  predicate IsLatest(snapshots: map<Time, Inventory>, t: Time) {
    t in snapshots && forall other | other in snapshots :: other <= t
  }

  /** The device as the newest snapshot has it. */
  ghost function LatestInventory(snapshots: map<Time, Inventory>): Option<Inventory> {
    if exists t :: IsLatest(snapshots, t) then var t :| IsLatest(snapshots, t); Some(snapshots[t]) else None
  }

  predicate Undecided(status: Status) {
    status in {Pending, Matched, Conflict}
  }

  predicate Occupied(agents: map<AgentId, Agent>, asset: AssetId, agent: AgentId) {
    exists other | other in agents && other != agent :: agents[other].linkedAsset == Some(asset)
  }

  /** The first interface with a hardware address. */
  function Primary(interfaces: seq<F.Interface>): Option<F.Interface> {
    if interfaces == [] then None
    else if interfaces[0].mac != "" then Some(interfaces[0])
    else Primary(interfaces[1..])
  }

  function FirstMac(interfaces: seq<F.Interface>): Option<string> {
    var primary := Primary(interfaces);
    if primary.Some? then Some(Trim(primary.value.mac)) else None
  }

  /** Its first IP address, without the prefix length. */
  function FirstAddress(interfaces: seq<F.Interface>): Option<string> {
    var primary := Primary(interfaces);
    if primary.Some? && primary.value.addresses != [] then Some(Split(primary.value.addresses[0], '/')[0]) else None
  }

  const GIGABYTE := 0x4000_0000

  /** A size in gigabytes, rounded to the nearest number, halves up. */
  function Gigabytes(size: nat): nat {
    (2 * size + GIGABYTE) / (2 * GIGABYTE)
  }

  function DiskText(disk: Disk): string {
    var shown := if disk.model.Some? && disk.model.value != "" then disk.model.value else disk.name;
    Trim(shown + " " + (if disk.size == 0 then "" else Numeral(Gigabytes(disk.size)) + " GB"))
  }

  function DiskTexts(disks: seq<Disk>): seq<string> {
    seq(|disks|, i requires 0 <= i < |disks| => DiskText(disks[i]))
  }

  function SystemText(inventory: Inventory): string {
    Join(F.NonEmpty([inventory.osName, F.OrEmpty(inventory.osVersion)]), " ")
  }

  /** The texts of a new asset fit their columns; the agent's have only been measured for longer ones. */
  predicate AssetFits(inventory: Inventory, row: Asset) {
    && Takes(100, row.assetTag) && Takes(150, row.barcode)
    && TakesOptional(100, row.systemUuid) && TakesOptional(150, row.serialNumber) && TakesOptional(64, row.mac)
    && TakesOptional(64, FirstAddress(inventory.device.interfaces))
    && (inventory.cpuModel.Some? ==> Takes(200, Trim(inventory.cpuModel.value)))
    && Takes(200, Join(DiskTexts(inventory.disks), "; "))
    && Takes(200, SystemText(inventory))
  }

  function NewAsset(inventory: Inventory, assetTag: string, barcode: string): Asset {
    Asset(Trim(assetTag), Trim(barcode), NonEmpty(F.Sanitize(inventory.device.systemUuid)),
          NonEmpty(F.Sanitize(inventory.device.serialNumber)), FirstMac(inventory.device.interfaces), false)
  }

  /** The unique columns of the register refuse a row. */
  predicate Collides(assets: map<AssetId, Asset>, row: Asset) {
    exists other | other in assets ::
      || assets[other].assetTag == row.assetTag || assets[other].barcode == row.barcode
      || (row.systemUuid.Some? && assets[other].systemUuid == row.systemUuid)
      || (row.serialNumber.Some? && assets[other].serialNumber == row.serialNumber)
  }

  ghost predicate Enabled(db: Db, step: Step) {
    match step
    case Enroll(agent, _, body, now) =>
      && FingerprintOk(body) && InWindow(body.collectedAt, now)
      && (if Known(db.agents, body.fingerprint)
          then HasFingerprint(db.agents, agent, body.fingerprint) && db.agents[agent].revoked
          else agent !in db.agents)
    case Ingest(agent, key, body, now) =>
      && FingerprintOk(body) && InWindow(body.collectedAt, now)
      && agent in db.agents && !db.agents[agent].revoked && db.agents[agent].key == key
      && db.agents[agent].lastSeen + RATE_LIMIT <= now
    case Revoke(agent) => agent in db.agents
    case Link(agent, asset, _, _) =>
      && agent in db.inbox && agent in db.agents
      && asset in db.assets && !db.assets[asset].deleted && !Occupied(db.agents, asset, agent)
    case Ignore(agent, _, _) => agent in db.inbox
    case Reopen(agent) =>
      && agent in db.inbox && agent in db.agents
      && db.agents[agent].linkedAsset.None? && LatestInventory(db.agents[agent].snapshots).Some?
    case CreateAsset(agent, asset, assetTag, barcode, catalogueOk, _, _) =>
      && agent in db.inbox && agent in db.agents && Undecided(db.inbox[agent].status) && catalogueOk
      && asset !in db.assets
      && var inventory := LatestInventory(db.agents[agent].snapshots);
         inventory.Some?
         && AssetFits(inventory.value, NewAsset(inventory.value, assetTag, barcode))
         && !Collides(db.assets, NewAsset(inventory.value, assetTag, barcode))
    case Elsewhere(_, _) => true
  }

  /** The inbox item after a reconciliation; an item of a linked agent keeps its note. */
  ghost function ReconciledItem(db: Db, agent: AgentId, evidence: Evidence): Item
    requires agent in db.agents
  {
    var linked := db.agents[agent].linkedAsset;
    if linked.Some? then
      if agent in db.inbox
      then db.inbox[agent].(status := Linked, suggested := None, resolved := linked, confidence := 100,
                            conflict := false)
      else Item(Linked, None, linked, 100, false, None, None)
    else
      var d := Decide(db.assets, evidence);
      Item(d.status, d.suggested, None, d.confidence, d.conflict, None, None)
  }

  ghost function Reconciled(db: Db, agent: AgentId, evidence: Evidence): Db
    requires agent in db.agents
  {
    db.(inbox := db.inbox[agent := ReconciledItem(db, agent, evidence)],
        seen := if db.agents[agent].linkedAsset.Some? then db.seen else db.seen[agent := Sighting(db.assets, evidence)])
  }

  /** The first snapshot of a moment is kept. */
  function WithSnapshot(agent: Agent, collectedAt: Time, inventory: Inventory): Agent {
    if collectedAt in agent.snapshots then agent else agent.(snapshots := agent.snapshots[collectedAt := inventory])
  }

  ghost function Reported(db: Db, agent: AgentId, row: Agent, inventory: Inventory, collectedAt: Time): Db {
    Reconciled(db.(agents := db.agents[agent := WithSnapshot(row, collectedAt, inventory)]), agent,
               EvidenceOf(inventory))
  }

  function EnrolledRow(agents: map<AgentId, Agent>, agent: AgentId, key: string, body: Body, now: Time): Agent {
    if agent in agents then agents[agent].(key := key, lastSeen := now, revoked := false)
    else Agent(body.fingerprint, key, None, false, now, map[])
  }

  ghost function Apply(db: Db, step: Step): Db
    requires Enabled(db, step)
  {
    match step
    case Enroll(agent, key, body, now) =>
      Reported(db, agent, EnrolledRow(db.agents, agent, key, body, now), body.inventory, body.collectedAt.value)
    case Ingest(agent, _, body, now) =>
      Reported(db, agent, db.agents[agent].(lastSeen := now), body.inventory, body.collectedAt.value)
    case Revoke(agent) => db.(agents := db.agents[agent := db.agents[agent].(revoked := true)])
    case Link(agent, asset, note, actor) =>
      db.(agents := db.agents[agent := db.agents[agent].(linkedAsset := Some(asset))],
          inbox := db.inbox[agent := Item(Linked, None, Some(asset), 100, false, note, Some(actor))])
    case Ignore(agent, reason, actor) =>
      db.(inbox := db.inbox[agent := db.inbox[agent].(status := Ignored, suggested := None, resolved := None,
                                                      note := Some(Trim(reason)), resolvedBy := Some(actor))])
    case Reopen(agent) => Reconciled(db, agent, EvidenceOf(LatestInventory(db.agents[agent].snapshots).value))
    case CreateAsset(agent, asset, assetTag, barcode, _, note, actor) =>
      var row := NewAsset(LatestInventory(db.agents[agent].snapshots).value, assetTag, barcode);
      db.(assets := db.assets[asset := row],
          agents := db.agents[agent := db.agents[agent].(linkedAsset := Some(asset))],
          inbox := db.inbox[agent := Item(Created, None, Some(asset), 100, false, note, Some(actor))])
    case Elsewhere(asset, row) => db.(assets := db.assets[asset := row])
  }

  /** A step commits or changes nothing. */
  ghost function Perform(db: Db, step: Step): Db {
    if Enabled(db, step) then Apply(db, step) else db
  }

  /** Writing a row twice leaves the second. */
  ghost predicate SameAgents(agents: map<AgentId, Agent>, agent: AgentId, first: Agent, second: Agent) {
    agents[agent := first][agent := second] == agents[agent := second]
  }

  // ---------------------------------------------------------------------------------------------
  // The service
  // ---------------------------------------------------------------------------------------------

  class DiscoveryService {
    var assets: map<AssetId, Asset>
    var agents: map<AgentId, Agent>
    var inbox: map<AgentId, Item>
    ghost var seen: map<AgentId, Sighting>

    ghost function View(): Db
      reads this
    {
      Db(assets, agents, inbox, seen)
    }

    constructor (assets: map<AssetId, Asset>)
      ensures View() == Db(assets, map[], map[], map[])
    {
      this.assets := assets;
      this.agents, this.inbox, this.seen := map[], map[], map[];
    }

    /** At most five rows of the matching assets, in the order the database happens to return them. */
    method FindCandidates(evidence: Evidence) returns (rows: seq<Candidate>)
      ensures FiveOf(rows, assets, Candidates(assets, evidence))
      ensures |rows| <= 5
      ensures |rows| < 5 ==> forall id | id in assets && !assets[id].deleted && Matches(assets[id], evidence) ::
        Fetched(rows, id)
    {
      var ids := Candidates(assets, evidence);
      hide Candidates;
      var rest := ids;
      rows := [];
      CandidatesAreStored(assets, evidence);
      hide Matches;
      while |rows| < 5 && rest != {}
        invariant rest <= ids && |rows| + |rest| == |ids| && |rows| <= 5
        invariant forall i | 0 <= i < |rows| :: rows[i].id in ids && rows[i].id !in rest
        invariant forall i | 0 <= i < |rows| :: rows[i].id in assets && rows[i].asset == assets[rows[i].id]
        invariant forall i, j | 0 <= i < j < |rows| :: rows[i].id != rows[j].id
        invariant forall id | id in ids && id !in rest :: Fetched(rows, id)
      {
        var id :| id in rest;
        rest := rest - {id};
        FetchedNext(rows, Candidate(id, assets[id]));
        rows := rows + [Candidate(id, assets[id])];
      }
    }

    method Reconcile(agent: AgentId, evidence: Evidence)
      requires agent in agents
      modifies this`inbox, this`seen
      ensures View() == Reconciled(old(View()), agent, evidence)
    {
      hide Candidates, Decide, FiveOf;
      var linked := agents[agent].linkedAsset;
      if linked.Some? {
        var item := if agent in inbox then inbox[agent] else Item(Linked, None, None, 0, false, None, None);
        inbox := inbox[agent :=
          item.(status := Linked, suggested := None, resolved := linked, confidence := 100, conflict := false)];
        return;
      }
      var candidates := FindCandidates(evidence);
      FiveRowsDecide(candidates, assets, evidence);
      var d := ClassifyCandidates(candidates, evidence);
      inbox := inbox[agent := Item(d.status, d.suggested, None, d.confidence, d.conflict, None, None)];
      seen := seen[agent := Sighting(assets, evidence)];
    }

    method StoreSnapshotAndReconcile(agent: AgentId, inventory: Inventory, collectedAt: Time)
      requires agent in agents
      modifies this`agents, this`inbox, this`seen
      ensures View() == Reported(old(View()), agent, old(agents)[agent], inventory, collectedAt)
    {
      agents := agents[agent := WithSnapshot(agents[agent], collectedAt, inventory)];
      Reconcile(agent, EvidenceOf(inventory));
    }

    method FindAgent(fingerprint: string) returns (found: Option<AgentId>)
      ensures found.None? <==> !Known(agents, fingerprint)
      ensures found.Some? ==> HasFingerprint(agents, found.value, fingerprint)
    {
      if id :| id in agents && HasFingerprint(agents, id, fingerprint) {
        found := Some(id);
      } else {
        found := None;
      }
    }

    /** An enrolment without its token, which Enrolment models. A device without an agent gets one under a new id. */
    method EnrollAgent(newId: AgentId, key: string, body: Body, now: Time) returns (r: Result, agent: AgentId)
      requires newId !in agents && FingerprintsApart(agents)
      modifies this
      ensures if Known(old(agents), body.fingerprint) then HasFingerprint(old(agents), agent, body.fingerprint)
        else agent == newId
      ensures r == Refused(BadFingerprint) <==> body.digest != Lower(body.fingerprint)
      ensures r == Refused(BadTime) <==> body.digest == Lower(body.fingerprint) && !InWindow(body.collectedAt, now)
      ensures r in {Done, Refused(BadFingerprint), Refused(BadTime), Refused(AlreadyHandled)}
      ensures r.Done? <==> Enabled(old(View()), Enroll(agent, key, body, now))
      ensures View() == Perform(old(View()), Enroll(agent, key, body, now))
    {
      hide Reconciled, FingerprintsApart, Known;
      var existing := FindAgent(body.fingerprint);
      agent := if existing.Some? then existing.value else newId;
      if !FingerprintOk(body) {
        return Refused(BadFingerprint), agent;
      }
      if !InWindow(body.collectedAt, now) {
        return Refused(BadTime), agent;
      }
      if agent in agents && !agents[agent].revoked {
        return Refused(AlreadyHandled), agent;
      }
      var row := EnrolledRow(agents, agent, key, body, now);
      ghost var before := View();
      agents := agents[agent := row];
      StoreSnapshotAndReconcile(agent, body.inventory, body.collectedAt.value);
      assert SameAgents(before.agents, agent, row, WithSnapshot(row, body.collectedAt.value, body.inventory));
      r := Done;
    }

    method IngestInventory(agent: AgentId, key: string, body: Body, now: Time) returns (r: Result)
      modifies this
      ensures r == Refused(BadFingerprint) <==> body.digest != Lower(body.fingerprint)
      ensures r == Refused(AgentUnknown) <==>
        && body.digest == Lower(body.fingerprint)
        && (agent !in old(agents) || old(agents)[agent].revoked || old(agents)[agent].key != key)
      ensures r == Refused(TooFast) ==> agent in old(agents) && now - old(agents)[agent].lastSeen < 15_000
      ensures r == Refused(BadTime) ==> !InWindow(body.collectedAt, now)
      ensures r in {Done, Refused(BadFingerprint), Refused(AgentUnknown), Refused(TooFast), Refused(BadTime)}
      ensures r.Done? <==> Enabled(old(View()), Ingest(agent, key, body, now))
      ensures View() == Perform(old(View()), Ingest(agent, key, body, now))
    {
      hide Reconciled;
      if !FingerprintOk(body) {
        return Refused(BadFingerprint);
      }
      if agent !in agents || agents[agent].revoked || agents[agent].key != key {
        return Refused(AgentUnknown);
      }
      if agents[agent].lastSeen > now - RATE_LIMIT {
        return Refused(TooFast);
      }
      if !InWindow(body.collectedAt, now) {
        return Refused(BadTime);
      }
      var row := agents[agent].(lastSeen := now);
      ghost var before := View();
      agents := agents[agent := row];
      StoreSnapshotAndReconcile(agent, body.inventory, body.collectedAt.value);
      assert SameAgents(before.agents, agent, row, WithSnapshot(row, body.collectedAt.value, body.inventory));
      r := Done;
    }

    method LinkAsset(agent: AgentId, asset: AssetId, note: Option<string>, actor: UserId) returns (r: Result)
      requires agent in inbox ==> agent in agents
      modifies this
      ensures r == Refused(ItemNotFound) <==> agent !in old(inbox)
      ensures r == Refused(AssetNotFound) <==>
        agent in old(inbox) && (asset !in old(assets) || old(assets)[asset].deleted)
      ensures r == Refused(AssetOccupied) ==>
        exists other :: other in old(agents) && other != agent && old(agents)[other].linkedAsset == Some(asset)
      ensures r in {Done, Refused(ItemNotFound), Refused(AssetNotFound), Refused(AssetOccupied)}
      ensures r.Done? <==> Enabled(old(View()), Link(agent, asset, note, actor))
      ensures View() == Perform(old(View()), Link(agent, asset, note, actor))
    {
      if agent !in inbox {
        return Refused(ItemNotFound);
      }
      if asset !in assets || assets[asset].deleted {
        return Refused(AssetNotFound);
      }
      if Occupied(agents, asset, agent) {
        return Refused(AssetOccupied);
      }
      agents := agents[agent := agents[agent].(linkedAsset := Some(asset))];
      inbox := inbox[agent := Item(Linked, None, Some(asset), 100, false, note, Some(actor))];
      r := Done;
    }

    method IgnoreDevice(agent: AgentId, reason: string, actor: UserId) returns (r: Result)
      modifies this
      ensures r == if agent in old(inbox) then Done else Refused(ItemNotFound)
      ensures r.Done? <==> Enabled(old(View()), Ignore(agent, reason, actor))
      ensures View() == Perform(old(View()), Ignore(agent, reason, actor))
    {
      if agent !in inbox {
        return Refused(ItemNotFound);
      }
      inbox := inbox[agent := inbox[agent].(status := Ignored, suggested := None, resolved := None,
                                            note := Some(Trim(reason)), resolvedBy := Some(actor))];
      r := Done;
    }

    method FindLatest(snapshots: map<Time, Inventory>) returns (inventory: Option<Inventory>)
      ensures inventory == LatestInventory(snapshots)
    {
      var rest := snapshots.Keys;
      if rest == {} {
        return None;
      }
      var latest :| latest in rest;
      rest := rest - {latest};
      while rest != {}
        invariant rest <= snapshots.Keys && latest in snapshots
        invariant forall t | t in snapshots && t !in rest :: t <= latest
        decreases |rest|
      {
        var t :| t in rest;
        rest := rest - {t};
        latest := if t > latest then t else latest;
      }
      assert IsLatest(snapshots, latest);
      inventory := Some(snapshots[latest]);
    }

    method ReopenDevice(agent: AgentId) returns (r: Result)
      requires agent in inbox ==> agent in agents
      modifies this
      ensures r == Refused(ItemNotFound) <==> agent !in old(inbox)
      ensures r == Refused(StillLinked) <==> agent in old(inbox) && old(agents)[agent].linkedAsset.Some?
      ensures r in {Done, Refused(ItemNotFound), Refused(StillLinked), Refused(NoSnapshot)}
      ensures r.Done? <==> Enabled(old(View()), Reopen(agent))
      ensures View() == Perform(old(View()), Reopen(agent))
    {
      hide Reconciled, LatestInventory;
      if agent !in inbox {
        return Refused(ItemNotFound);
      }
      if agents[agent].linkedAsset.Some? {
        return Refused(StillLinked);
      }
      var inventory := FindLatest(agents[agent].snapshots);
      if inventory.None? {
        return Refused(NoSnapshot);
      }
      Reconcile(agent, EvidenceOf(inventory.value));
      r := Done;
    }

    /** `asset` is the key the database generates; `catalogueOk` tells whether the READY status, warehouse and category
        are there. */
    method CreateAssetFromDevice(agent: AgentId, asset: AssetId, assetTag: string, barcode: string, catalogueOk: bool,
                                 note: Option<string>, actor: UserId) returns (r: Result)
      requires asset !in assets && (agent in inbox ==> agent in agents)
      modifies this
      ensures r == Refused(ItemNotFound) <==> agent !in old(inbox)
      ensures r == Refused(AlreadyHandled) <==>
        agent in old(inbox) && old(inbox)[agent].status !in {Pending, Matched, Conflict}
      ensures r == Refused(BadCatalogue) ==> !catalogueOk
      ensures r in {Done, Refused(ItemNotFound), Refused(AlreadyHandled), Refused(NoSnapshot), Refused(BadCatalogue),
                    Refused(DoesNotFit), Refused(IdentityExists)}
      ensures r.Done? <==> Enabled(old(View()), CreateAsset(agent, asset, assetTag, barcode, catalogueOk, note, actor))
      ensures View() == Perform(old(View()), CreateAsset(agent, asset, assetTag, barcode, catalogueOk, note, actor))
    {
      hide LatestInventory, Collides, NewAsset, AssetFits;
      if agent !in inbox {
        return Refused(ItemNotFound);
      }
      if !Undecided(inbox[agent].status) {
        return Refused(AlreadyHandled);
      }
      var inventory := FindLatest(agents[agent].snapshots);
      if inventory.None? {
        return Refused(NoSnapshot);
      }
      if !catalogueOk {
        return Refused(BadCatalogue);
      }
      var row := NewAsset(inventory.value, assetTag, barcode);
      if !AssetFits(inventory.value, row) {
        return Refused(DoesNotFit);
      }
      if Collides(assets, row) {
        return Refused(IdentityExists);
      }
      assets := assets[asset := row];
      agents := agents[agent := agents[agent].(linkedAsset := Some(asset))];
      inbox := inbox[agent := Item(Created, None, Some(asset), 100, false, note, Some(actor))];
      r := Done;
    }
  }

  lemma CandidatesAreStored(assets: map<AssetId, Asset>, evidence: Evidence)
    ensures forall id :: id in Candidates(assets, evidence) <==>
      id in assets && !assets[id].deleted && Matches(assets[id], evidence)
  {
  }
}
