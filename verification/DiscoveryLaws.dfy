/** What the inbox shows for a reported device, told by the fields of device and assets
    (apps/api/src/modules/discovery/discovery.rules.ts and discovery.service.ts). */
module DiscoveryLaws {
  import opened Common
  import opened Discovery
  import opened Text
  import F = Fingerprint
  import L = FingerprintLaws

  /** The same text in other letter case. */
  predicate SameLetters(value: Option<string>, text: string) {
    value.Some? && Lower(value.value) == Lower(text)
  }

  /** The identifier as it is reported: trimmed, and empty when it is a placeholder. */
  function Reported(value: string): string {
    if L.Placeholder(value) then "" else Trim(value)
  }

  predicate SameUuid(asset: Asset, device: F.Device) {
    Reported(device.systemUuid) != "" && SameLetters(asset.systemUuid, Reported(device.systemUuid))
  }

  predicate SameSerial(asset: Asset, device: F.Device) {
    Reported(device.serialNumber) != "" && SameLetters(asset.serialNumber, Reported(device.serialNumber))
  }

  /** Only the first hardware address that is not blank is compared. */
  predicate FirstAddressAt(device: F.Device, k: nat) {
    && k < |device.interfaces| && Trim(device.interfaces[k].mac) != ""
    && forall j | 0 <= j < k :: Trim(device.interfaces[j].mac) == ""
  }

  predicate SameMac(asset: Asset, device: F.Device) {
    exists k: nat | k < |device.interfaces| ::
      FirstAddressAt(device, k) && SameLetters(asset.mac, Trim(device.interfaces[k].mac))
  }

  /** The device may be this asset. */
  predicate MayBe(asset: Asset, device: F.Device) {
    !asset.deleted && (SameUuid(asset, device) || SameSerial(asset, device) || SameMac(asset, device))
  }

  lemma ReportedIsSanitized(value: string)
    ensures F.Sanitize(value) == Reported(value)
  {
    hide Trim;
  }

  lemma {:induction false} PrimaryMacIs(interfaces: seq<F.Interface>, k: nat)
    requires k < |interfaces| && Trim(interfaces[k].mac) != ""
    requires forall j | 0 <= j < k :: Trim(interfaces[j].mac) == ""
    ensures PrimaryMac(interfaces) == Some(Upper(Trim(interfaces[k].mac)))
  {
    UpperOfBlank(Trim(interfaces[0].mac));
    hide Trim;
    if k > 0 {
      PrimaryMacIs(interfaces[1..], k - 1);
    }
  }

  lemma UpperOfBlank(text: string)
    ensures Upper(text) == "" <==> text == ""
  {
    assert |Upper(text)| == |text|;
  }

  lemma {:induction false} NoPrimaryMac(interfaces: seq<F.Interface>)
    requires forall j | 0 <= j < |interfaces| :: Trim(interfaces[j].mac) == ""
    ensures PrimaryMac(interfaces) == None
  {
    if interfaces != [] {
      UpperOfBlank(Trim(interfaces[0].mac));
      hide Trim;
      NoPrimaryMac(interfaces[1..]);
    }
  }

  lemma {:induction false} FirstAddressOrNone(device: F.Device, n: nat)
    requires n <= |device.interfaces|
    ensures (exists k: nat | k < n :: FirstAddressAt(device, k)) || forall j | 0 <= j < n ::
      Trim(device.interfaces[j].mac) == ""
  {
    hide Trim;
    if n > 0 {
      FirstAddressOrNone(device, n - 1);
      if (forall j | 0 <= j < n - 1 :: Trim(device.interfaces[j].mac) == "")
        && Trim(device.interfaces[n - 1].mac) != "" {
        assert FirstAddressAt(device, n - 1);
      }
    }
  }

  lemma SameMacIff(asset: Asset, inventory: Inventory)
    ensures Equals(asset.mac, EvidenceOf(inventory).mac) <==> SameMac(asset, inventory.device)
  {
    var device := inventory.device;
    FirstAddressOrNone(device, |device.interfaces|);
    if k: nat :| k < |device.interfaces| && FirstAddressAt(device, k) {
      PrimaryMacIs(device.interfaces, k);
      LowerOfUpper(Trim(device.interfaces[k].mac));
      hide Trim, Lower, Upper, PrimaryMac;
    } else {
      NoPrimaryMac(device.interfaces);
      hide Trim, Lower, PrimaryMac;
    }
  }

  lemma CandidatesMayBe(assets: map<AssetId, Asset>, inventory: Inventory)
    ensures forall id | id in assets ::
      id in Candidates(assets, EvidenceOf(inventory)) <==> MayBe(assets[id], inventory.device)
  {
    ReportedIsSanitized(inventory.device.systemUuid);
    ReportedIsSanitized(inventory.device.serialNumber);
    forall id | id in assets
      ensures Equals(assets[id].mac, EvidenceOf(inventory).mac) <==> SameMac(assets[id], inventory.device)
    {
      SameMacIff(assets[id], inventory);
    }
    hide F.Sanitize, PrimaryMac, SameMac, Reported, Lower;
  }

  ghost predicate OnlyOne(assets: map<AssetId, Asset>, device: F.Device, id: AssetId) {
    id in assets && MayBe(assets[id], device) && forall other | other in assets && MayBe(assets[other], device) ::
      other == id
  }

  ghost predicate NoneMayBe(assets: map<AssetId, Asset>, device: F.Device) {
    forall id | id in assets :: !MayBe(assets[id], device)
  }

  ghost predicate SeveralMayBe(assets: map<AssetId, Asset>, device: F.Device) {
    exists a, b | a in assets && b in assets && a != b :: MayBe(assets[a], device) && MayBe(assets[b], device)
  }

  lemma CandidateSet(assets: map<AssetId, Asset>, inventory: Inventory)
    ensures var ids := Candidates(assets, EvidenceOf(inventory));
      && (ids == {} <==> NoneMayBe(assets, inventory.device))
      && ((exists a, b | a in ids && b in ids :: a != b) <==> SeveralMayBe(assets, inventory.device))
      && (forall id :: Single(ids, id) <==> OnlyOne(assets, inventory.device, id))
  {
    CandidatesMayBe(assets, inventory);
    CandidatesAreStored(assets, EvidenceOf(inventory));
    hide Candidates, MayBe, EvidenceOf;
    var ids := Candidates(assets, EvidenceOf(inventory));
    if a, b :| a in ids && b in ids && a != b {
      assert MayBe(assets[a], inventory.device) && MayBe(assets[b], inventory.device);
    }
  }

  /** A report is PENDING when no live asset may be the device, CONFLICT when several may, and MATCHED when one may. */
  lemma DecisionOfInventory(assets: map<AssetId, Asset>, inventory: Inventory)
    ensures var d := Decide(assets, EvidenceOf(inventory));
      && (d.status == Pending <==> NoneMayBe(assets, inventory.device))
      && (d.status == Conflict <==> SeveralMayBe(assets, inventory.device))
      && (forall id :: d.status == Matched && d.suggested == Some(id) <==> OnlyOne(assets, inventory.device, id))
      && d.status in {Pending, Conflict, Matched} && (d.suggested.Some? <==> d.status == Matched)
      && (d.conflict <==> d.status == Conflict)
  {
    hide Candidates, Decide, EvidenceOf, Agrees, Equals, OnlyOne, SeveralMayBe, NoneMayBe;
    var evidence := EvidenceOf(inventory);
    EvidenceIsNotEmpty(inventory);
    CandidateSet(assets, inventory);
    DecisionMeaning(assets, evidence);
    DecisionsAreThese(assets, evidence);
    var d, ids := Decide(assets, evidence), Candidates(assets, evidence);
    forall id
      ensures d.status == Matched && d.suggested == Some(id) <==> Single(ids, id)
    {
      if Single(ids, id) {
        assert d.status == Matched && Single(ids, d.suggested.value);
      }
    }
  }

  lemma DecisionsAreThese(assets: map<AssetId, Asset>, evidence: Evidence)
    ensures Decide(assets, evidence).status in {Pending, Conflict, Matched}
  {
    hide Candidates, Confidence, Single;
  }

  /** Which identifier speaks for a match. */
  function Trust(asset: Asset, device: F.Device): nat {
    if Reported(device.systemUuid) != "" && asset.systemUuid.Some?
       && Lower(Trim(asset.systemUuid.value)) == Lower(Reported(device.systemUuid)) then 99
    else if Reported(device.serialNumber) != "" && asset.serialNumber.Some?
            && Lower(Trim(asset.serialNumber.value)) == Lower(Reported(device.serialNumber)) then 95
    else 80
  }

  lemma ConfidenceOfInventory(assets: map<AssetId, Asset>, inventory: Inventory, id: AssetId)
    requires OnlyOne(assets, inventory.device, id)
    ensures Decide(assets, EvidenceOf(inventory)).confidence == Trust(assets[id], inventory.device)
  {
    DecisionOfInventory(assets, inventory);
    var d := Decide(assets, EvidenceOf(inventory));
    assert d.status == Matched && d.suggested == Some(id);
    hide OnlyOne;
    MatchedConfidence(assets, EvidenceOf(inventory));
    TrustIsConfidence(assets[id], inventory);
    hide Decide, Confidence, Trust, EvidenceOf;
  }

  lemma MatchedConfidence(assets: map<AssetId, Asset>, evidence: Evidence)
    ensures var d := Decide(assets, evidence);
      d.status == Matched ==>
        d.suggested.Some? && d.suggested.value in assets
          && d.confidence == Confidence(assets[d.suggested.value], evidence)
  {
    CandidatesAreStored(assets, evidence);
    hide Candidates, Confidence;
  }

  lemma AgreesIff(value: Option<string>, text: string)
    requires Trim(text) == text
    ensures Agrees(value, NonEmpty(text)) <==> text != "" && value.Some? && Lower(Trim(value.value)) == Lower(text)
  {
    TrimOfTrimmed("");
    assert |Lower(text)| == |text|;
    hide Trim, Lower;
    if text != "" && value.None? {
      assert F.Normalize("") == Lower("");
      assert |Lower("")| == 0;
    }
  }

  lemma TrustIsConfidence(asset: Asset, inventory: Inventory)
    ensures Confidence(asset, EvidenceOf(inventory)) == Trust(asset, inventory.device)
  {
    var device := inventory.device;
    ReportedIsSanitized(device.systemUuid);
    ReportedIsSanitized(device.serialNumber);
    TrimmedReport(device.systemUuid);
    TrimmedReport(device.serialNumber);
    AgreesIff(asset.systemUuid, Reported(device.systemUuid));
    AgreesIff(asset.serialNumber, Reported(device.serialNumber));
    hide Reported, Trim, Lower, Agrees, F.Sanitize, PrimaryMac;
  }

  lemma TrimmedReport(value: string)
    ensures Trim(Reported(value)) == Reported(value)
  {
    TrimIsTrimmed(value);
    TrimOfTrimmed(Trim(value));
    TrimOfTrimmed("");
    hide Trim;
  }

  /** What a report of an unlinked agent leaves in the inbox. */
  lemma InboxAfterReport(db: Db, agent: AgentId, inventory: Inventory)
    requires agent in db.agents && db.agents[agent].linkedAsset.None?
    ensures var after := Reconciled(db, agent, EvidenceOf(inventory));
      && agent in after.inbox && after.assets == db.assets && after.agents == db.agents
      && (forall other | other != agent :: other in after.inbox <==> other in db.inbox)
      && (forall other | other != agent && other in db.inbox :: after.inbox[other] == db.inbox[other])
      && var item := after.inbox[agent];
         && (item.status == Pending <==> NoneMayBe(db.assets, inventory.device))
         && (item.status == Conflict <==> SeveralMayBe(db.assets, inventory.device))
         && (forall id ::
           item.status == Matched && item.suggested == Some(id) <==> OnlyOne(db.assets, inventory.device, id))
         && (forall id | id in db.assets && OnlyOne(db.assets, inventory.device, id) ::
               item.confidence == Trust(db.assets[id], inventory.device))
         && (item.status != Matched ==> item.suggested.None? && item.confidence == 0)
         && (item.conflict <==> item.status == Conflict)
         && item.resolved.None? && item.note.None? && item.resolvedBy.None?
  {
    DecisionOfInventory(db.assets, inventory);
    UnmatchedConfidence(db.assets, EvidenceOf(inventory));
    hide OnlyOne, SeveralMayBe, NoneMayBe, Decide, EvidenceOf, Trust;
    forall id | id in db.assets && OnlyOne(db.assets, inventory.device, id)
      ensures Decide(db.assets, EvidenceOf(inventory)).confidence == Trust(db.assets[id], inventory.device)
    {
      ConfidenceOfInventory(db.assets, inventory, id);
    }
  }

  lemma UnmatchedConfidence(assets: map<AssetId, Asset>, evidence: Evidence)
    ensures var d := Decide(assets, evidence); d.status != Matched ==> d.confidence == 0 && d.suggested.None?
  {
    hide Candidates, Confidence, Single;
  }
}
