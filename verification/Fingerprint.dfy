/** The hardware fingerprint computed by the agent (apps/agent/internal/identity/fingerprint.go) and
    checked by the server (apps/api/src/modules/discovery/discovery.rules.ts), up to the text that is hashed. */
module Fingerprint {
  import opened Common
  import opened StringSort
  import opened Text

  datatype Interface = Interface(name: string, mac: string, addresses: seq<string>)

  datatype Device = Device(hostname: string, osFamily: string, osArch: string, systemUuid: string, serialNumber: string,
                           manufacturer: string, model: string, interfaces: seq<Interface>)

  const INVALID_IDENTIFIERS := {
    "default string", "to be filled by o.e.m.", "to be filled by oem", "system serial number", "unknown", "none",
    "not specified", "n/a", "na", "0", "00000000-0000-0000-0000-000000000000", "ffffffff-ffff-ffff-ffff-ffffffffffff"
  }

  function Sanitize(value: string): string {
    var trimmed := Trim(value);
    if Lower(trimmed) in INVALID_IDENTIFIERS then "" else trimmed
  }

  function Normalize(value: string): string {
    Lower(Trim(value))
  }

  lemma SanitizeIdempotent(value: string)
    ensures Sanitize(Sanitize(value)) == Sanitize(value)
  {
    TrimIsTrimmed(value);
    TrimOfTrimmed(Trim(value));
  }

  // ---------------------------------------------------------------------------------------------
  // What both sides mean to hash
  // ---------------------------------------------------------------------------------------------

  /** The normalized, non-empty hardware addresses. */
  function Macs(interfaces: seq<Interface>): seq<string> {
    if interfaces == [] then []
    else
      var mac := Normalize(interfaces[0].mac);
      (if mac == "" then [] else [mac]) + Macs(interfaces[1..])
  }

  function Identifiers(device: Device): seq<string> {
    [Normalize(Sanitize(device.systemUuid)), Normalize(Sanitize(device.serialNumber)),
     Normalize(device.manufacturer), Normalize(device.model)]
  }

  predicate AllEmpty(parts: seq<string>) {
    forall i :: 0 <= i < |parts| ==> parts[i] == ""
  }

  /** The parts that identify a device: its hardware, or its name and platform when the hardware says nothing. */
  function Parts(device: Device): seq<string> {
    var hardware := Identifiers(device) + Sorted(Macs(device.interfaces));
    if AllEmpty(hardware)
    then hardware + [Normalize(device.hostname), Normalize(device.osFamily), Normalize(device.osArch)]
    else hardware
  }

  function HashInput(device: Device): string {
    Join(Parts(device), "|")
  }

  lemma {:induction false} JoinEmptyIff(parts: seq<string>)
    ensures Join(parts, "") == "" <==> AllEmpty(parts)
  {
    if |parts| > 1 {
      var rest := parts[1..];
      JoinEmptyIff(rest);
      assert forall i :: 0 < i < |parts| ==> parts[i] == rest[i - 1];
      assert |Join(parts, "")| == |parts[0]| + |Join(rest, "")|;
    }
  }

  // ---------------------------------------------------------------------------------------------
  // The agent
  // ---------------------------------------------------------------------------------------------

  lemma {:induction false} MacsOfConcat(a: seq<Interface>, b: seq<Interface>)
    ensures Macs(a + b) == Macs(a) + Macs(b)
  {
    if a == [] {
      assert a + b == b;
    } else {
      assert (a + b)[1..] == a[1..] + b;
      MacsOfConcat(a[1..], b);
    }
  }

  lemma MacsNext(interfaces: seq<Interface>, i: nat)
    requires i < |interfaces|
    ensures var value := Normalize(interfaces[i].mac);
      Macs(interfaces[..i + 1]) == if value == "" then Macs(interfaces[..i]) else Macs(interfaces[..i]) + [value]
  {
    hide Normalize;
    assert interfaces[..i + 1] == interfaces[..i] + [interfaces[i]];
    MacsOfConcat(interfaces[..i], [interfaces[i]]);
    assert [interfaces[i]][1..] == [];
  }

  /** Fingerprint of fingerprint.go, without the digest. */
  method AgentHashInput(device: Device) returns (text: string)
    ensures text == HashInput(device)
  {
    hide Normalize, Sanitize, Sorted, Join, Macs, AllEmpty;
    var parts := [Normalize(Sanitize(device.systemUuid)), Normalize(Sanitize(device.serialNumber)),
                  Normalize(device.manufacturer), Normalize(device.model)];
    assert parts == Identifiers(device);
    hide Identifiers;
    MacsOfNone(device.interfaces);
    var macs: seq<string> := [];
    for i := 0 to |device.interfaces|
      invariant macs == Macs(device.interfaces[..i])
    {
      var value := Normalize(device.interfaces[i].mac);
      MacsNext(device.interfaces, i);
      if value != "" {
        macs := macs + [value];
      }
    }
    assert device.interfaces[..|device.interfaces|] == device.interfaces;
    macs := Sorted(macs);
    parts := parts + macs;
    JoinEmptyIff(parts);
    if Join(parts, "") == "" {
      parts := parts + [Normalize(device.hostname), Normalize(device.osFamily), Normalize(device.osArch)];
    }
    text := Join(parts, "|");
  }

  lemma MacsOfNone(interfaces: seq<Interface>)
    ensures Macs(interfaces[..0]) == []
  {
  }

  /** An interface as the operating system lists it. */
  datatype RawInterface = RawInterface(name: string, mac: string, addresses: seq<string>, loopback: bool)

  function Collected(raw: RawInterface): Interface {
    Interface(raw.name, Upper(raw.mac), Sorted(raw.addresses))
  }

  function Upped(raw: seq<RawInterface>): seq<Interface> {
    if raw == [] then []
    else (if raw[0].loopback then [] else [Collected(raw[0])]) + Upped(raw[1..])
  }

  function Plain(raw: seq<RawInterface>): seq<Interface> {
    if raw == [] then []
    else (if raw[0].loopback then [] else [Interface(raw[0].name, raw[0].mac, raw[0].addresses)]) + Plain(raw[1..])
  }

  predicate OrderedByName(interfaces: seq<Interface>) {
    forall i, j | 0 <= i < j < |interfaces| :: Le(interfaces[i].name, interfaces[j].name)
  }

  function InsertByName(item: Interface, interfaces: seq<Interface>): (r: seq<Interface>)
    ensures multiset(r) == multiset(interfaces) + multiset{item}
  {
    if interfaces == [] || Le(item.name, interfaces[0].name) then [item] + interfaces
    else
      assert interfaces == [interfaces[0]] + interfaces[1..];
      [interfaces[0]] + InsertByName(item, interfaces[1..])
  }

  function SortedByName(interfaces: seq<Interface>): (r: seq<Interface>)
    ensures multiset(r) == multiset(interfaces)
  {
    if interfaces == [] then []
    else
      assert interfaces == [interfaces[0]] + interfaces[1..];
      InsertByName(interfaces[0], SortedByName(interfaces[1..]))
  }

  lemma PrependByName(item: Interface, interfaces: seq<Interface>)
    requires OrderedByName(interfaces) && forall other | other in interfaces :: Le(item.name, other.name)
    ensures OrderedByName([item] + interfaces)
  {
    hide Le;
    var longer := [item] + interfaces;
    forall i, j | 0 <= i < j < |longer|
      ensures Le(longer[i].name, longer[j].name)
    {
      assert longer[j] == interfaces[j - 1] && interfaces[j - 1] in interfaces;
    }
  }

  lemma {:induction false} InsertByNameOrders(item: Interface, interfaces: seq<Interface>)
    requires OrderedByName(interfaces)
    ensures OrderedByName(InsertByName(item, interfaces))
  {
    hide Le;
    if interfaces == [] {
    } else if Le(item.name, interfaces[0].name) {
      forall other | other in interfaces
        ensures Le(item.name, other.name)
      {
        var k :| 0 <= k < |interfaces| && interfaces[k] == other;
        if k > 0 {
          LeTransitive(item.name, interfaces[0].name, interfaces[k].name);
        }
      }
      PrependByName(item, interfaces);
    } else {
      var first, rest := interfaces[0], interfaces[1..];
      InsertByNameOrders(item, rest);
      LeTotal(item.name, first.name);
      forall other | other in InsertByName(item, rest)
        ensures Le(first.name, other.name)
      {
        assert other in multiset(InsertByName(item, rest));
        assert other == item || other in rest;
      }
      PrependByName(first, InsertByName(item, rest));
    }
  }

  lemma {:induction false} SortedByNameIsOrdered(interfaces: seq<Interface>)
    ensures OrderedByName(SortedByName(interfaces))
  {
    if interfaces != [] {
      SortedByNameIsOrdered(interfaces[1..]);
      InsertByNameOrders(interfaces[0], SortedByName(interfaces[1..]));
    }
  }

  lemma {:induction false} UppedOfConcat(a: seq<RawInterface>, b: seq<RawInterface>)
    ensures Upped(a + b) == Upped(a) + Upped(b)
  {
    if a == [] {
      assert a + b == b;
    } else {
      assert (a + b)[1..] == a[1..] + b;
      UppedOfConcat(a[1..], b);
    }
  }

  lemma UppedNext(raw: seq<RawInterface>, i: nat)
    requires i < |raw|
    ensures Upped(raw[..i + 1]) ==
      if raw[i].loopback then Upped(raw[..i]) else Upped(raw[..i]) + [Collected(raw[i])]
  {
    assert raw[..i + 1] == raw[..i] + [raw[i]];
    UppedOfConcat(raw[..i], [raw[i]]);
    assert [raw[i]][1..] == [];
  }

  method CopyOf(addresses: seq<string>) returns (copy: seq<string>)
    ensures copy == addresses
  {
    copy := [];
    for k := 0 to |addresses|
      invariant copy == addresses[..k]
    {
      copy := copy + [addresses[k]];
    }
  }

  method CollectInterfaces(raw: seq<RawInterface>) returns (result: seq<Interface>)
    ensures multiset(result) == multiset(Upped(raw)) && OrderedByName(result)
  {
    result := [];
    assert result == Upped(raw[..0]);
    hide Upped, SortedByName;
    for i := 0 to |raw|
      invariant result == Upped(raw[..i])
    {
      UppedNext(raw, i);
      if !raw[i].loopback {
        var addresses := CopyOf(raw[i].addresses);
        result := result + [Interface(raw[i].name, Upper(raw[i].mac), Sorted(addresses))];
      }
    }
    assert raw[..|raw|] == raw;
    SortedByNameIsOrdered(result);
    result := SortedByName(result);
  }

  /** Collect of collector.go: `found` is what the platform reports. */
  method Collect(found: Device, raw: seq<RawInterface>) returns (device: Device)
    ensures HashInput(device) == HashInput(found.(interfaces := Plain(raw)))
    ensures device.systemUuid == Sanitize(found.systemUuid) && device.serialNumber == Sanitize(found.serialNumber)
    ensures multiset(device.interfaces) == multiset(Upped(raw)) && OrderedByName(device.interfaces)
  {
    device := found;
    device := device.(serialNumber := Sanitize(device.serialNumber));
    device := device.(systemUuid := Sanitize(device.systemUuid));
    var interfaces := CollectInterfaces(raw);
    device := device.(interfaces := interfaces);
    CollectingChangesNothing(found, raw, device);
  }

  // ---------------------------------------------------------------------------------------------
  // The server
  // ---------------------------------------------------------------------------------------------

  datatype PayloadInterface = PayloadInterface(name: string, mac: Option<string>, addresses: Option<seq<string>>)

  /** The inventory body as the server reads it: the agent leaves empty fields out. */
  datatype Payload = Payload(hostname: string, osFamily: string, osArch: string, systemUuid: Option<string>,
                             serialNumber: Option<string>, manufacturer: Option<string>, model: Option<string>,
                             interfaces: seq<PayloadInterface>)

  function OmitEmpty(value: string): Option<string> {
    if value == "" then None else Some(value)
  }

  function OmitNone(values: seq<string>): Option<seq<string>> {
    if values == [] then None else Some(values)
  }

  function OrNone(values: Option<seq<string>>): seq<string> {
    if values.Some? then values.value else []
  }

  function ToPayload(device: Device): Payload {
    Payload(device.hostname, device.osFamily, device.osArch, OmitEmpty(device.systemUuid),
            OmitEmpty(device.serialNumber),
            OmitEmpty(device.manufacturer), OmitEmpty(device.model),
            seq(|device.interfaces|, i requires 0 <= i < |device.interfaces| =>
              PayloadInterface(device.interfaces[i].name, OmitEmpty(device.interfaces[i].mac),
                               OmitNone(device.interfaces[i].addresses))))
  }

  function OrEmpty(value: Option<string>): string {
    if value.Some? then value.value else ""
  }

  /** The device a body describes: a field left out is an empty one. */
  function FromPayload(body: Payload): Device {
    Device(body.hostname, body.osFamily, body.osArch, OrEmpty(body.systemUuid), OrEmpty(body.serialNumber),
           OrEmpty(body.manufacturer), OrEmpty(body.model),
           seq(|body.interfaces|, i requires 0 <= i < |body.interfaces| =>
             Interface(body.interfaces[i].name, OrEmpty(body.interfaces[i].mac), OrNone(body.interfaces[i].addresses))))
  }

  lemma FromPayloadOfToPayload(device: Device)
    ensures FromPayload(ToPayload(device)) == device
  {
    assert FromPayload(ToPayload(device)).interfaces == device.interfaces;
  }

  function SanitizeOptional(value: Option<string>): string {
    var trimmed := if value.Some? then Trim(value.value) else "";
    if Lower(trimmed) in INVALID_IDENTIFIERS then "" else trimmed
  }

  function NormalizeOptional(value: Option<string>): string {
    if value.Some? then Lower(Trim(value.value)) else ""
  }

  function NonEmpty(values: seq<string>): seq<string> {
    if values == [] then [] else (if values[0] == "" then [] else [values[0]]) + NonEmpty(values[1..])
  }

  /** inventoryFingerprint of discovery.rules.ts, without the digest. */
  method ServerHashInput(body: Payload) returns (text: string)
    ensures text == HashInput(FromPayload(body))
  {
    ghost var device := FromPayload(body);
    var parts := [Normalize(SanitizeOptional(body.systemUuid)), Normalize(SanitizeOptional(body.serialNumber)),
                  NormalizeOptional(body.manufacturer), NormalizeOptional(body.model)];
    OptionalIdentifiers(body);
    assert parts == Identifiers(device);
    OptionalMacs(device.interfaces, body.interfaces);
    hide Normalize, Sanitize, Identifiers, Sorted, Join, Macs, NonEmpty, NormalizeOptional, SanitizeOptional, OrEmpty;
    var macs := Sorted(NonEmpty(OptionalValues(body.interfaces)));
    parts := parts + macs;
    JoinEmptyIff(parts);
    if Join(parts, "") == "" {
      parts := parts + [Normalize(body.hostname), Normalize(body.osFamily), Normalize(body.osArch)];
    }
    text := Join(parts, "|");
  }

  function OptionalValues(interfaces: seq<PayloadInterface>): seq<string> {
    seq(|interfaces|, i requires 0 <= i < |interfaces| => NormalizeOptional(interfaces[i].mac))
  }

  lemma OptionalIdentifiers(body: Payload)
    ensures [Normalize(SanitizeOptional(body.systemUuid)), Normalize(SanitizeOptional(body.serialNumber)),
             NormalizeOptional(body.manufacturer), NormalizeOptional(body.model)] == Identifiers(FromPayload(body))
  {
    assert Trim("") == "" && Lower("") == "";
  }

  lemma {:induction false} OptionalMacs(interfaces: seq<Interface>, payload: seq<PayloadInterface>)
    requires |payload| == |interfaces|
    requires forall i | 0 <= i < |interfaces| :: interfaces[i].mac == OrEmpty(payload[i].mac)
    ensures NonEmpty(OptionalValues(payload)) == Macs(interfaces)
  {
    if interfaces != [] {
      OptionalMacs(interfaces[1..], payload[1..]);
      assert OptionalValues(payload)[1..] == OptionalValues(payload[1..]);
      assert Lower(Trim("")) == "";
    }
  }

  /** The server hashes what the agent hashed, for every machine the agent can be run on. */
  method AgentAndServerAgree(found: Device, raw: seq<RawInterface>) returns (agent: string, server: string)
    ensures agent == server == HashInput(found.(interfaces := Plain(raw)))
  {
    var device := Collect(found, raw);
    agent := AgentHashInput(device);
    server := ServerHashInput(ToPayload(device));
    FromPayloadOfToPayload(device);
  }

  // ---------------------------------------------------------------------------------------------
  // Independence of order and of the agent's cleaning
  // ---------------------------------------------------------------------------------------------

  lemma WithoutOne(s: seq<Interface>, k: nat)
    requires k < |s|
    ensures multiset(s) == multiset(s[..k] + s[k + 1..]) + multiset{s[k]}
  {
    assert s == s[..k] + ([s[k]] + s[k + 1..]);
  }

  lemma MacsWithoutOne(s: seq<Interface>, k: nat)
    requires k < |s|
    ensures multiset(Macs(s)) == multiset(Macs(s[..k] + s[k + 1..])) + multiset(Macs([s[k]]))
  {
    hide Macs;
    assert s == s[..k] + ([s[k]] + s[k + 1..]);
    MacsOfConcat(s[..k], [s[k]] + s[k + 1..]);
    MacsOfConcat([s[k]], s[k + 1..]);
    MacsOfConcat(s[..k], s[k + 1..]);
  }

  lemma {:induction false} MacsPermuted(a: seq<Interface>, b: seq<Interface>)
    requires multiset(a) == multiset(b)
    ensures multiset(Macs(a)) == multiset(Macs(b))
    decreases |a|
  {
    hide Macs;
    assert |multiset(a)| == |multiset(b)|;
    if a != [] {
      assert a[0] in multiset(b);
      var k :| 0 <= k < |b| && b[k] == a[0];
      var restA, restB := a[..0] + a[1..], b[..k] + b[k + 1..];
      WithoutOne(a, 0);
      WithoutOne(b, k);
      Cancel(multiset(restA), multiset(restB), a[0]);
      MacsPermuted(restA, restB);
      MacsWithoutOne(a, 0);
      MacsWithoutOne(b, k);
    }
  }

  /** Plugging the cards in another order leaves the fingerprint alone. */
  lemma OrderOfInterfacesIsIrrelevant(device: Device, interfaces: seq<Interface>)
    requires multiset(interfaces) == multiset(device.interfaces)
    ensures HashInput(device.(interfaces := interfaces)) == HashInput(device)
  {
    MacsPermuted(interfaces, device.interfaces);
    SortedIsCanonical(Macs(interfaces), Macs(device.interfaces));
  }

  lemma {:induction false} MacsOfUpped(raw: seq<RawInterface>)
    ensures Macs(Upped(raw)) == Macs(Plain(raw))
  {
    if raw != [] {
      MacsOfUpped(raw[1..]);
      if raw[0].loopback {
        assert Upped(raw) == Upped(raw[1..]) && Plain(raw) == Plain(raw[1..]);
      } else {
        TrimOfUpper(raw[0].mac);
        LowerOfUpper(Trim(raw[0].mac));
        assert Upped(raw)[1..] == Upped(raw[1..]) && Plain(raw)[1..] == Plain(raw[1..]);
      }
    }
  }

  /** Sanitising, upper-casing and sorting before the hash change nothing in it. */
  lemma CollectingChangesNothing(found: Device, raw: seq<RawInterface>, device: Device)
    requires device == found.(serialNumber := Sanitize(found.serialNumber), systemUuid := Sanitize(found.systemUuid),
                              interfaces := device.interfaces)
    requires multiset(device.interfaces) == multiset(Upped(raw))
    ensures HashInput(device) == HashInput(found.(interfaces := Plain(raw)))
  {
    OrderOfInterfacesIsIrrelevant(device, Upped(raw));
    MacsOfUpped(raw);
    SanitizeIdempotent(found.serialNumber);
    SanitizeIdempotent(found.systemUuid);
  }
}
