/** Which devices have the same hashed text, told by their fields (apps/agent/internal/identity/fingerprint.go and
    apps/api/src/modules/discovery/discovery.rules.ts). */
module FingerprintLaws {
  import opened Common
  import opened Fingerprint
  import opened StringSort
  import opened Text

  /** How a value is hashed: without blanks around it, in small letters. */
  function Plainly(value: string): string {
    Lower(Trim(value))
  }

  /** The texts vendors leave where an identifier should be; they count as none. */
  predicate Placeholder(value: string) {
    var text := Plainly(value);
    || text == "default string" || text == "to be filled by o.e.m." || text == "to be filled by oem"
    || text == "system serial number" || text == "unknown" || text == "none" || text == "not specified" || text == "n/a"
    || text == "na" || text == "0" || text == "00000000-0000-0000-0000-000000000000"
    || text == "ffffffff-ffff-ffff-ffff-ffffffffffff"
  }

  function Identifier(value: string): string {
    if Placeholder(value) then "" else Plainly(value)
  }

  lemma IdentifierIsHashed(value: string)
    ensures Normalize(Sanitize(value)) == Identifier(value)
  {
    hide Trim;
    TrimOfTrimmed(Trim(value)) by { TrimIsTrimmed(value); }
    TrimOfTrimmed("");
  }

  // ---------------------------------------------------------------------------------------------
  // Hardware addresses
  // ---------------------------------------------------------------------------------------------

  /** How many of the first n interfaces have a hardware address. */
  function CountFirst(interfaces: seq<Interface>, n: nat, address: string): nat
    requires n <= |interfaces|
  {
    |set i | 0 <= i < n && Plainly(interfaces[i].mac) == address|
  }

  function Count(device: Device, address: string): nat {
    CountFirst(device.interfaces, |device.interfaces|, address)
  }

  lemma CountNext(interfaces: seq<Interface>, n: nat, address: string)
    requires n < |interfaces|
    ensures CountFirst(interfaces, n + 1, address) ==
      CountFirst(interfaces, n, address) + (if Plainly(interfaces[n].mac) == address then 1 else 0)
  {
    hide Plainly;
    var before := set i | 0 <= i < n && Plainly(interfaces[i].mac) == address;
    var after := set i | 0 <= i < n + 1 && Plainly(interfaces[i].mac) == address;
    assert after == if Plainly(interfaces[n].mac) == address then before + {n} else before;
  }

  lemma CountNone(interfaces: seq<Interface>, address: string)
    ensures CountFirst(interfaces, 0, address) == 0
  {
  }

  lemma OneMore(texts: seq<string>, last: string, text: string)
    ensures multiset(texts + [last])[text] == multiset(texts)[text] + (if last == text then 1 else 0)
    ensures "" !in texts && last != "" ==> "" !in texts + [last]
  {
  }

  lemma {:induction false} CountIsMultiplicity(interfaces: seq<Interface>, n: nat, address: string)
    requires n <= |interfaces| && address != ""
    ensures multiset(Macs(interfaces[..n]))[address] == CountFirst(interfaces, n, address)
    ensures "" !in Macs(interfaces[..n])
  {
    hide Trim, Lower, Macs, CountFirst;
    if n == 0 {
      CountNone(interfaces, address);
      MacsOfNone(interfaces);
    } else {
      CountIsMultiplicity(interfaces, n - 1, address);
      MacsNext(interfaces, n - 1);
      CountNext(interfaces, n - 1, address);
      OneMore(Macs(interfaces[..n - 1]), Normalize(interfaces[n - 1].mac), address);
    }
  }

  lemma MacsAreCounted(device: Device)
    ensures forall address | address != "" :: multiset(Macs(device.interfaces))[address] == Count(device, address)
    ensures "" !in Macs(device.interfaces)
  {
    var interfaces := device.interfaces;
    assert interfaces[..|interfaces|] == interfaces;
    forall address | address != ""
      ensures multiset(Macs(interfaces))[address] == Count(device, address)
    {
      CountIsMultiplicity(interfaces, |interfaces|, address);
    }
    CountIsMultiplicity(interfaces, |interfaces|, "x");
  }

  /** Each hardware address occurs as often on one device as on the other, blank ones apart. */
  ghost predicate SameAddresses(a: Device, b: Device) {
    forall address | address != "" :: Count(a, address) == Count(b, address)
  }

  lemma SameAddressesIff(a: Device, b: Device)
    ensures SameAddresses(a, b) <==> Sorted(Macs(a.interfaces)) == Sorted(Macs(b.interfaces))
  {
    hide Sorted, Macs, Count;
    MacsAreCounted(a);
    MacsAreCounted(b);
    SortedIsCanonical(Macs(a.interfaces), Macs(b.interfaces));
    if SameAddresses(a, b) {
      assert multiset(Macs(a.interfaces)) == multiset(Macs(b.interfaces)) by {
        forall address: string
          ensures multiset(Macs(a.interfaces))[address] == multiset(Macs(b.interfaces))[address]
        {
          if address != "" {
            assert Count(a, address) == Count(b, address);
          }
        }
      }
    }
  }

  // ---------------------------------------------------------------------------------------------
  // The text
  // ---------------------------------------------------------------------------------------------

  predicate SameIdentifiers(a: Device, b: Device) {
    && Identifier(a.systemUuid) == Identifier(b.systemUuid) && Identifier(a.serialNumber) == Identifier(b.serialNumber)
    && Plainly(a.manufacturer) == Plainly(b.manufacturer) && Plainly(a.model) == Plainly(b.model)
  }

  predicate NoIdentifiers(device: Device) {
    && Identifier(device.systemUuid) == "" && Identifier(device.serialNumber) == ""
    && Plainly(device.manufacturer) == "" && Plainly(device.model) == ""
  }

  ghost predicate NoAddresses(device: Device) {
    forall i | 0 <= i < |device.interfaces| :: Plainly(device.interfaces[i].mac) == ""
  }

  /** A device whose hardware says nothing goes by these. */
  function Names(device: Device): seq<string> {
    [Plainly(device.hostname), Plainly(device.osFamily), Plainly(device.osArch)]
  }

  /** The odd case: the names of a device without hardware read like the three addresses of one without identifiers. */
  ghost predicate NamedLikeAddresses(a: Device, b: Device) {
    && NoIdentifiers(a) && NoAddresses(a) && NoIdentifiers(b) && "" !in Names(a)
    && Ordered(Names(a))
    && forall address | address != "" :: Count(b, address) == multiset(Names(a))[address]
  }

  predicate NoBar(device: Device) {
    && '|' !in device.systemUuid && '|' !in device.serialNumber && '|' !in device.manufacturer && '|' !in device.model
    && '|' !in device.hostname && '|' !in device.osFamily && '|' !in device.osArch
    && forall i | 0 <= i < |device.interfaces| :: '|' !in device.interfaces[i].mac
  }

  lemma PlainlyWithoutBar(value: string)
    requires '|' !in value
    ensures '|' !in Plainly(value) && '|' !in Identifier(value)
  {
    TrimKeepsOut(value, '|');
    assert forall i | 0 <= i < |Trim(value)| :: Lower(Trim(value))[i] == LowerChar(Trim(value)[i]);
    hide Trim, Placeholder;
  }

  lemma {:induction false} MacsWithoutBar(interfaces: seq<Interface>)
    requires forall i | 0 <= i < |interfaces| :: '|' !in interfaces[i].mac
    ensures forall part | part in Macs(interfaces) :: '|' !in part
  {
    if interfaces != [] {
      PlainlyWithoutBar(interfaces[0].mac);
      MacsWithoutBar(interfaces[1..]);
      hide Trim, Lower, Identifier;
    }
  }

  lemma IdentifiersOf(device: Device)
    ensures Identifiers(device) ==
      [Identifier(device.systemUuid), Identifier(device.serialNumber), Plainly(device.manufacturer),
       Plainly(device.model)]
    ensures [Normalize(device.hostname), Normalize(device.osFamily), Normalize(device.osArch)] == Names(device)
  {
    IdentifierIsHashed(device.systemUuid);
    IdentifierIsHashed(device.serialNumber);
    hide Identifier, Trim, Lower, Sanitize;
  }

  lemma {:induction false} NoMacsIff(interfaces: seq<Interface>)
    ensures Macs(interfaces) == [] <==> forall i | 0 <= i < |interfaces| :: Plainly(interfaces[i].mac) == ""
  {
    hide Trim, Lower;
    if interfaces != [] {
      NoMacsIff(interfaces[1..]);
      assert forall i | 0 < i < |interfaces| :: interfaces[i] == interfaces[1..][i - 1];
    }
  }

  /** The parts after the identifiers. */
  ghost function Rest(device: Device): seq<string> {
    if NoIdentifiers(device) && NoAddresses(device) then Names(device) else Sorted(Macs(device.interfaces))
  }

  /** The parts of a device: identifiers and sorted addresses, and its names when there are none of both. */
  lemma PartsOf(device: Device)
    ensures var ids := [Identifier(device.systemUuid), Identifier(device.serialNumber), Plainly(device.manufacturer),
                        Plainly(device.model)];
      Parts(device) ==
        ids + Rest(device)
  {
    IdentifiersOf(device);
    NoMacsIff(device.interfaces);
    MacsAreCounted(device);
    SortedIsSort(Macs(device.interfaces));
    var ids, macs := Identifiers(device), Sorted(Macs(device.interfaces));
    hide Identifier, Plainly, Sorted, Macs, Identifiers, Normalize, Count, Ordered;
    assert "" !in macs by {
      assert "" in macs ==> "" in multiset(macs);
    }
    if macs != [] {
      assert (ids + macs)[4] == macs[0] && macs[0] in macs;
      assert !AllEmpty(ids + macs);
      assert Macs(device.interfaces) != [] by { SortedOfNone(); }
    } else {
      assert |multiset(macs)| == |multiset(Macs(device.interfaces))|;
      assert ids + macs == ids;
      assert AllEmpty(ids) <==> ids[0] == ids[1] == ids[2] == ids[3] == "";
      assert ids + Names(device) + macs == ids + Names(device);
    }
  }

  lemma SortedOfNone()
    ensures Sorted([]) == []
  {
  }

  lemma RestWithoutBar(device: Device)
    requires NoBar(device)
    ensures forall part | part in Rest(device) :: '|' !in part
  {
    PlainlyWithoutBar(device.hostname);
    PlainlyWithoutBar(device.osFamily);
    PlainlyWithoutBar(device.osArch);
    MacsWithoutBar(device.interfaces);
    SortedIsSort(Macs(device.interfaces));
    hide Plainly, Sorted, Macs, Ordered, NoIdentifiers, NoAddresses;
    forall part | part in Sorted(Macs(device.interfaces))
      ensures '|' !in part
    {
      assert part in multiset(Sorted(Macs(device.interfaces)));
    }
  }

  lemma PartsWithoutBar(device: Device)
    requires NoBar(device)
    ensures forall part | part in Parts(device) :: '|' !in part
    ensures Parts(device) != []
  {
    hide Identifier, Plainly, Parts, Rest;
    PartsOf(device);
    PlainlyWithoutBar(device.systemUuid);
    PlainlyWithoutBar(device.serialNumber);
    PlainlyWithoutBar(device.manufacturer);
    PlainlyWithoutBar(device.model);
    RestWithoutBar(device);
  }

  lemma PartsEqualIff(a: Device, b: Device)
    ensures Parts(a) == Parts(b) <==> SameIdentifiers(a, b) && Rest(a) == Rest(b)
  {
    hide Identifier, Plainly, Parts, Rest;
    PartsOf(a);
    PartsOf(b);
    var p, q := Parts(a), Parts(b);
    assert p[4..] == Rest(a) && q[4..] == Rest(b);
    if p == q {
      assert p[0] == q[0] && p[1] == q[1] && p[2] == q[2] && p[3] == q[3];
    }
  }

  /** Three names against sorted addresses. */
  lemma NamesAreAddressesIff(a: Device, b: Device)
    requires NoIdentifiers(a) && NoAddresses(a) && NoIdentifiers(b)
    ensures Names(a) == Sorted(Macs(b.interfaces)) <==> NamedLikeAddresses(a, b)
  {
    hide NoIdentifiers, NoAddresses, Names, Sorted, Macs, Count;
    var names, macs := Names(a), Macs(b.interfaces);
    MacsAreCounted(b);
    SortedIsSort(macs);
    if names == Sorted(macs) {
      assert "" in names ==> "" in multiset(Sorted(macs));
    }
    if NamedLikeAddresses(a, b) {
      forall address: string
        ensures multiset(names)[address] == multiset(macs)[address]
      {
        if address != "" {
          assert Count(b, address) == multiset(names)[address];
        }
      }
      assert multiset(names) == multiset(macs);
      OrderedIsUnique(names, Sorted(macs));
    }
  }

  lemma NoAddressesOfBoth(a: Device, b: Device)
    requires NoAddresses(a)
    ensures NoAddresses(b) <==> SameAddresses(a, b)
  {
    hide Plainly, Sorted, Count;
    SameAddressesIff(a, b);
    NoMacsIff(a.interfaces);
    NoMacsIff(b.interfaces);
    SortedIsSort(Macs(b.interfaces));
    SortedOfNone();
    hide Macs, SameAddresses;
    if Sorted(Macs(b.interfaces)) == [] {
      assert |multiset(Macs(b.interfaces))| == 0;
    }
  }

  lemma RestEqualIff(a: Device, b: Device)
    requires SameIdentifiers(a, b)
    ensures Rest(a) == Rest(b) <==>
      || (SameAddresses(a, b) && (NoIdentifiers(a) && NoAddresses(a) ==> Names(a) == Names(b)))
      || NamedLikeAddresses(a, b) || NamedLikeAddresses(b, a)
  {
    assert NoIdentifiers(a) <==> NoIdentifiers(b) by { hide Identifier, Plainly; }
    SameAddressesIff(a, b);
    if NoIdentifiers(a) && NoAddresses(a) {
      NoAddressesOfBoth(a, b);
      NamesAreAddressesIff(a, b);
    }
    if NoIdentifiers(b) && NoAddresses(b) {
      NoAddressesOfBoth(b, a);
      NamesAreAddressesIff(b, a);
    }
    NotNamedLikeNone(a, b);
    NotNamedLikeNone(b, a);
    hide SameIdentifiers, NoIdentifiers, NoAddresses, SameAddresses, Sorted, Macs, Names, NamedLikeAddresses;
  }

  lemma NotNamedLikeNone(a: Device, b: Device)
    ensures NamedLikeAddresses(a, b) ==> NoIdentifiers(a) && NoAddresses(a) && NoIdentifiers(b) && !NoAddresses(b)
    ensures SameAddresses(a, b) <==> SameAddresses(b, a)
  {
    hide Identifier, Plainly;
    if NamedLikeAddresses(a, b) {
      assert Names(a)[0] in Names(a);
      assert Count(b, Names(a)[0]) > 0;
    }
  }

  lemma OnlySameAreNamedLike(a: Device, b: Device)
    ensures NamedLikeAddresses(a, b) || NamedLikeAddresses(b, a) ==> SameIdentifiers(a, b)
  {
    hide Identifier, Plainly, Count, Names;
  }

  /** The text tells devices apart: it is the same exactly when identifiers and addresses are, and, where these say
      nothing, the names; save that three names may read like three addresses. */
  lemma TextDeterminesDevice(a: Device, b: Device)
    requires NoBar(a) && NoBar(b)
    ensures HashInput(a) == HashInput(b) <==>
      || (SameIdentifiers(a, b) && SameAddresses(a, b)
          && (NoIdentifiers(a) && NoAddresses(a) ==> Names(a) == Names(b)))
      || NamedLikeAddresses(a, b) || NamedLikeAddresses(b, a)
  {
    hide SameIdentifiers, NoIdentifiers, NoAddresses, SameAddresses, Names, NamedLikeAddresses, Parts, NoBar, Rest;
    PartsWithoutBar(a);
    PartsWithoutBar(b);
    SplitOfJoin(Parts(a), '|');
    SplitOfJoin(Parts(b), '|');
    PartsEqualIff(a, b);
    if SameIdentifiers(a, b) {
      RestEqualIff(a, b);
    } else {
      OnlySameAreNamedLike(a, b);
    }
  }

  // ---------------------------------------------------------------------------------------------
  // What the agent collects and sends
  // ---------------------------------------------------------------------------------------------

  /** An interface as it is reported: its hardware address in capitals and its addresses in order. */
  ghost predicate ReportedAs(raw: RawInterface, interface: Interface) {
    && interface.name == raw.name && interface.mac == Upper(raw.mac)
    && Ordered(interface.addresses) && multiset(interface.addresses) == multiset(raw.addresses)
  }

  ghost function Reports(raw: seq<RawInterface>, n: nat, interface: Interface): nat
    requires n <= |raw|
  {
    |set i | 0 <= i < n && !raw[i].loopback && ReportedAs(raw[i], interface)|
  }

  lemma ReportedIff(raw: RawInterface, interface: Interface)
    ensures ReportedAs(raw, interface) <==> interface == Collected(raw)
  {
    SortedIsSort(raw.addresses);
    if ReportedAs(raw, interface) {
      OrderedIsUnique(interface.addresses, Sorted(raw.addresses));
    }
  }

  lemma {:induction false} ReportsCounted(raw: seq<RawInterface>, n: nat, interface: Interface)
    requires n <= |raw|
    ensures multiset(Upped(raw[..n]))[interface] == Reports(raw, n, interface)
  {
    hide ReportedAs, Collected, Upped;
    if n > 0 {
      ReportsCounted(raw, n - 1, interface);
      UppedNext(raw, n - 1);
      ReportedIff(raw[n - 1], interface);
      var before := set i | 0 <= i < n - 1 && !raw[i].loopback && ReportedAs(raw[i], interface);
      var after := set i | 0 <= i < n && !raw[i].loopback && ReportedAs(raw[i], interface);
      assert after == if !raw[n - 1].loopback && interface == Collected(raw[n - 1]) then before + {n - 1} else before;
    } else {
      NothingCollected(raw);
    }
  }

  lemma NothingCollected(raw: seq<RawInterface>)
    ensures Upped(raw[..0]) == []
  {
  }

  /** An interface is reported as often as the platform has it, loopback interfaces aside. */
  lemma CollectedMeans(raw: seq<RawInterface>, interface: Interface)
    ensures multiset(Upped(raw))[interface] == Reports(raw, |raw|, interface)
  {
    ReportsCounted(raw, |raw|, interface);
    assert raw[..|raw|] == raw;
  }

  /** A field that is left out counts as empty, and the agent leaves out nothing but empty fields. */
  predicate Sent(value: string, field: Option<string>) {
    if field.Some? then field.value == value && value != "" else value == ""
  }

  lemma PayloadMeans(device: Device, i: nat)
    ensures var body := ToPayload(device);
      && body.hostname == device.hostname && body.osFamily == device.osFamily && body.osArch == device.osArch
      && Sent(device.systemUuid, body.systemUuid) && Sent(device.serialNumber, body.serialNumber)
      && Sent(device.manufacturer, body.manufacturer) && Sent(device.model, body.model)
      && |body.interfaces| == |device.interfaces|
      && (i < |device.interfaces| ==>
            && body.interfaces[i].name == device.interfaces[i].name
            && Sent(device.interfaces[i].mac, body.interfaces[i].mac)
            && (body.interfaces[i].addresses == None <==> device.interfaces[i].addresses == [])
            && (body.interfaces[i].addresses.Some? ==>
                  body.interfaces[i].addresses.value == device.interfaces[i].addresses))
  {
  }
}
