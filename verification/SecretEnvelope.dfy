/** The stored form of directory secrets, v1.iv.tag.data
    (apps/api/src/modules/directory/directory-crypto.service.ts). */
module SecretEnvelope {
  import opened Base64Url
  import opened Common
  import Text

  datatype Sealed = Sealed(iv: seq<Byte>, tag: seq<Byte>, data: seq<Byte>)

  /** What the runtime supplies: UTF-8, the base64url reader, and AES-256-GCM under the configured key. */
  datatype Host = Host(
    toUtf8: string -> seq<Byte>,
    fromUtf8: seq<Byte> -> string,
    fromBase64Url: string -> seq<Byte>,
    seal: (seq<Byte>, seq<Byte>) -> Sealed,
    open: Sealed -> Option<seq<Byte>>)

  /** The laws the service relies on; the reader may be as lenient as it likes on texts nobody encoded. */
  ghost predicate Lawful(host: Host) {
    && (forall text :: host.fromUtf8(host.toUtf8(text)) == text)
    && (forall text :: host.toUtf8(text) == [] <==> text == "")
    && (forall bytes :: host.fromBase64Url(Encode(bytes)) == bytes)
    && (forall iv, plain | |iv| == 12 :: Sealing(host, iv, plain))
  }

  ghost predicate Sealing(host: Host, iv: seq<Byte>, plain: seq<Byte>) {
    var sealed := host.seal(iv, plain);
    sealed.iv == iv && |sealed.tag| == 16 && |sealed.data| == |plain| && host.open(sealed) == Some(plain)
  }

  datatype Error = BadFormat | NotCanonical | BadPayload | NotAuthentic

  datatype Parsed = Accepted(sealed: Sealed) | Rejected(error: Error)

  datatype Decrypted = Plain(text: string) | Failed(error: Error)

  function Print(sealed: Sealed): string {
    "v1." + Encode(sealed.iv) + "." + Encode(sealed.tag) + "." + Encode(sealed.data)
  }

  function Encrypt(host: Host, iv: seq<Byte>, value: string): string {
    Print(host.seal(iv, host.toUtf8(value)))
  }

  function DecodeCanonical(host: Host, segment: string): Option<seq<Byte>> {
    var decoded := host.fromBase64Url(segment);
    if Encode(decoded) == segment then Some(decoded) else None
  }

  function Parse(host: Host, value: string): Parsed {
    var parts := Text.Split(value, '.');
    if |parts| < 4 || parts[0] != "v1" || parts[1] == "" || parts[2] == "" || parts[3] == "" then Rejected(BadFormat)
    else
      var iv, tag, data :=
        DecodeCanonical(host, parts[1]), DecodeCanonical(host, parts[2]), DecodeCanonical(host, parts[3]);
      if iv.None? || tag.None? || data.None? then Rejected(NotCanonical)
      else if |parts| != 4 || |iv.value| != 12 || |tag.value| != 16 then Rejected(BadPayload)
      else Accepted(Sealed(iv.value, tag.value, data.value))
  }

  function Decrypt(host: Host, value: string): Decrypted {
    var parsed := Parse(host, value);
    if parsed.Rejected? then Failed(parsed.error)
    else
      var plain := host.open(parsed.sealed);
      if plain.None? then Failed(NotAuthentic) else Plain(host.fromUtf8(plain.value))
  }

  /** What an envelope may carry. */
  predicate WellFormed(sealed: Sealed) {
    |sealed.iv| == 12 && |sealed.tag| == 16 && sealed.data != []
  }

  lemma PrintIsJoin(sealed: Sealed)
    ensures Print(sealed) == Text.Join(["v1", Encode(sealed.iv), Encode(sealed.tag), Encode(sealed.data)], ".")
    ensures Text.Split(Print(sealed), '.') == ["v1", Encode(sealed.iv), Encode(sealed.tag), Encode(sealed.data)]
  {
    var parts := ["v1", Encode(sealed.iv), Encode(sealed.tag), Encode(sealed.data)];
    assert parts[1..] == [Encode(sealed.iv), Encode(sealed.tag), Encode(sealed.data)];
    assert parts[1..][1..] == [Encode(sealed.tag), Encode(sealed.data)];
    assert parts[1..][1..][1..] == [Encode(sealed.data)];
    assert Text.Join(parts[1..][1..], ".") == Encode(sealed.tag) + "." + Encode(sealed.data);
    assert Text.Join(parts[1..], ".") == Encode(sealed.iv) + "." + Text.Join(parts[1..][1..], ".");
    assert Print(sealed) == "v1" + "." + Text.Join(parts[1..], ".");
    EncodeUsesAlphabet(sealed.iv);
    EncodeUsesAlphabet(sealed.tag);
    EncodeUsesAlphabet(sealed.data);
    Text.SplitOfJoin(parts, '.');
  }

  lemma EncodeEmptyIff(bytes: seq<Byte>)
    ensures Encode(bytes) == "" <==> bytes == []
  {
  }

  lemma ParseOfPrint(host: Host, sealed: Sealed)
    requires Lawful(host)
    ensures Parse(host, Print(sealed)) ==
      if sealed.iv == [] || sealed.tag == [] || sealed.data == [] then Rejected(BadFormat)
      else if WellFormed(sealed) then Accepted(sealed)
      else Rejected(BadPayload)
  {
    PrintIsJoin(sealed);
    EncodeEmptyIff(sealed.iv);
    EncodeEmptyIff(sealed.tag);
    EncodeEmptyIff(sealed.data);
  }

  /** What reaches the cipher prints back to the very text it was read from. */
  lemma PrintOfParse(host: Host, value: string)
    requires Parse(host, value).Accepted?
    ensures Print(Parse(host, value).sealed) == value && WellFormed(Parse(host, value).sealed)
  {
    var sealed := Parse(host, value).sealed;
    var parts := Text.Split(value, '.');
    assert parts == ["v1", Encode(sealed.iv), Encode(sealed.tag), Encode(sealed.data)];
    Text.JoinOfSplit(value, '.');
    PrintIsJoin(sealed);
    EncodeEmptyIff(sealed.data);
  }

  /** The accepted texts are exactly the printed envelopes, whatever else the reader lets pass. */
  lemma AcceptedIffPrinted(host: Host, value: string, sealed: Sealed)
    requires Lawful(host)
    ensures Parse(host, value) == Accepted(sealed) <==> WellFormed(sealed) && value == Print(sealed)
  {
    ParseOfPrint(host, sealed);
    if Parse(host, value).Accepted? {
      PrintOfParse(host, value);
    }
  }

  /** Distinct accepted texts hand distinct bytes to the cipher. */
  lemma AcceptedTextsAreDistinct(host: Host, a: string, b: string)
    requires Parse(host, a).Accepted? && Parse(host, b).Accepted?
    ensures Parse(host, a) == Parse(host, b) <==> a == b
  {
    PrintOfParse(host, a);
    PrintOfParse(host, b);
  }

  /** Every stored segment is in the canonical form of RFC 4648, section 3.5. */
  lemma AcceptedSegmentsAreCanonical(host: Host, value: string)
    requires Parse(host, value).Accepted?
    ensures forall k | 1 <= k < 4 :: |Text.Split(value, '.')| == 4 && Canonical(Text.Split(value, '.')[k])
  {
    var sealed := Parse(host, value).sealed;
    assert Text.Split(value, '.') == ["v1", Encode(sealed.iv), Encode(sealed.tag), Encode(sealed.data)];
    CanonicalIffEncoded(Encode(sealed.iv));
    CanonicalIffEncoded(Encode(sealed.tag));
    CanonicalIffEncoded(Encode(sealed.data));
  }

  /** A secret comes back exactly when it is not empty: an empty one leaves an empty data segment. */
  lemma DecryptOfEncryptIff(host: Host, iv: seq<Byte>, value: string)
    requires Lawful(host) && |iv| == 12
    ensures Decrypt(host, Encrypt(host, iv, value)) == (if value == "" then Failed(BadFormat) else Plain(value))
  {
    var sealed := host.seal(iv, host.toUtf8(value));
    assert Sealing(host, iv, host.toUtf8(value));
    ParseOfPrint(host, sealed);
  }
}
