/** The required_capabilities extension body, src/requiredCapabilities.ts. */
module RequiredCapabilities {
  import opened Wrappers
  import opened Bytes
  import opened TlsDecoder
  import opened Number
  import opened VariableLength
  import opened CredentialType
  import opened Capabilities

  datatype RequiredCapabilities = RequiredCapabilities(
    extensionTypes: seq<uint16>,
    proposalTypes: seq<uint16>,
    credentialTypes: seq<CredentialTypeName>)

  function EncodeRequiredCapabilities(rc: RequiredCapabilities): seq<byte> {
    EncodeVarLenType(EncodeUint16, rc.extensionTypes)
    + EncodeVarLenType(EncodeUint16, rc.proposalTypes)
    + EncodeVarLenType(EncodeCredentialType, rc.credentialTypes)
  }

  const DecodeRequiredCapabilities: Decoder<RequiredCapabilities> :=
    MapDecoders3(DecodeVarLenType(DecodeUint16), DecodeVarLenType(DecodeUint16), DecodeVarLenType(DecodeCredentialType),
      (e: seq<uint16>, p: seq<uint16>, c: seq<CredentialTypeName>) => RequiredCapabilities(e, p, c))

  lemma RequiredCapabilitiesRoundTrip(rc: RequiredCapabilities)
    requires forall i :: 0 <= i < |rc.credentialTypes| ==> CanonicalCredentialType(rc.credentialTypes[i])
    ensures Decodes(DecodeRequiredCapabilities, EncodeRequiredCapabilities(rc), rc)
  {
    Uint16ListRoundTrip(rc.extensionTypes);
    Uint16ListRoundTrip(rc.proposalTypes);
    CredentialTypeListRoundTrip(rc.credentialTypes);
    MapDecoders3Decodes(DecodeVarLenType(DecodeUint16), DecodeVarLenType(DecodeUint16), DecodeVarLenType(DecodeCredentialType),
      (e: seq<uint16>, p: seq<uint16>, c: seq<CredentialTypeName>) => RequiredCapabilities(e, p, c),
      EncodeVarLenType(EncodeUint16, rc.extensionTypes), EncodeVarLenType(EncodeUint16, rc.proposalTypes),
      EncodeVarLenType(EncodeCredentialType, rc.credentialTypes),
      rc.extensionTypes, rc.proposalTypes, rc.credentialTypes);
  }
}
