/** The capabilities a leaf advertises, src/capabilities.ts. */
module Capabilities {
  import opened Wrappers
  import opened Bytes
  import opened TlsDecoder
  import opened Number
  import opened VariableLength
  import opened ProtocolVersion
  import opened Ciphersuite
  import opened CredentialType

  datatype Capabilities = Capabilities(
    versions: seq<ProtocolVersionName>,
    ciphersuites: seq<CiphersuiteName>,
    extensions: seq<uint16>,
    proposals: seq<uint16>,
    credentials: seq<CredentialTypeName>)

  predicate CanonicalCapabilities(c: Capabilities) {
    forall i :: 0 <= i < |c.credentials| ==> CanonicalCredentialType(c.credentials[i])
  }

  /** Five length-prefixed lists in the order versions, ciphersuites, extensions, proposals, credentials. */
  function EncodeCapabilities(c: Capabilities): seq<byte> {
    EncodeVarLenType(EncodeProtocolVersion, c.versions)
    + EncodeVarLenType(EncodeCiphersuite, c.ciphersuites)
    + EncodeVarLenType(EncodeUint16, c.extensions)
    + EncodeVarLenType(EncodeUint16, c.proposals)
    + EncodeVarLenType(EncodeCredentialType, c.credentials)
  }

  const DecodeCapabilities: Decoder<Capabilities> :=
    MapDecoders5(
      DecodeVarLenType(DecodeProtocolVersion),
      DecodeVarLenType(DecodeCiphersuite),
      DecodeVarLenType(DecodeUint16),
      DecodeVarLenType(DecodeUint16),
      DecodeVarLenType(DecodeCredentialType),
      (v: seq<ProtocolVersionName>, cs: seq<CiphersuiteName>, e: seq<uint16>, p: seq<uint16>, cr: seq<CredentialTypeName>) =>
        Capabilities(v, cs, e, p, cr))

  /** A list of 2-byte numbers reads back unchanged. */
  lemma Uint16ListRoundTrip(ns: seq<uint16>)
    ensures Decodes(DecodeVarLenType(DecodeUint16), EncodeVarLenType(EncodeUint16, ns), ns)
  {
    forall k | 0 <= k < |ns|
      ensures |EncodeUint16(ns[k])| > 0 && Decodes(DecodeUint16, EncodeUint16(ns[k]), ns[k])
    {
      Uint16RoundTrip(ns[k]);
    }
    VarLenTypeRoundTrip(DecodeUint16, EncodeUint16, ns);
  }

  /** A list of canonical credential types reads back unchanged. */
  lemma CredentialTypeListRoundTrip(ts: seq<CredentialTypeName>)
    requires forall i :: 0 <= i < |ts| ==> CanonicalCredentialType(ts[i])
    ensures Decodes(DecodeVarLenType(DecodeCredentialType), EncodeVarLenType(EncodeCredentialType, ts), ts)
  {
    forall k | 0 <= k < |ts|
      ensures |EncodeCredentialType(ts[k])| > 0 && Decodes(DecodeCredentialType, EncodeCredentialType(ts[k]), ts[k])
    {
      CredentialTypeRoundTrip(ts[k]);
    }
    VarLenTypeRoundTrip(DecodeCredentialType, EncodeCredentialType, ts);
  }

  lemma ProtocolVersionListRoundTrip(ts: seq<ProtocolVersionName>)
    ensures Decodes(DecodeVarLenType(DecodeProtocolVersion), EncodeVarLenType(EncodeProtocolVersion, ts), ts)
  {
    forall k | 0 <= k < |ts|
      ensures |EncodeProtocolVersion(ts[k])| > 0 && Decodes(DecodeProtocolVersion, EncodeProtocolVersion(ts[k]), ts[k])
    {
      ProtocolVersionRoundTrip(ts[k]);
    }
    VarLenTypeRoundTrip(DecodeProtocolVersion, EncodeProtocolVersion, ts);
  }

  lemma CiphersuiteListRoundTrip(ts: seq<CiphersuiteName>)
    ensures Decodes(DecodeVarLenType(DecodeCiphersuite), EncodeVarLenType(EncodeCiphersuite, ts), ts)
  {
    forall k | 0 <= k < |ts|
      ensures |EncodeCiphersuite(ts[k])| > 0 && Decodes(DecodeCiphersuite, EncodeCiphersuite(ts[k]), ts[k])
    {
      CiphersuiteRoundTrip(ts[k]);
    }
    VarLenTypeRoundTrip(DecodeCiphersuite, EncodeCiphersuite, ts);
  }

  lemma CapabilitiesRoundTrip(c: Capabilities)
    requires CanonicalCapabilities(c)
    ensures Decodes(DecodeCapabilities, EncodeCapabilities(c), c)
  {
    ProtocolVersionListRoundTrip(c.versions);
    CiphersuiteListRoundTrip(c.ciphersuites);
    Uint16ListRoundTrip(c.extensions);
    Uint16ListRoundTrip(c.proposals);
    CredentialTypeListRoundTrip(c.credentials);
    MapDecoders5Decodes(
      DecodeVarLenType(DecodeProtocolVersion),
      DecodeVarLenType(DecodeCiphersuite),
      DecodeVarLenType(DecodeUint16),
      DecodeVarLenType(DecodeUint16),
      DecodeVarLenType(DecodeCredentialType),
      (v: seq<ProtocolVersionName>, cs: seq<CiphersuiteName>, e: seq<uint16>, p: seq<uint16>, cr: seq<CredentialTypeName>) =>
        Capabilities(v, cs, e, p, cr),
      EncodeVarLenType(EncodeProtocolVersion, c.versions),
      EncodeVarLenType(EncodeCiphersuite, c.ciphersuites),
      EncodeVarLenType(EncodeUint16, c.extensions),
      EncodeVarLenType(EncodeUint16, c.proposals),
      EncodeVarLenType(EncodeCredentialType, c.credentials),
      c.versions, c.ciphersuites, c.extensions, c.proposals, c.credentials);
  }
}
