/**
 * The credential types of src/credentialType.ts. The table is open: a code
 * outside it is carried as a custom credential type of that number (the
 * open-enum helpers of util/enumHelpers are not part of this model; their
 * behaviour is taken from src/customCredential.ts, which names a custom type
 * by its number).
 */
module CredentialType {
  import opened Wrappers
  import opened Bytes
  import opened TlsDecoder
  import opened Number

  /** basic, x509, or a custom type named by its code */
  datatype CredentialTypeName = Basic | X509 | CustomCredentialType(code: uint16)

  function CredentialTypeValue(t: CredentialTypeName): uint16 {
    match t
    case Basic => 1
    case X509 => 2
    case CustomCredentialType(c) => c
  }

  /** A custom name does not reuse a code of the table. */
  predicate CanonicalCredentialType(t: CredentialTypeName) {
    t.CustomCredentialType? ==> t.code != 1 && t.code != 2
  }

  /** Every code has a name: the table's name for 1 and 2, a custom name otherwise. */
  function CredentialTypeFromValue(n: uint16): (r: Option<CredentialTypeName>)
    ensures r.Some? && CredentialTypeValue(r.value) == n && CanonicalCredentialType(r.value)
  {
    if n == 1 then Some(Basic) else if n == 2 then Some(X509) else Some(CustomCredentialType(n))
  }

  function EncodeCredentialType(t: CredentialTypeName): seq<byte> {
    EncodeUint16(CredentialTypeValue(t))
  }

  const DecodeCredentialType: Decoder<CredentialTypeName> := MapDecoderOption(DecodeUint16, CredentialTypeFromValue)

  /** A canonical name is 2 bytes on the wire and reads back as itself. */
  lemma CredentialTypeRoundTrip(t: CredentialTypeName)
    requires CanonicalCredentialType(t)
    ensures |EncodeCredentialType(t)| == 2
    ensures Decodes(DecodeCredentialType, EncodeCredentialType(t), t)
  {
    var n := CredentialTypeValue(t);
    Uint16RoundTrip(n);
    assert CredentialTypeFromValue(n) == Some(t);
    MapDecoderOptionDecodes(DecodeUint16, CredentialTypeFromValue, EncodeCredentialType(t), n, t);
  }

  /** No code is rejected: each reads back as the canonical name with that code. */
  lemma CredentialTypeReadsEveryCode(n: uint16)
    ensures Decodes(DecodeCredentialType, EncodeUint16(n), CredentialTypeFromValue(n).value)
  {
    Uint16RoundTrip(n);
    MapDecoderOptionDecodes(DecodeUint16, CredentialTypeFromValue, EncodeUint16(n), n, CredentialTypeFromValue(n).value);
  }
}
