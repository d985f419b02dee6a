/** Credentials of src/credential.ts: a credential type, then its body. */
module Credential {
  import opened Wrappers
  import opened Bytes
  import opened TlsDecoder
  import opened VariableLength
  import opened CredentialType

  datatype Credential =
    | CredentialBasic(identity: seq<byte>)
    | CredentialX509(certificates: seq<seq<byte>>)
      /** a credential of a custom type, carried as opaque data */
    | CredentialCustom(code: uint16, data: seq<byte>)

  function EncodeCredentialBasic(identity: seq<byte>): seq<byte> {
    EncodeCredentialType(Basic) + EncodeVarLenData(identity)
  }

  function EncodeCredentialX509(certificates: seq<seq<byte>>): seq<byte> {
    EncodeCredentialType(X509) + EncodeVarLenType(EncodeVarLenData, certificates)
  }

  function EncodeCredentialCustom(code: uint16, data: seq<byte>): seq<byte> {
    EncodeCredentialType(CustomCredentialType(code)) + EncodeVarLenData(data)
  }

  function EncodeCredential(c: Credential): seq<byte> {
    match c
    case CredentialBasic(identity) => EncodeCredentialBasic(identity)
    case CredentialX509(certificates) => EncodeCredentialX509(certificates)
    case CredentialCustom(code, data) => EncodeCredentialCustom(code, data)
  }

  const DecodeCredentialBasic: Decoder<Credential> :=
    MapDecoder(DecodeVarLenData, (identity: seq<byte>) => CredentialBasic(identity))

  const DecodeCredentialX509: Decoder<Credential> :=
    MapDecoder(DecodeVarLenType(DecodeVarLenData), (certificates: seq<seq<byte>>) => CredentialX509(certificates))

  /** The body decoder for each credential type; there is none for a custom type. */
  function CredentialBodyDecoder(t: CredentialTypeName): Decoder<Credential> {
    match t
    case Basic => DecodeCredentialBasic
    case X509 => DecodeCredentialX509
    case CustomCredentialType(_) => (b: seq<byte>, o: nat) => None
  }

  const DecodeCredential: Decoder<Credential> := FlatMapDecoder(DecodeCredentialType, CredentialBodyDecoder)

  /** A basic or x509 credential reads back as the same variant with the same contents. */
  lemma CredentialRoundTrip(c: Credential)
    requires !c.CredentialCustom?
    ensures Decodes(DecodeCredential, EncodeCredential(c), c)
  {
    match c
    case CredentialBasic(identity) =>
      CredentialTypeRoundTrip(Basic);
      VarLenDataRoundTrip(identity);
      MapDecoderDecodes(DecodeVarLenData, (identity: seq<byte>) => CredentialBasic(identity), EncodeVarLenData(identity), identity);
      FlatMapDecoderDecodes(DecodeCredentialType, CredentialBodyDecoder, EncodeCredentialType(Basic),
        EncodeVarLenData(identity), Basic, c);
    case CredentialX509(certificates) =>
      CredentialTypeRoundTrip(X509);
      forall k | 0 <= k < |certificates|
        ensures |EncodeVarLenData(certificates[k])| > 0 && Decodes(DecodeVarLenData, EncodeVarLenData(certificates[k]), certificates[k])
      {
        VarLenDataRoundTrip(certificates[k]);
      }
      VarLenTypeRoundTrip(DecodeVarLenData, EncodeVarLenData, certificates);
      var body := EncodeVarLenType(EncodeVarLenData, certificates);
      MapDecoderDecodes(DecodeVarLenType(DecodeVarLenData), (certificates: seq<seq<byte>>) => CredentialX509(certificates), body, certificates);
      FlatMapDecoderDecodes(DecodeCredentialType, CredentialBodyDecoder, EncodeCredentialType(X509), body, X509, c);
  }

  /** A credential of any type outside the table fails to decode, whatever its body. */
  lemma CustomCredentialRejected(code: uint16, rest: seq<byte>)
    requires code != 1 && code != 2
    ensures Rejects(DecodeCredential, EncodeCredentialType(CustomCredentialType(code)) + rest)
  {
    var t := CustomCredentialType(code);
    CredentialTypeRoundTrip(t);
    var p := EncodeCredentialType(t);
    forall b: seq<byte>, o: nat | o + |p| <= |b| && b[o..o + |p|] == p
      ensures DecodeCredential(b, o).None?
    {
      assert DecodeCredentialType(b, o) == Some((t, 2));
    }
    RejectsExtended(DecodeCredential, p, rest);
  }
}
