/** An entry of the external_senders extension, src/externalSender.ts. */
module ExternalSender {
  import opened Wrappers
  import opened Bytes
  import opened TlsDecoder
  import opened VariableLength
  import opened Credential

  datatype ExternalSender = ExternalSender(signaturePublicKey: seq<byte>, credential: Credential)

  function EncodeExternalSender(e: ExternalSender): seq<byte> {
    EncodeVarLenData(e.signaturePublicKey) + EncodeCredential(e.credential)
  }

  const DecodeExternalSender: Decoder<ExternalSender> :=
    MapDecoders2(DecodeVarLenData, DecodeCredential, (k: seq<byte>, c: Credential) => ExternalSender(k, c))

  /** A sender with a basic or x509 credential reads back unchanged, so its key is recovered exactly. */
  lemma ExternalSenderRoundTrip(e: ExternalSender)
    requires !e.credential.CredentialCustom?
    ensures Decodes(DecodeExternalSender, EncodeExternalSender(e), e)
  {
    VarLenDataRoundTrip(e.signaturePublicKey);
    CredentialRoundTrip(e.credential);
    MapDecoders2Decodes(DecodeVarLenData, DecodeCredential, (k: seq<byte>, c: Credential) => ExternalSender(k, c),
      EncodeVarLenData(e.signaturePublicKey), EncodeCredential(e.credential), e.signaturePublicKey, e.credential);
  }

  /** A credential that fails to decode makes the sender fail. */
  lemma ExternalSenderRejectsCredential(key: seq<byte>, p: seq<byte>)
    requires Rejects(DecodeCredential, p)
    ensures Rejects(DecodeExternalSender, EncodeVarLenData(key) + p)
  {
    VarLenDataRoundTrip(key);
    MapDecoders2RejectsSecond(DecodeVarLenData, DecodeCredential, (k: seq<byte>, c: Credential) => ExternalSender(k, c),
      EncodeVarLenData(key), key, p);
  }
}
