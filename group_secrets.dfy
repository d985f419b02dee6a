/** The secrets a Welcome delivers to a new member, src/groupSecrets.ts. */
module GroupSecrets {
  import opened Wrappers
  import opened Bytes
  import opened TlsDecoder
  import opened VariableLength
  import opened Optional
  import opened PreSharedKey

  datatype GroupSecrets = GroupSecrets(joinerSecret: seq<byte>, pathSecret: Option<seq<byte>>, psks: seq<PreSharedKeyId>)

  /** The joiner secret, the optional path secret, then the list of PSK ids. */
  function EncodeGroupSecrets(gs: GroupSecrets): seq<byte> {
    EncodeVarLenData(gs.joinerSecret) + EncodeOptional(EncodeVarLenData, gs.pathSecret) + EncodeVarLenType(EncodePskId, gs.psks)
  }

  const DecodeGroupSecrets: Decoder<GroupSecrets> :=
    MapDecoders3(DecodeVarLenData, DecodeOptionalAsWritten(DecodeVarLenData), DecodeVarLenType(DecodePskId),
      (j: seq<byte>, p: Option<seq<byte>>, ps: seq<PreSharedKeyId>) => GroupSecrets(j, p, ps))

  lemma GroupSecretsRoundTrip(gs: GroupSecrets)
    ensures Decodes(DecodeGroupSecrets, EncodeGroupSecrets(gs), gs)
  {
    VarLenDataRoundTrip(gs.joinerSecret);
    if gs.pathSecret.Some? {
      VarLenDataRoundTrip(gs.pathSecret.value);
    }
    OptionalAsWrittenRoundTrip(DecodeVarLenData, EncodeVarLenData, gs.pathSecret);
    PskIdsRoundTrip(gs.psks);
    MapDecoders3Decodes(DecodeVarLenData, DecodeOptionalAsWritten(DecodeVarLenData), DecodeVarLenType(DecodePskId),
      (j: seq<byte>, p: Option<seq<byte>>, ps: seq<PreSharedKeyId>) => GroupSecrets(j, p, ps),
      EncodeVarLenData(gs.joinerSecret), EncodeOptional(EncodeVarLenData, gs.pathSecret), EncodeVarLenType(EncodePskId, gs.psks),
      gs.joinerSecret, gs.pathSecret, gs.psks);
  }

  /** An absent path secret is the single byte 0x00 between the joiner secret and the PSK ids. */
  lemma AbsentPathSecretLayout(joinerSecret: seq<byte>, psks: seq<PreSharedKeyId>)
    ensures EncodeGroupSecrets(GroupSecrets(joinerSecret, None, psks))
      == EncodeVarLenData(joinerSecret) + [0] + EncodeVarLenType(EncodePskId, psks)
  {
  }

  /** PSK ids that fail to decode make the whole value fail. */
  lemma GroupSecretsRejectsPsks(joinerSecret: seq<byte>, pathSecret: Option<seq<byte>>, p: seq<byte>)
    requires Rejects(DecodeVarLenType(DecodePskId), p)
    ensures Rejects(DecodeGroupSecrets, EncodeVarLenData(joinerSecret) + EncodeOptional(EncodeVarLenData, pathSecret) + p)
  {
    VarLenDataRoundTrip(joinerSecret);
    if pathSecret.Some? {
      VarLenDataRoundTrip(pathSecret.value);
    }
    OptionalAsWrittenRoundTrip(DecodeVarLenData, EncodeVarLenData, pathSecret);
    MapDecoders3RejectsThird(DecodeVarLenData, DecodeOptionalAsWritten(DecodeVarLenData), DecodeVarLenType(DecodePskId),
      (j: seq<byte>, p: Option<seq<byte>>, ps: seq<PreSharedKeyId>) => GroupSecrets(j, p, ps),
      EncodeVarLenData(joinerSecret), EncodeOptional(EncodeVarLenData, pathSecret), joinerSecret, pathSecret, p);
  }
}
