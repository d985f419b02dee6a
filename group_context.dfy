/**
 * The group context of src/groupContext.ts (section 8.1 of RFC 9420) and the
 * two key-schedule steps that bind it: the joiner secret and the epoch
 * secret.
 */
module GroupContext {
  import opened Wrappers
  import opened Bytes
  import opened TlsDecoder
  import opened Number
  import opened VariableLength
  import opened ProtocolVersion
  import opened Ciphersuite
  import opened Extension
  import opened Crypto

  datatype GroupContext = GroupContext(
    version: ProtocolVersionName,
    cipherSuite: CiphersuiteName,
    groupId: seq<byte>,
    epoch: uint64,
    treeHash: seq<byte>,
    confirmedTranscriptHash: seq<byte>,
    extensions: seq<Extension>)

  /** Version, cipher suite, var-len group id, 8-byte epoch, var-len tree hash and transcript hash, then the extensions. */
  function EncodeGroupContext(gc: GroupContext): seq<byte> {
    EncodeProtocolVersion(gc.version) + EncodeCiphersuite(gc.cipherSuite) + EncodeVarLenData(gc.groupId)
      + EncodeUint64(gc.epoch) + EncodeVarLenData(gc.treeHash) + EncodeVarLenData(gc.confirmedTranscriptHash)
      + EncodeVarLenType(EncodeExtension, gc.extensions)
  }

  const DecodeGroupContext: Decoder<GroupContext> :=
    MapDecoders7(DecodeProtocolVersion, DecodeCiphersuite, DecodeVarLenData, DecodeUint64,
      DecodeVarLenData, DecodeVarLenData, DecodeVarLenType(DecodeExtension),
      (v: ProtocolVersionName, c: CiphersuiteName, g: seq<byte>, e: uint64, t: seq<byte>, h: seq<byte>, x: seq<Extension>) =>
        GroupContext(v, c, g, e, t, h, x))

  /** Extension types are kept in the form the decoder produces. */
  predicate CanonicalGroupContext(gc: GroupContext) {
    CanonicalExtensions(gc.extensions)
  }

  lemma GroupContextRoundTrip(gc: GroupContext)
    requires CanonicalGroupContext(gc)
    ensures Decodes(DecodeGroupContext, EncodeGroupContext(gc), gc)
  {
    ProtocolVersionRoundTrip(gc.version);
    CiphersuiteRoundTrip(gc.cipherSuite);
    VarLenDataRoundTrip(gc.groupId);
    Uint64RoundTrip(gc.epoch);
    VarLenDataRoundTrip(gc.treeHash);
    VarLenDataRoundTrip(gc.confirmedTranscriptHash);
    ExtensionsRoundTrip(gc.extensions);
    MapDecoders7Decodes(DecodeProtocolVersion, DecodeCiphersuite, DecodeVarLenData, DecodeUint64,
      DecodeVarLenData, DecodeVarLenData, DecodeVarLenType(DecodeExtension),
      (v: ProtocolVersionName, c: CiphersuiteName, g: seq<byte>, e: uint64, t: seq<byte>, h: seq<byte>, x: seq<Extension>) =>
        GroupContext(v, c, g, e, t, h, x),
      EncodeProtocolVersion(gc.version), EncodeCiphersuite(gc.cipherSuite), EncodeVarLenData(gc.groupId),
      EncodeUint64(gc.epoch), EncodeVarLenData(gc.treeHash), EncodeVarLenData(gc.confirmedTranscriptHash),
      EncodeVarLenType(EncodeExtension, gc.extensions),
      gc.version, gc.cipherSuite, gc.groupId, gc.epoch, gc.treeHash, gc.confirmedTranscriptHash, gc.extensions);
  }

  /** Two canonical contexts with the same encoding are the same context. */
  lemma GroupContextEncodingInjective(a: GroupContext, b: GroupContext)
    requires CanonicalGroupContext(a) && CanonicalGroupContext(b)
    requires EncodeGroupContext(a) == EncodeGroupContext(b)
    ensures a == b
  {
    GroupContextRoundTrip(a);
    GroupContextRoundTrip(b);
    DecodesUnique(DecodeGroupContext, EncodeGroupContext(a), a, b);
  }

  /** The PSK secret of the epoch: the given one, or `kdf.size` zero bytes when none is given. */
  function PskSecretOrZeros(kdf: Kdf, pskSecret: Option<seq<byte>>): (r: seq<byte>)
    ensures pskSecret.None? ==> r == Zeros(kdf.size as nat)
    ensures pskSecret.Some? ==> r == pskSecret.value
  {
    if pskSecret.None? then Zeros(kdf.size as nat) else pskSecret.value
  }

  /** extractEpochSecret: extract(joinerSecret, psk), expanded with label "epoch" over the encoded context. */
  function ExtractEpochSecret(context: GroupContext, joinerSecret: seq<byte>, kdf: Kdf, pskSecret: Option<seq<byte>>): seq<byte> {
    ExpandWithLabel(kdf, kdf.extract(joinerSecret, PskSecretOrZeros(kdf, pskSecret)), "epoch", EncodeGroupContext(context), kdf.size)
  }

  /** extractJoinerSecret: extract(previousInitSecret, commitSecret), expanded with label "joiner" over the encoded context. */
  function ExtractJoinerSecret(context: GroupContext, previousInitSecret: seq<byte>, commitSecret: seq<byte>, kdf: Kdf): seq<byte> {
    ExpandWithLabel(kdf, kdf.extract(previousInitSecret, commitSecret), "joiner", EncodeGroupContext(context), kdf.size)
  }

  /** Omitting the PSK secret is the same as passing `kdf.size` zero bytes. */
  lemma EpochSecretDefaultPsk(context: GroupContext, joinerSecret: seq<byte>, kdf: Kdf)
    ensures ExtractEpochSecret(context, joinerSecret, kdf, None)
      == ExtractEpochSecret(context, joinerSecret, kdf, Some(Zeros(kdf.size as nat)))
  {
  }

  /**
   * The KDF input of the epoch secret determines the group context: two
   * canonical contexts whose "epoch" expansions read the same info bytes
   * are equal.
   */
  lemma EpochSecretBindsContext(a: GroupContext, b: GroupContext, kdf: Kdf)
    requires CanonicalGroupContext(a) && CanonicalGroupContext(b)
    requires EncodeKdfLabel("epoch", EncodeGroupContext(a), kdf.size) == EncodeKdfLabel("epoch", EncodeGroupContext(b), kdf.size)
    ensures a == b
  {
    KdfLabelInjective("epoch", EncodeGroupContext(a), kdf.size, "epoch", EncodeGroupContext(b), kdf.size);
    GroupContextEncodingInjective(a, b);
  }

  /** The "joiner" and "epoch" expansions never read the same info bytes, whatever the contexts. */
  lemma JoinerAndEpochSeparated(a: GroupContext, b: GroupContext, kdf: Kdf)
    ensures EncodeKdfLabel("joiner", EncodeGroupContext(a), kdf.size) != EncodeKdfLabel("epoch", EncodeGroupContext(b), kdf.size)
  {
    if EncodeKdfLabel("joiner", EncodeGroupContext(a), kdf.size) == EncodeKdfLabel("epoch", EncodeGroupContext(b), kdf.size) {
      KdfLabelInjective("joiner", EncodeGroupContext(a), kdf.size, "epoch", EncodeGroupContext(b), kdf.size);
    }
  }
}
