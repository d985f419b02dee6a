/**
 * Group info, src/groupInfo.ts: the signed description of a group a joiner
 * receives, its codec, its signature and confirmation-tag checks, the tree
 * carried in its ratchet_tree extension, and the welcome secret.
 */
module GroupInfo {
  import opened Wrappers
  import opened Bytes
  import opened TlsDecoder
  import opened Number
  import opened VariableLength
  import opened Extension
  import opened DefaultExtensionType
  import opened GroupContext
  import opened Crypto

  datatype GroupInfoTbs = GroupInfoTbs(
    groupContext: GroupContext,
    extensions: seq<Extension>,
    confirmationTag: seq<byte>,
    signer: uint32)

  datatype GroupInfo = GroupInfo(tbs: GroupInfoTbs, signature: seq<byte>)

  predicate CanonicalGroupInfoTbs(t: GroupInfoTbs) {
    CanonicalGroupContext(t.groupContext) && CanonicalExtensions(t.extensions)
  }

  /** Group context, extensions, var-len confirmation tag, 4-byte signer leaf index. */
  function EncodeGroupInfoTbs(t: GroupInfoTbs): seq<byte> {
    EncodeGroupContext(t.groupContext) + EncodeVarLenType(EncodeExtension, t.extensions)
      + EncodeVarLenData(t.confirmationTag) + EncodeUint32(t.signer)
  }

  const DecodeGroupInfoTbs: Decoder<GroupInfoTbs> :=
    MapDecoders4(DecodeGroupContext, DecodeVarLenType(DecodeExtension), DecodeVarLenData, DecodeUint32,
      (gc: GroupContext, es: seq<Extension>, tag: seq<byte>, s: uint32) => GroupInfoTbs(gc, es, tag, s))

  lemma GroupInfoTbsRoundTrip(t: GroupInfoTbs)
    requires CanonicalGroupInfoTbs(t)
    ensures Decodes(DecodeGroupInfoTbs, EncodeGroupInfoTbs(t), t)
  {
    GroupContextRoundTrip(t.groupContext);
    ExtensionsRoundTrip(t.extensions);
    VarLenDataRoundTrip(t.confirmationTag);
    Uint32RoundTrip(t.signer);
    MapDecoders4Decodes(DecodeGroupContext, DecodeVarLenType(DecodeExtension), DecodeVarLenData, DecodeUint32,
      (gc: GroupContext, es: seq<Extension>, tag: seq<byte>, s: uint32) => GroupInfoTbs(gc, es, tag, s),
      EncodeGroupContext(t.groupContext), EncodeVarLenType(EncodeExtension, t.extensions),
      EncodeVarLenData(t.confirmationTag), EncodeUint32(t.signer),
      t.groupContext, t.extensions, t.confirmationTag, t.signer);
  }

  /** The TBS, then the var-len signature. */
  function EncodeGroupInfo(gi: GroupInfo): seq<byte> {
    EncodeGroupInfoTbs(gi.tbs) + EncodeVarLenData(gi.signature)
  }

  const DecodeGroupInfo: Decoder<GroupInfo> :=
    MapDecoders2(DecodeGroupInfoTbs, DecodeVarLenData, (t: GroupInfoTbs, s: seq<byte>) => GroupInfo(t, s))

  lemma GroupInfoRoundTrip(gi: GroupInfo)
    requires CanonicalGroupInfoTbs(gi.tbs)
    ensures Decodes(DecodeGroupInfo, EncodeGroupInfo(gi), gi)
  {
    GroupInfoTbsRoundTrip(gi.tbs);
    VarLenDataRoundTrip(gi.signature);
    MapDecoders2Decodes(DecodeGroupInfoTbs, DecodeVarLenData, (t: GroupInfoTbs, s: seq<byte>) => GroupInfo(t, s),
      EncodeGroupInfoTbs(gi.tbs), EncodeVarLenData(gi.signature), gi.tbs, gi.signature);
  }

  // ---------------------------------------------------------------------
  // The ratchet_tree extension
  // ---------------------------------------------------------------------

  const RatchetTreeType := Named(DefaultExtensionTypeName.RatchetTree)

  /**
   * ratchetTreeFromExtension, for a tree decoder `decodeTree` (the tree
   * codec lives outside this model): none without a ratchet_tree
   * extension; otherwise the first such extension decoded, a CodecError
   * when it does not decode.
   */
  function RatchetTreeFromExtension<T>(info: GroupInfo, decodeTree: Decoder<T>): (r: Result<Option<T>>)
    ensures r == Ok(None) <==> ExtensionsOfType(info.tbs.extensions, RatchetTreeType) == []
    ensures r.Err? ==> r.error == CodecError
  {
    var trees := ExtensionsOfType(info.tbs.extensions, RatchetTreeType);
    if trees == [] then Ok(None)
    else
      var decoded := decodeTree(trees[0].extensionData, 0);
      if decoded.None? then Err(CodecError) else Ok(Some(decoded.value.0))
  }

  /**
   * The tree found is the one encoded in the first ratchet_tree extension,
   * whatever follows it and whatever extensions come after.
   */
  lemma RatchetTreeFromFirstExtension<T>(info: GroupInfo, decodeTree: Decoder<T>, k: nat, encoded: seq<byte>, tree: T, rest: seq<byte>)
    requires k < |info.tbs.extensions| && info.tbs.extensions[k].extensionType == RatchetTreeType
    requires forall j :: 0 <= j < k ==> info.tbs.extensions[j].extensionType != RatchetTreeType
    requires info.tbs.extensions[k].extensionData == encoded + rest && Decodes(decodeTree, encoded, tree)
    ensures RatchetTreeFromExtension(info, decodeTree) == Ok(Some(tree))
  {
    var es := info.tbs.extensions;
    FilteredPosition(es, RatchetTreeType, k);
    ExtensionsOfTypeNone(es[..k], RatchetTreeType);
    var b := encoded + rest;
    assert b[0..0 + |encoded|] == encoded;
  }

  // ---------------------------------------------------------------------
  // Signature, confirmation tag, welcome secret
  // ---------------------------------------------------------------------

  const GroupInfoTbsLabel := "GroupInfoTBS"

  /** signGroupInfo: the TBS with its signature under label "GroupInfoTBS". */
  function SignGroupInfo(s: SignatureScheme, tbs: GroupInfoTbs, privateKey: seq<byte>): (r: GroupInfo)
    ensures r.tbs == tbs
  {
    GroupInfo(tbs, SignWithLabel(s, privateKey, GroupInfoTbsLabel, EncodeGroupInfoTbs(tbs)))
  }

  function VerifyGroupInfoSignature(s: SignatureScheme, gi: GroupInfo, publicKey: seq<byte>): bool {
    VerifyWithLabel(s, publicKey, GroupInfoTbsLabel, EncodeGroupInfoTbs(gi.tbs), gi.signature)
  }

  /** A signed group info verifies under the matching public key. */
  lemma SignedGroupInfoVerifies(s: SignatureScheme, tbs: GroupInfoTbs, publicKey: seq<byte>, privateKey: seq<byte>)
    requires SignatureConsistent(s, publicKey, privateKey)
    ensures VerifyGroupInfoSignature(s, SignGroupInfo(s, tbs, privateKey), publicKey)
  {
    SignThenVerify(s, publicKey, privateKey, GroupInfoTbsLabel, EncodeGroupInfoTbs(tbs));
  }

  /** The confirmation key of the epoch the group info describes. */
  function ConfirmationKey(gi: GroupInfo, joinerSecret: seq<byte>, pskSecret: seq<byte>, kdf: Kdf): seq<byte> {
    DeriveSecret(kdf, ExtractEpochSecret(gi.tbs.groupContext, joinerSecret, kdf, Some(pskSecret)), "confirm")
  }

  /** verifyGroupInfoConfirmationTag: the tag is a MAC of the context's confirmed transcript hash under the confirmation key. */
  function VerifyGroupInfoConfirmationTag(gi: GroupInfo, joinerSecret: seq<byte>, pskSecret: seq<byte>, cs: CiphersuiteImpl): bool {
    cs.hash.verifyMac(ConfirmationKey(gi, joinerSecret, pskSecret, cs.kdf), gi.tbs.confirmationTag, gi.tbs.groupContext.confirmedTranscriptHash)
  }

  /**
   * A group info whose tag the committer computed from the same joiner and
   * PSK secrets passes the joiner's check.
   */
  lemma ConfirmationTagOfEpochVerifies(gi: GroupInfo, joinerSecret: seq<byte>, pskSecret: seq<byte>, cs: CiphersuiteImpl)
    requires MacConsistent(cs.hash)
    requires gi.tbs.confirmationTag == cs.hash.mac(ConfirmationKey(gi, joinerSecret, pskSecret, cs.kdf), gi.tbs.groupContext.confirmedTranscriptHash)
    ensures VerifyGroupInfoConfirmationTag(gi, joinerSecret, pskSecret, cs)
  {
  }

  /** extractWelcomeSecret: extract(joiner, psk), then deriveSecret with label "welcome". */
  function ExtractWelcomeSecret(joinerSecret: seq<byte>, pskSecret: seq<byte>, kdf: Kdf): seq<byte> {
    DeriveSecret(kdf, kdf.extract(joinerSecret, pskSecret), "welcome")
  }
}
