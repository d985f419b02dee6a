/**
 * Leaf nodes of the ratchet tree, src/leafNode.ts (the LeafNode struct of
 * section 7.2 of RFC 9420). The source merges its parts by object spread;
 * here a leaf keeps them as four fields: the data, the source-specific info,
 * the extensions and the signature.
 */
module LeafNode {
  import opened Wrappers
  import opened Bytes
  import opened TlsDecoder
  import opened Number
  import opened VariableLength
  import opened CredentialType
  import opened Credential
  import opened Capabilities
  import opened Extension
  import opened LeafNodeSource
  import opened Lifetime
  import opened Crypto

  datatype LeafNodeData = LeafNodeData(
    hpkePublicKey: seq<byte>,
    signaturePublicKey: seq<byte>,
    credential: Credential,
    capabilities: Capabilities)

  /** What the leaf node source adds: a lifetime for key_package, nothing for update, a parent hash for commit. */
  datatype LeafNodeInfo =
    | InfoKeyPackage(lifetime: Lifetime)
    | InfoUpdate
    | InfoCommit(parentHash: seq<byte>)

  datatype LeafNode = LeafNode(data: LeafNodeData, info: LeafNodeInfo, extensions: seq<Extension>, signature: seq<byte>)

  function InfoSource(i: LeafNodeInfo): LeafNodeSourceName {
    match i
    case InfoKeyPackage(_) => KeyPackageSource
    case InfoUpdate => UpdateSource
    case InfoCommit(_) => CommitSource
  }

  /** A leaf reads back unchanged when its credential has a decoder arm and its types are in canonical form. */
  predicate CanonicalLeafNodeData(d: LeafNodeData) {
    !d.credential.CredentialCustom? && CanonicalCapabilities(d.capabilities)
  }

  predicate CanonicalLeafNode(l: LeafNode) {
    CanonicalLeafNodeData(l.data) && CanonicalExtensions(l.extensions)
  }

  function EncodeLeafNodeData(d: LeafNodeData): seq<byte> {
    EncodeVarLenData(d.hpkePublicKey) + EncodeVarLenData(d.signaturePublicKey)
    + EncodeCredential(d.credential) + EncodeCapabilities(d.capabilities)
  }

  const DecodeLeafNodeData: Decoder<LeafNodeData> :=
    MapDecoders4(DecodeVarLenData, DecodeVarLenData, DecodeCredential, DecodeCapabilities,
      (hpk: seq<byte>, spk: seq<byte>, c: Credential, caps: Capabilities) => LeafNodeData(hpk, spk, c, caps))

  /** The source octet, then the lifetime, nothing, or the var-len parent hash. */
  function EncodeLeafNodeInfo(i: LeafNodeInfo): (r: seq<byte>)
    ensures |r| >= 1 && r[..1] == EncodeLeafNodeSource(InfoSource(i))
  {
    match i
    case InfoKeyPackage(lt) => EncodeLeafNodeSource(KeyPackageSource) + EncodeLifetime(lt)
    case InfoUpdate => EncodeLeafNodeSource(UpdateSource)
    case InfoCommit(ph) => EncodeLeafNodeSource(CommitSource) + EncodeVarLenData(ph)
  }

  const DecodeLeafNodeInfoLifetime: Decoder<LeafNodeInfo> := MapDecoder(DecodeLifetime, (lt: Lifetime) => InfoKeyPackage(lt))

  const DecodeLeafNodeInfoCommit: Decoder<LeafNodeInfo> := MapDecoder(DecodeVarLenData, (ph: seq<byte>) => InfoCommit(ph))

  function LeafNodeInfoBodyDecoder(s: LeafNodeSourceName): Decoder<LeafNodeInfo> {
    match s
    case KeyPackageSource => DecodeLeafNodeInfoLifetime
    case UpdateSource => SucceedDecoder(InfoUpdate)
    case CommitSource => DecodeLeafNodeInfoCommit
  }

  const DecodeLeafNodeInfo: Decoder<LeafNodeInfo> := FlatMapDecoder(DecodeLeafNodeSource, LeafNodeInfoBodyDecoder)

  /** Every info reads back as itself; update consumes the source octet and nothing more. */
  lemma LeafNodeInfoRoundTrip(i: LeafNodeInfo)
    ensures i.InfoUpdate? ==> |EncodeLeafNodeInfo(i)| == 1
    ensures Decodes(DecodeLeafNodeInfo, EncodeLeafNodeInfo(i), i)
  {
    var s := InfoSource(i);
    LeafNodeSourceRoundTrip(s);
    match i
    case InfoKeyPackage(lt) =>
      LifetimeRoundTrip(lt);
      MapDecoderDecodes(DecodeLifetime, (lt: Lifetime) => InfoKeyPackage(lt), EncodeLifetime(lt), lt);
      FlatMapDecoderDecodes(DecodeLeafNodeSource, LeafNodeInfoBodyDecoder, EncodeLeafNodeSource(s), EncodeLifetime(lt), s, i);
    case InfoUpdate =>
      SucceedDecoderDecodes(InfoUpdate);
      FlatMapDecoderDecodes(DecodeLeafNodeSource, LeafNodeInfoBodyDecoder, EncodeLeafNodeSource(s), [], s, i);
      assert EncodeLeafNodeSource(s) + [] == EncodeLeafNodeInfo(i);
    case InfoCommit(ph) =>
      VarLenDataRoundTrip(ph);
      MapDecoderDecodes(DecodeVarLenData, (ph: seq<byte>) => InfoCommit(ph), EncodeVarLenData(ph), ph);
      FlatMapDecoderDecodes(DecodeLeafNodeSource, LeafNodeInfoBodyDecoder, EncodeLeafNodeSource(s), EncodeVarLenData(ph), s, i);
  }

  lemma LeafNodeDataRoundTrip(d: LeafNodeData)
    requires CanonicalLeafNodeData(d)
    ensures Decodes(DecodeLeafNodeData, EncodeLeafNodeData(d), d)
  {
    VarLenDataRoundTrip(d.hpkePublicKey);
    VarLenDataRoundTrip(d.signaturePublicKey);
    CredentialRoundTrip(d.credential);
    CapabilitiesRoundTrip(d.capabilities);
    MapDecoders4Decodes(DecodeVarLenData, DecodeVarLenData, DecodeCredential, DecodeCapabilities,
      (hpk: seq<byte>, spk: seq<byte>, c: Credential, caps: Capabilities) => LeafNodeData(hpk, spk, c, caps),
      EncodeVarLenData(d.hpkePublicKey), EncodeVarLenData(d.signaturePublicKey),
      EncodeCredential(d.credential), EncodeCapabilities(d.capabilities),
      d.hpkePublicKey, d.signaturePublicKey, d.credential, d.capabilities);
  }

  /** Data, info, extensions, then the var-len signature. */
  function EncodeLeafNode(l: LeafNode): seq<byte> {
    EncodeLeafNodeData(l.data) + EncodeLeafNodeInfo(l.info)
    + EncodeVarLenType(EncodeExtension, l.extensions) + EncodeVarLenData(l.signature)
  }

  const DecodeLeafNode: Decoder<LeafNode> :=
    MapDecoders4(DecodeLeafNodeData, DecodeLeafNodeInfo, DecodeVarLenType(DecodeExtension), DecodeVarLenData,
      (d: LeafNodeData, i: LeafNodeInfo, es: seq<Extension>, s: seq<byte>) => LeafNode(d, i, es, s))

  lemma LeafNodeRoundTrip(l: LeafNode)
    requires CanonicalLeafNode(l)
    ensures |EncodeLeafNode(l)| > 0
    ensures Decodes(DecodeLeafNode, EncodeLeafNode(l), l)
  {
    LeafNodeDataRoundTrip(l.data);
    LeafNodeInfoRoundTrip(l.info);
    ExtensionsRoundTrip(l.extensions);
    VarLenDataRoundTrip(l.signature);
    MapDecoders4Decodes(DecodeLeafNodeData, DecodeLeafNodeInfo, DecodeVarLenType(DecodeExtension), DecodeVarLenData,
      (d: LeafNodeData, i: LeafNodeInfo, es: seq<Extension>, s: seq<byte>) => LeafNode(d, i, es, s),
      EncodeLeafNodeData(l.data), EncodeLeafNodeInfo(l.info),
      EncodeVarLenType(EncodeExtension, l.extensions), EncodeVarLenData(l.signature),
      l.data, l.info, l.extensions, l.signature);
  }

  function OnlySource(s: LeafNodeSourceName): LeafNode -> Option<LeafNode> {
    (l: LeafNode) => if InfoSource(l.info) == s then Some(l) else None
  }

  /** The leaf decoders that accept only one leaf node source. */
  const DecodeLeafNodeKeyPackage: Decoder<LeafNode> := MapDecoderOption(DecodeLeafNode, OnlySource(KeyPackageSource))
  const DecodeLeafNodeCommit: Decoder<LeafNode> := MapDecoderOption(DecodeLeafNode, OnlySource(CommitSource))
  const DecodeLeafNodeUpdate: Decoder<LeafNode> := MapDecoderOption(DecodeLeafNode, OnlySource(UpdateSource))

  /** The start of a leaf whose credential type has no decoder arm: the two keys, then that type. */
  function CustomCredentialLeafPrefix(hpk: seq<byte>, spk: seq<byte>, code: uint16): seq<byte> {
    EncodeVarLenData(hpk) + EncodeVarLenData(spk) + EncodeCredentialType(CustomCredentialType(code))
  }

  /**
   * A leaf whose credential type is neither basic nor x509 does not decode,
   * under any of the leaf decoders, whatever follows the credential type.
   */
  lemma CustomCredentialLeafRejected(hpk: seq<byte>, spk: seq<byte>, code: uint16, rest: seq<byte>)
    requires code != 1 && code != 2
    ensures Rejects(DecodeLeafNode, CustomCredentialLeafPrefix(hpk, spk, code) + rest)
    ensures forall s: LeafNodeSourceName :: Rejects(SourceFilteredDecoder(s), CustomCredentialLeafPrefix(hpk, spk, code) + rest)
  {
    var p := EncodeCredentialType(CustomCredentialType(code));
    CustomCredentialRejected(code, []);
    assert p + [] == p;
    VarLenDataRoundTrip(hpk);
    VarLenDataRoundTrip(spk);
    MapDecoders4RejectsThird(DecodeVarLenData, DecodeVarLenData, DecodeCredential, DecodeCapabilities,
      (hpk: seq<byte>, spk: seq<byte>, c: Credential, caps: Capabilities) => LeafNodeData(hpk, spk, c, caps),
      EncodeVarLenData(hpk), EncodeVarLenData(spk), hpk, spk, p);
    var prefix := CustomCredentialLeafPrefix(hpk, spk, code);
    MapDecoders2RejectsFirst(DecodeLeafNodeData,
      MapDecoders3(DecodeLeafNodeInfo, DecodeVarLenType(DecodeExtension), DecodeVarLenData,
        (y: LeafNodeInfo, z: seq<Extension>, w: seq<byte>) => (y, z, w)),
      (x: LeafNodeData, t: (LeafNodeInfo, seq<Extension>, seq<byte>)) => LeafNode(x, t.0, t.1, t.2), prefix);
    RejectsExtended(DecodeLeafNode, prefix, rest);
    forall s: LeafNodeSourceName
      ensures Rejects(SourceFilteredDecoder(s), prefix + rest)
    {
      var e := prefix + rest;
      forall b: seq<byte>, o: nat | o + |e| <= |b| && b[o..o + |e|] == e
        ensures SourceFilteredDecoder(s)(b, o).None?
      {
        assert DecodeLeafNode(b, o).None?;
      }
    }
  }

  function SourceFilteredDecoder(s: LeafNodeSourceName): (r: Decoder<LeafNode>)
    ensures s == KeyPackageSource ==> r == DecodeLeafNodeKeyPackage
    ensures s == CommitSource ==> r == DecodeLeafNodeCommit
    ensures s == UpdateSource ==> r == DecodeLeafNodeUpdate
  {
    MapDecoderOption(DecodeLeafNode, OnlySource(s))
  }

  /** A source-filtered decoder reads back a leaf of its own source and rejects the encoding of any other. */
  lemma SourceFilteredRoundTrip(s: LeafNodeSourceName, l: LeafNode)
    requires CanonicalLeafNode(l)
    ensures InfoSource(l.info) == s ==> Decodes(SourceFilteredDecoder(s), EncodeLeafNode(l), l)
    ensures InfoSource(l.info) != s ==> Rejects(SourceFilteredDecoder(s), EncodeLeafNode(l))
  {
    LeafNodeRoundTrip(l);
    if InfoSource(l.info) == s {
      MapDecoderOptionDecodes(DecodeLeafNode, OnlySource(s), EncodeLeafNode(l), l, l);
    } else {
      MapDecoderOptionRejects(DecodeLeafNode, OnlySource(s), EncodeLeafNode(l), l);
    }
  }

  /**
   * The group binding of the to-be-signed form. A leaf of source
   * key_package is not bound to a group: its binding is empty on the wire
   * even when it names a group and an index.
   */
  datatype LeafNodeGroupInfo =
    | KeyPackageOnly
    | GroupIdLeafIndex(source: LeafNodeSourceName, groupId: seq<byte>, leafIndex: uint32)

  function EncodeLeafNodeGroupInfo(g: LeafNodeGroupInfo): (r: seq<byte>)
    ensures g.KeyPackageOnly? ==> r == []
    ensures g.GroupIdLeafIndex? && g.source == KeyPackageSource ==> r == []
    ensures g.GroupIdLeafIndex? && g.source != KeyPackageSource ==>
      r == EncodeVarLenData(g.groupId) + EncodeUint32(g.leafIndex)
  {
    match g
    case KeyPackageOnly => []
    case GroupIdLeafIndex(s, gid, i) =>
      if s == KeyPackageSource then [] else EncodeVarLenData(gid) + EncodeUint32(i)
  }

  datatype LeafNodeTbs = LeafNodeTbs(data: LeafNodeData, info: LeafNodeInfo, extensions: seq<Extension>, groupInfo: LeafNodeGroupInfo)

  function EncodeLeafNodeTbs(t: LeafNodeTbs): seq<byte> {
    EncodeLeafNodeData(t.data) + EncodeLeafNodeInfo(t.info)
    + EncodeVarLenType(EncodeExtension, t.extensions) + EncodeLeafNodeGroupInfo(t.groupInfo)
  }

  /** The to-be-signed form of a leaf for the caller's group and index. */
  function ToTbs(l: LeafNode, groupId: seq<byte>, leafIndex: uint32): (r: LeafNodeTbs)
    ensures r.data == l.data && r.info == l.info && r.extensions == l.extensions
    ensures r.groupInfo == GroupIdLeafIndex(InfoSource(l.info), groupId, leafIndex)
  {
    LeafNodeTbs(l.data, l.info, l.extensions, GroupIdLeafIndex(InfoSource(l.info), groupId, leafIndex))
  }

  /** The signed leaf: the fields of the to-be-signed form and the signature over its encoding. */
  function SignLeafNode(s: SignatureScheme, t: LeafNodeTbs, signaturePrivateKey: seq<byte>): (r: LeafNode)
    ensures r.data == t.data && r.info == t.info && r.extensions == t.extensions
  {
    LeafNode(t.data, t.info, t.extensions, SignWithLabel(s, signaturePrivateKey, "LeafNodeTBS", EncodeLeafNodeTbs(t)))
  }

  /** signLeafNodeCommit: a commit leaf signed for its group and index. */
  function SignLeafNodeCommit(s: SignatureScheme, t: LeafNodeTbs, signaturePrivateKey: seq<byte>): (r: LeafNode)
    requires t.info.InfoCommit? && t.groupInfo.GroupIdLeafIndex? && t.groupInfo.source == CommitSource
    ensures r.info.InfoCommit?
  {
    SignLeafNode(s, t, signaturePrivateKey)
  }

  /** signLeafNodeKeyPackage: a key-package leaf, signed with no group binding. */
  function SignLeafNodeKeyPackage(s: SignatureScheme, t: LeafNodeTbs, signaturePrivateKey: seq<byte>): (r: LeafNode)
    requires t.info.InfoKeyPackage? && t.groupInfo.KeyPackageOnly?
    ensures r.info.InfoKeyPackage?
  {
    SignLeafNode(s, t, signaturePrivateKey)
  }

  function VerifyLeafNodeSignature(s: SignatureScheme, l: LeafNode, groupId: seq<byte>, leafIndex: uint32): bool {
    VerifyWithLabel(s, l.data.signaturePublicKey, "LeafNodeTBS", EncodeLeafNodeTbs(ToTbs(l, groupId, leafIndex)), l.signature)
  }

  function VerifyLeafNodeSignatureKeyPackage(s: SignatureScheme, l: LeafNode): bool {
    VerifyWithLabel(s, l.data.signaturePublicKey, "LeafNodeTBS",
      EncodeLeafNodeTbs(LeafNodeTbs(l.data, l.info, l.extensions, KeyPackageOnly)), l.signature)
  }

  /** A commit leaf signed for a group and index verifies for that group and index. */
  lemma SignedCommitLeafVerifies(s: SignatureScheme, t: LeafNodeTbs, signaturePrivateKey: seq<byte>)
    requires t.info.InfoCommit? && t.groupInfo.GroupIdLeafIndex? && t.groupInfo.source == CommitSource
    requires SignatureConsistent(s, t.data.signaturePublicKey, signaturePrivateKey)
    ensures VerifyLeafNodeSignature(s, SignLeafNodeCommit(s, t, signaturePrivateKey), t.groupInfo.groupId, t.groupInfo.leafIndex)
  {
    var l := SignLeafNodeCommit(s, t, signaturePrivateKey);
    assert ToTbs(l, t.groupInfo.groupId, t.groupInfo.leafIndex) == t;
    SignThenVerify(s, t.data.signaturePublicKey, signaturePrivateKey, "LeafNodeTBS", EncodeLeafNodeTbs(t));
  }

  /** A key-package leaf signed with no group binding verifies, by either verifier and for any group and index. */
  lemma SignedKeyPackageLeafVerifies(s: SignatureScheme, t: LeafNodeTbs, signaturePrivateKey: seq<byte>,
    groupId: seq<byte>, leafIndex: uint32)
    requires t.info.InfoKeyPackage? && t.groupInfo.KeyPackageOnly?
    requires SignatureConsistent(s, t.data.signaturePublicKey, signaturePrivateKey)
    ensures VerifyLeafNodeSignatureKeyPackage(s, SignLeafNodeKeyPackage(s, t, signaturePrivateKey))
    ensures VerifyLeafNodeSignature(s, SignLeafNodeKeyPackage(s, t, signaturePrivateKey), groupId, leafIndex)
  {
    var l := SignLeafNodeKeyPackage(s, t, signaturePrivateKey);
    assert LeafNodeTbs(l.data, l.info, l.extensions, KeyPackageOnly) == t;
    assert EncodeLeafNodeTbs(ToTbs(l, groupId, leafIndex)) == EncodeLeafNodeTbs(t);
    SignThenVerify(s, t.data.signaturePublicKey, signaturePrivateKey, "LeafNodeTBS", EncodeLeafNodeTbs(t));
  }

  /** For a key-package leaf the caller's group and index do not enter the signed bytes. */
  lemma KeyPackageLeafIgnoresGroup(s: SignatureScheme, l: LeafNode, groupId: seq<byte>, leafIndex: uint32)
    requires l.info.InfoKeyPackage?
    ensures VerifyLeafNodeSignature(s, l, groupId, leafIndex) == VerifyLeafNodeSignatureKeyPackage(s, l)
  {
    assert EncodeLeafNodeTbs(ToTbs(l, groupId, leafIndex))
      == EncodeLeafNodeTbs(LeafNodeTbs(l.data, l.info, l.extensions, KeyPackageOnly));
  }
}
