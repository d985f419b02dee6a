/** Key packages, src/keyPackage.ts (section 10 of RFC 9420), and the comparisons of src/keyPackageEqualityConfig.ts. */
module KeyPackage {
  import opened Wrappers
  import opened Bytes
  import opened TlsDecoder
  import opened VariableLength
  import opened ProtocolVersion
  import opened Ciphersuite
  import opened Credential
  import opened Capabilities
  import opened Extension
  import opened LeafNodeSource
  import opened Lifetime
  import opened Crypto
  import opened LeafNode

  datatype KeyPackageTbs = KeyPackageTbs(
    version: ProtocolVersionName,
    cipherSuite: CiphersuiteName,
    initKey: seq<byte>,
    leafNode: LeafNode,
    extensions: seq<Extension>)

  datatype KeyPackage = KeyPackage(
    version: ProtocolVersionName,
    cipherSuite: CiphersuiteName,
    initKey: seq<byte>,
    leafNode: LeafNode,
    extensions: seq<Extension>,
    signature: seq<byte>)

  /** The package without its signature. */
  function KeyPackageTbsOf(kp: KeyPackage): (r: KeyPackageTbs)
    ensures WithSignature(r, kp.signature) == kp
  {
    KeyPackageTbs(kp.version, kp.cipherSuite, kp.initKey, kp.leafNode, kp.extensions)
  }

  function WithSignature(t: KeyPackageTbs, signature: seq<byte>): KeyPackage {
    KeyPackage(t.version, t.cipherSuite, t.initKey, t.leafNode, t.extensions, signature)
  }

  predicate CanonicalKeyPackageTbs(t: KeyPackageTbs) {
    CanonicalLeafNode(t.leafNode) && CanonicalExtensions(t.extensions)
  }

  /** Version, ciphersuite, var-len init key, leaf node, extensions. */
  function EncodeKeyPackageTbs(t: KeyPackageTbs): seq<byte> {
    EncodeProtocolVersion(t.version) + EncodeCiphersuite(t.cipherSuite) + EncodeVarLenData(t.initKey)
    + EncodeLeafNode(t.leafNode) + EncodeVarLenType(EncodeExtension, t.extensions)
  }

  /** The leaf is read with the decoder that accepts only the key_package source. */
  const DecodeKeyPackageTbs: Decoder<KeyPackageTbs> :=
    MapDecoders5(DecodeProtocolVersion, DecodeCiphersuite, DecodeVarLenData, DecodeLeafNodeKeyPackage,
      DecodeVarLenType(DecodeExtension),
      (v: ProtocolVersionName, cs: CiphersuiteName, k: seq<byte>, l: LeafNode, es: seq<Extension>) =>
        KeyPackageTbs(v, cs, k, l, es))

  function EncodeKeyPackage(kp: KeyPackage): seq<byte> {
    EncodeKeyPackageTbs(KeyPackageTbsOf(kp)) + EncodeVarLenData(kp.signature)
  }

  const DecodeKeyPackage: Decoder<KeyPackage> :=
    MapDecoders2(DecodeKeyPackageTbs, DecodeVarLenData, (t: KeyPackageTbs, s: seq<byte>) => WithSignature(t, s))

  /** The start of a package whose leaf has a credential type with no decoder arm. */
  function CustomCredentialKeyPackagePrefix(v: ProtocolVersionName, cs: CiphersuiteName, initKey: seq<byte>,
    hpk: seq<byte>, spk: seq<byte>, code: uint16): seq<byte>
  {
    EncodeProtocolVersion(v) + EncodeCiphersuite(cs) + EncodeVarLenData(initKey) + CustomCredentialLeafPrefix(hpk, spk, code)
  }

  /** Such a package does not decode, whatever follows the credential type. */
  lemma CustomCredentialKeyPackageRejected(v: ProtocolVersionName, cs: CiphersuiteName, initKey: seq<byte>,
    hpk: seq<byte>, spk: seq<byte>, code: uint16, rest: seq<byte>)
    requires code != 1 && code != 2
    ensures Rejects(DecodeKeyPackage, CustomCredentialKeyPackagePrefix(v, cs, initKey, hpk, spk, code) + rest)
  {
    var ev, ec, ek := EncodeProtocolVersion(v), EncodeCiphersuite(cs), EncodeVarLenData(initKey);
    var leaf := CustomCredentialLeafPrefix(hpk, spk, code) + rest;
    assert CustomCredentialKeyPackagePrefix(v, cs, initKey, hpk, spk, code) + rest == ev + ec + ek + leaf;
    ProtocolVersionRoundTrip(v);
    CiphersuiteRoundTrip(cs);
    VarLenDataRoundTrip(initKey);
    CustomCredentialLeafRejected(hpk, spk, code, rest);
    assert Rejects(DecodeLeafNodeKeyPackage, leaf) by {
      assert Rejects(SourceFilteredDecoder(KeyPackageSource), leaf);
    }
    MapDecoders5RejectsFourth(DecodeProtocolVersion, DecodeCiphersuite, DecodeVarLenData, DecodeLeafNodeKeyPackage,
      DecodeVarLenType(DecodeExtension),
      (v: ProtocolVersionName, cs: CiphersuiteName, k: seq<byte>, l: LeafNode, es: seq<Extension>) =>
        KeyPackageTbs(v, cs, k, l, es),
      ev, ec, ek, v, cs, initKey, leaf);
    MapDecoders2RejectsFirst(DecodeKeyPackageTbs, DecodeVarLenData, (t: KeyPackageTbs, s: seq<byte>) => WithSignature(t, s),
      ev + ec + ek + leaf);
  }

  /** A package whose leaf has the key_package source reads back unchanged. */
  lemma KeyPackageTbsRoundTrip(t: KeyPackageTbs)
    requires CanonicalKeyPackageTbs(t) && t.leafNode.info.InfoKeyPackage?
    ensures Decodes(DecodeKeyPackageTbs, EncodeKeyPackageTbs(t), t)
  {
    ProtocolVersionRoundTrip(t.version);
    CiphersuiteRoundTrip(t.cipherSuite);
    VarLenDataRoundTrip(t.initKey);
    SourceFilteredRoundTrip(KeyPackageSource, t.leafNode);
    ExtensionsRoundTrip(t.extensions);
    MapDecoders5Decodes(DecodeProtocolVersion, DecodeCiphersuite, DecodeVarLenData, DecodeLeafNodeKeyPackage,
      DecodeVarLenType(DecodeExtension),
      (v: ProtocolVersionName, cs: CiphersuiteName, k: seq<byte>, l: LeafNode, es: seq<Extension>) =>
        KeyPackageTbs(v, cs, k, l, es),
      EncodeProtocolVersion(t.version), EncodeCiphersuite(t.cipherSuite), EncodeVarLenData(t.initKey),
      EncodeLeafNode(t.leafNode), EncodeVarLenType(EncodeExtension, t.extensions),
      t.version, t.cipherSuite, t.initKey, t.leafNode, t.extensions);
  }

  lemma KeyPackageRoundTrip(kp: KeyPackage)
    requires CanonicalKeyPackageTbs(KeyPackageTbsOf(kp)) && kp.leafNode.info.InfoKeyPackage?
    ensures |EncodeKeyPackage(kp)| > 0
    ensures Decodes(DecodeKeyPackage, EncodeKeyPackage(kp), kp)
  {
    var t := KeyPackageTbsOf(kp);
    KeyPackageTbsRoundTrip(t);
    VarLenDataRoundTrip(kp.signature);
    MapDecoders2Decodes(DecodeKeyPackageTbs, DecodeVarLenData, (t: KeyPackageTbs, s: seq<byte>) => WithSignature(t, s),
      EncodeKeyPackageTbs(t), EncodeVarLenData(kp.signature), t, kp.signature);
  }

  /** A package whose leaf has another source is a decode failure. */
  lemma KeyPackageRejectsOtherLeaf(t: KeyPackageTbs, rest: seq<byte>)
    requires CanonicalLeafNode(t.leafNode) && !t.leafNode.info.InfoKeyPackage?
    ensures Rejects(DecodeKeyPackageTbs,
      EncodeProtocolVersion(t.version) + EncodeCiphersuite(t.cipherSuite) + EncodeVarLenData(t.initKey)
      + EncodeLeafNode(t.leafNode) + rest)
  {
    ProtocolVersionRoundTrip(t.version);
    CiphersuiteRoundTrip(t.cipherSuite);
    VarLenDataRoundTrip(t.initKey);
    SourceFilteredRoundTrip(KeyPackageSource, t.leafNode);
    RejectsExtended(DecodeLeafNodeKeyPackage, EncodeLeafNode(t.leafNode), rest);
    MapDecoders5RejectsFourth(DecodeProtocolVersion, DecodeCiphersuite, DecodeVarLenData, DecodeLeafNodeKeyPackage,
      DecodeVarLenType(DecodeExtension),
      (v: ProtocolVersionName, cs: CiphersuiteName, k: seq<byte>, l: LeafNode, es: seq<Extension>) =>
        KeyPackageTbs(v, cs, k, l, es),
      EncodeProtocolVersion(t.version), EncodeCiphersuite(t.cipherSuite), EncodeVarLenData(t.initKey),
      t.version, t.cipherSuite, t.initKey, EncodeLeafNode(t.leafNode) + rest);
    assert EncodeProtocolVersion(t.version) + EncodeCiphersuite(t.cipherSuite) + EncodeVarLenData(t.initKey)
      + (EncodeLeafNode(t.leafNode) + rest)
      == EncodeProtocolVersion(t.version) + EncodeCiphersuite(t.cipherSuite) + EncodeVarLenData(t.initKey)
      + EncodeLeafNode(t.leafNode) + rest;
  }

  /** makeKeyPackageRef: the reference hash of the whole encoded package. */
  function MakeKeyPackageRef(h: Hash, kp: KeyPackage): seq<byte> {
    RefHash(h, "MLS 1.0 KeyPackage Reference", EncodeKeyPackage(kp))
  }

  /** Two packages with the same reference input are the same package, when neither is rejected by the decoder. */
  lemma KeyPackageRefInputInjective(a: KeyPackage, b: KeyPackage)
    requires CanonicalKeyPackageTbs(KeyPackageTbsOf(a)) && a.leafNode.info.InfoKeyPackage?
    requires CanonicalKeyPackageTbs(KeyPackageTbsOf(b)) && b.leafNode.info.InfoKeyPackage?
    requires EncodeRefHash("MLS 1.0 KeyPackage Reference", EncodeKeyPackage(a))
      == EncodeRefHash("MLS 1.0 KeyPackage Reference", EncodeKeyPackage(b))
    ensures a == b
  {
    RefHashInputInjective("MLS 1.0 KeyPackage Reference", EncodeKeyPackage(a), "MLS 1.0 KeyPackage Reference", EncodeKeyPackage(b));
    assert EncodeKeyPackage(a) == EncodeKeyPackage(b);
    KeyPackageRoundTrip(a);
    KeyPackageRoundTrip(b);
    DecodesUnique(DecodeKeyPackage, EncodeKeyPackage(a), a, b);
  }

  function SignKeyPackage(s: SignatureScheme, t: KeyPackageTbs, signKey: seq<byte>): (r: KeyPackage)
    ensures KeyPackageTbsOf(r) == t
  {
    WithSignature(t, SignWithLabel(s, signKey, "KeyPackageTBS", EncodeKeyPackageTbs(t)))
  }

  /** The signature is checked against the leaf's signature key. */
  function VerifyKeyPackage(s: SignatureScheme, kp: KeyPackage): bool {
    VerifyWithLabel(s, kp.leafNode.data.signaturePublicKey, "KeyPackageTBS", EncodeKeyPackageTbs(KeyPackageTbsOf(kp)), kp.signature)
  }

  lemma SignedKeyPackageVerifies(s: SignatureScheme, t: KeyPackageTbs, signKey: seq<byte>)
    requires SignatureConsistent(s, t.leafNode.data.signaturePublicKey, signKey)
    ensures VerifyKeyPackage(s, SignKeyPackage(s, t, signKey))
  {
    SignThenVerify(s, t.leafNode.data.signaturePublicKey, signKey, "KeyPackageTBS", EncodeKeyPackageTbs(t));
  }

  datatype PrivateKeyPackage = PrivateKeyPackage(initPrivateKey: seq<byte>, hpkePrivateKey: seq<byte>, signaturePrivateKey: seq<byte>)

  /**
   * generateKeyPackage, with the three freshly generated key pairs passed in
   * (the signature key pair, the init key pair and the leaf's encryption key
   * pair). The given extensions go both into the leaf and into the package.
   */
  function GenerateKeyPackage(cs: CiphersuiteImpl, sigKeys: KeyPair, initKeys: KeyPair, hpkeKeys: KeyPair,
    credential: Credential, capabilities: Capabilities, lifetime: Lifetime, extensions: seq<Extension>): (r: (KeyPackage, PrivateKeyPackage))
    ensures var kp := r.0;
      && kp.version == Mls10 && kp.cipherSuite == cs.name && kp.initKey == initKeys.publicKey
      && kp.leafNode.info == InfoKeyPackage(lifetime)
      && kp.leafNode.data == LeafNodeData(hpkeKeys.publicKey, sigKeys.publicKey, credential, capabilities)
      && kp.leafNode.extensions == extensions && kp.extensions == extensions
    ensures r.1 == PrivateKeyPackage(initKeys.privateKey, hpkeKeys.privateKey, sigKeys.privateKey)
  {
    var leafTbs := LeafNodeTbs(LeafNodeData(hpkeKeys.publicKey, sigKeys.publicKey, credential, capabilities),
      InfoKeyPackage(lifetime), extensions, KeyPackageOnly);
    var leaf := SignLeafNodeKeyPackage(cs.signature, leafTbs, sigKeys.privateKey);
    var tbs := KeyPackageTbs(Mls10, cs.name, initKeys.publicKey, leaf, extensions);
    (SignKeyPackage(cs.signature, tbs, sigKeys.privateKey),
     PrivateKeyPackage(initKeys.privateKey, hpkeKeys.privateKey, sigKeys.privateKey))
  }

  /** With a consistent signature key pair, a generated package and its leaf both verify. */
  lemma GeneratedKeyPackageVerifies(cs: CiphersuiteImpl, sigKeys: KeyPair, initKeys: KeyPair, hpkeKeys: KeyPair,
    credential: Credential, capabilities: Capabilities, lifetime: Lifetime, extensions: seq<Extension>)
    requires SignatureConsistent(cs.signature, sigKeys.publicKey, sigKeys.privateKey)
    ensures var kp := GenerateKeyPackage(cs, sigKeys, initKeys, hpkeKeys, credential, capabilities, lifetime, extensions).0;
      VerifyKeyPackage(cs.signature, kp) && VerifyLeafNodeSignatureKeyPackage(cs.signature, kp.leafNode)
  {
    var leafTbs := LeafNodeTbs(LeafNodeData(hpkeKeys.publicKey, sigKeys.publicKey, credential, capabilities),
      InfoKeyPackage(lifetime), extensions, KeyPackageOnly);
    SignedKeyPackageLeafVerifies(cs.signature, leafTbs, sigKeys.privateKey, [], 0);
    var leaf := SignLeafNodeKeyPackage(cs.signature, leafTbs, sigKeys.privateKey);
    SignedKeyPackageVerifies(cs.signature, KeyPackageTbs(Mls10, cs.name, initKeys.publicKey, leaf, extensions), sigKeys.privateKey);
  }

  // src/keyPackageEqualityConfig.ts

  /** The default comparison: the two leaves' signature keys are byte-equal. */
  function CompareKeyPackages(a: KeyPackage, b: KeyPackage): bool {
    a.leafNode.data.signaturePublicKey == b.leafNode.data.signaturePublicKey
  }

  function CompareKeyPackageToLeafNode(a: KeyPackage, b: LeafNode): bool {
    a.leafNode.data.signaturePublicKey == b.data.signaturePublicKey
  }

  /**
   * Both comparisons look at nothing but the signature keys, so they form
   * an equivalence and agree with each other on the package's own leaf.
   */
  lemma ComparisonsOnlySeeSignatureKeys(a: KeyPackage, a': KeyPackage, b: KeyPackage, c: KeyPackage, l: LeafNode)
    requires a'.leafNode.data.signaturePublicKey == a.leafNode.data.signaturePublicKey
    ensures CompareKeyPackages(a', b) == CompareKeyPackages(a, b)
    ensures CompareKeyPackageToLeafNode(a', l) == CompareKeyPackageToLeafNode(a, l)
    ensures CompareKeyPackages(a, a)
    ensures CompareKeyPackages(a, b) == CompareKeyPackages(b, a)
    ensures CompareKeyPackages(a, b) && CompareKeyPackages(b, c) ==> CompareKeyPackages(a, c)
    ensures CompareKeyPackages(a, b) <==> CompareKeyPackageToLeafNode(a, b.leafNode)
  {
  }
}
