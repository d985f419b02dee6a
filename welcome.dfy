/**
 * Welcome messages, src/welcome.ts: the encrypted group secrets for each
 * new member, the Welcome codec, the welcome key and nonce, and the
 * encryption and decryption of the group info and of the group secrets.
 */
module Welcome {
  import opened Wrappers
  import opened Bytes
  import opened TlsDecoder
  import opened VariableLength
  import opened Ciphersuite
  import opened Crypto
  import opened HpkeCiphertext
  import opened GroupSecrets
  import opened GroupInfo

  datatype EncryptedGroupSecrets = EncryptedGroupSecrets(newMember: seq<byte>, encryptedGroupSecrets: HpkeCiphertext)

  /** The var-len key package reference of the new member, then the HPKE ciphertext. */
  function EncodeEncryptedGroupSecrets(e: EncryptedGroupSecrets): seq<byte> {
    EncodeVarLenData(e.newMember) + EncodeHpkeCiphertext(e.encryptedGroupSecrets)
  }

  const DecodeEncryptedGroupSecrets: Decoder<EncryptedGroupSecrets> :=
    MapDecoders2(DecodeVarLenData, DecodeHpkeCiphertext, (m: seq<byte>, c: HpkeCiphertext) => EncryptedGroupSecrets(m, c))

  lemma EncryptedGroupSecretsRoundTrip(e: EncryptedGroupSecrets)
    ensures |EncodeEncryptedGroupSecrets(e)| > 0
    ensures Decodes(DecodeEncryptedGroupSecrets, EncodeEncryptedGroupSecrets(e), e)
  {
    VarLenDataRoundTrip(e.newMember);
    HpkeCiphertextRoundTrip(e.encryptedGroupSecrets);
    MapDecoders2Decodes(DecodeVarLenData, DecodeHpkeCiphertext, (m: seq<byte>, c: HpkeCiphertext) => EncryptedGroupSecrets(m, c),
      EncodeVarLenData(e.newMember), EncodeHpkeCiphertext(e.encryptedGroupSecrets), e.newMember, e.encryptedGroupSecrets);
  }

  datatype Welcome = Welcome(cipherSuite: CiphersuiteName, secrets: seq<EncryptedGroupSecrets>, encryptedGroupInfo: seq<byte>)

  /** The cipher suite, the list of encrypted secrets, then the var-len encrypted group info. */
  function EncodeWelcome(w: Welcome): seq<byte> {
    EncodeCiphersuite(w.cipherSuite) + EncodeVarLenType(EncodeEncryptedGroupSecrets, w.secrets) + EncodeVarLenData(w.encryptedGroupInfo)
  }

  const DecodeWelcome: Decoder<Welcome> :=
    MapDecoders3(DecodeCiphersuite, DecodeVarLenType(DecodeEncryptedGroupSecrets), DecodeVarLenData,
      (c: CiphersuiteName, s: seq<EncryptedGroupSecrets>, g: seq<byte>) => Welcome(c, s, g))

  lemma WelcomeRoundTrip(w: Welcome)
    ensures Decodes(DecodeWelcome, EncodeWelcome(w), w)
  {
    CiphersuiteRoundTrip(w.cipherSuite);
    forall k | 0 <= k < |w.secrets|
      ensures |EncodeEncryptedGroupSecrets(w.secrets[k])| > 0
        && Decodes(DecodeEncryptedGroupSecrets, EncodeEncryptedGroupSecrets(w.secrets[k]), w.secrets[k])
    {
      EncryptedGroupSecretsRoundTrip(w.secrets[k]);
    }
    VarLenTypeRoundTrip(DecodeEncryptedGroupSecrets, EncodeEncryptedGroupSecrets, w.secrets);
    VarLenDataRoundTrip(w.encryptedGroupInfo);
    MapDecoders3Decodes(DecodeCiphersuite, DecodeVarLenType(DecodeEncryptedGroupSecrets), DecodeVarLenData,
      (c: CiphersuiteName, s: seq<EncryptedGroupSecrets>, g: seq<byte>) => Welcome(c, s, g),
      EncodeCiphersuite(w.cipherSuite), EncodeVarLenType(EncodeEncryptedGroupSecrets, w.secrets), EncodeVarLenData(w.encryptedGroupInfo),
      w.cipherSuite, w.secrets, w.encryptedGroupInfo);
  }

  // ---------------------------------------------------------------------
  // The group info under the welcome key
  // ---------------------------------------------------------------------

  /** welcomeNonce: expandWithLabel(welcomeSecret, "nonce", empty context, the AEAD nonce length). */
  function WelcomeNonce(welcomeSecret: seq<byte>, cs: CiphersuiteImpl): seq<byte> {
    ExpandWithLabel(cs.kdf, welcomeSecret, "nonce", [], cs.hpke.nonceLength)
  }

  /** welcomeKey: expandWithLabel(welcomeSecret, "key", empty context, the AEAD key length). */
  function WelcomeKey(welcomeSecret: seq<byte>, cs: CiphersuiteImpl): seq<byte> {
    ExpandWithLabel(cs.kdf, welcomeSecret, "key", [], cs.hpke.keyLength)
  }

  /** encryptGroupInfo: the encoded group info under the welcome key and nonce, with no additional data. */
  function EncryptGroupInfo(groupInfo: GroupInfo, welcomeSecret: seq<byte>, cs: CiphersuiteImpl): seq<byte> {
    cs.hpke.encryptAead(WelcomeKey(welcomeSecret, cs), WelcomeNonce(welcomeSecret, cs), [], EncodeGroupInfo(groupInfo))
  }

  /**
   * decryptGroupInfo: decrypt with the key and nonce of the welcome secret
   * derived from the joiner and PSK secrets; a decryption failure is an
   * error, bytes that do not decode as a group info give none.
   */
  function DecryptGroupInfo(w: Welcome, joinerSecret: seq<byte>, pskSecret: seq<byte>, cs: CiphersuiteImpl): (r: Result<Option<GroupInfo>>)
    ensures r.Err? ==> r.error == CryptoVerificationError
  {
    var welcomeSecret := ExtractWelcomeSecret(joinerSecret, pskSecret, cs.kdf);
    var decrypted := cs.hpke.decryptAead(WelcomeKey(welcomeSecret, cs), WelcomeNonce(welcomeSecret, cs), [], w.encryptedGroupInfo);
    if decrypted.None? then Err(CryptoVerificationError)
    else
      var decoded := DecodeGroupInfo(decrypted.value, 0);
      if decoded.None? then Ok(None) else Ok(Some(decoded.value.0))
  }

  /**
   * A joiner with the committer's joiner and PSK secrets recovers the
   * group info the committer encrypted into the Welcome.
   */
  lemma GroupInfoDecryptsForJoiner(groupInfo: GroupInfo, joinerSecret: seq<byte>, pskSecret: seq<byte>, cs: CiphersuiteImpl,
    cipherSuite: CiphersuiteName, secrets: seq<EncryptedGroupSecrets>)
    requires AeadConsistent(cs.hpke) && CanonicalGroupInfoTbs(groupInfo.tbs)
    ensures var w := Welcome(cipherSuite, secrets, EncryptGroupInfo(groupInfo, ExtractWelcomeSecret(joinerSecret, pskSecret, cs.kdf), cs));
      DecryptGroupInfo(w, joinerSecret, pskSecret, cs) == Ok(Some(groupInfo))
  {
    var ws := ExtractWelcomeSecret(joinerSecret, pskSecret, cs.kdf);
    var _ := cs.hpke.encryptAead(WelcomeKey(ws, cs), WelcomeNonce(ws, cs), [], EncodeGroupInfo(groupInfo));
    GroupInfoRoundTrip(groupInfo);
    var e := EncodeGroupInfo(groupInfo);
    assert e[0..0 + |e|] == e;
  }

  // ---------------------------------------------------------------------
  // The group secrets under the new member's init key
  // ---------------------------------------------------------------------

  const WelcomeLabel := "Welcome"

  /** encryptGroupSecrets: the encoded secrets sealed under label "Welcome" with the encrypted group info as context. */
  function EncryptGroupSecrets(initKey: seq<byte>, encryptedGroupInfo: seq<byte>, groupSecrets: GroupSecrets, hpke: Hpke): HpkeCiphertext {
    var (kemOutput, ciphertext) := EncryptWithLabel(hpke, initKey, WelcomeLabel, encryptedGroupInfo, EncodeGroupSecrets(groupSecrets));
    HpkeCiphertext(kemOutput, ciphertext)
  }

  /** The position of the first entry addressed to `keyPackageRef` (the source's `find`). */
  function FindSecret(secrets: seq<EncryptedGroupSecrets>, keyPackageRef: seq<byte>): (r: Option<nat>)
    ensures r.Some? ==> (r.value < |secrets| && secrets[r.value].newMember == keyPackageRef
      && forall j :: 0 <= j < r.value ==> secrets[j].newMember != keyPackageRef)
    ensures r.None? ==> forall j :: 0 <= j < |secrets| ==> secrets[j].newMember != keyPackageRef
    decreases |secrets|
  {
    if secrets == [] then None
    else if secrets[0].newMember == keyPackageRef then Some(0)
    else
      var rest := FindSecret(secrets[1..], keyPackageRef);
      if rest.None? then None else Some(rest.value + 1)
  }

  /**
   * decryptGroupSecrets: open the first entry addressed to the key package
   * reference, a ValidationError when there is none; a decryption failure
   * is an error, bytes that do not decode give none.
   */
  function DecryptGroupSecrets(initPrivateKey: seq<byte>, keyPackageRef: seq<byte>, welcome: Welcome, hpke: Hpke): (r: Result<Option<GroupSecrets>>)
    ensures r == Err(ValidationError) <==> FindSecret(welcome.secrets, keyPackageRef).None?
    ensures r.Err? ==> r.error == ValidationError || r.error == CryptoVerificationError
  {
    var found := FindSecret(welcome.secrets, keyPackageRef);
    if found.None? then Err(ValidationError)
    else
      var secret := welcome.secrets[found.value];
      var decrypted := DecryptWithLabel(hpke, initPrivateKey, WelcomeLabel, welcome.encryptedGroupInfo,
        secret.encryptedGroupSecrets.kemOutput, secret.encryptedGroupSecrets.ciphertext);
      if decrypted.None? then Err(CryptoVerificationError)
      else
        var decoded := DecodeGroupSecrets(decrypted.value, 0);
        if decoded.None? then Ok(None) else Ok(Some(decoded.value.0))
  }

  /**
   * A new member whose entry is the first one addressed to its reference
   * recovers the group secrets sealed to its init key.
   */
  lemma GroupSecretsDecryptForMember(w: Welcome, k: nat, keyPackageRef: seq<byte>, initKey: seq<byte>, initPrivateKey: seq<byte>,
    groupSecrets: GroupSecrets, hpke: Hpke)
    requires HpkeConsistent(hpke, initKey, initPrivateKey)
    requires k < |w.secrets|
    requires w.secrets[k] == EncryptedGroupSecrets(keyPackageRef, EncryptGroupSecrets(initKey, w.encryptedGroupInfo, groupSecrets, hpke))
    requires forall j :: 0 <= j < k ==> w.secrets[j].newMember != keyPackageRef
    ensures DecryptGroupSecrets(initPrivateKey, keyPackageRef, w, hpke) == Ok(Some(groupSecrets))
  {
    assert FindSecret(w.secrets, keyPackageRef) == Some(k);
    EncryptThenDecrypt(hpke, initKey, initPrivateKey, WelcomeLabel, w.encryptedGroupInfo, EncodeGroupSecrets(groupSecrets));
    GroupSecretsRoundTrip(groupSecrets);
    var e := EncodeGroupSecrets(groupSecrets);
    assert e[0..0 + |e|] == e;
  }
}
