/**
 * Private messages. src/privateMessage.ts and src/sender.ts are not part of
 * this model; the wire forms here are those of section 6.3 of RFC 9420, as
 * src/messageProtection.ts fills them in: the private message, the
 * additional data of its content and of its sender data, the sender data and
 * its encryption, and the encrypted private message content.
 */
module PrivateMessage {
  import opened Wrappers
  import opened Bytes
  import opened TlsDecoder
  import opened Number
  import opened VariableLength
  import opened ContentType
  import opened Wireformat
  import opened Crypto
  import opened Sender
  import opened FramedContent
  import opened AuthenticatedContent

  // ---------------------------------------------------------------------
  // The content AAD and the private message
  // ---------------------------------------------------------------------

  /** The additional data the content ciphertext is bound to. */
  datatype PrivateContentAad = PrivateContentAad(
    groupId: seq<byte>,
    epoch: uint64,
    contentType: ContentTypeName,
    authenticatedData: seq<byte>)

  /** Var-len group id, 8-byte epoch, content type, var-len authenticated data. */
  function EncodePrivateContentAad(a: PrivateContentAad): seq<byte> {
    EncodeVarLenData(a.groupId) + EncodeUint64(a.epoch) + EncodeContentType(a.contentType) + EncodeVarLenData(a.authenticatedData)
  }

  const DecodePrivateContentAad: Decoder<PrivateContentAad> :=
    MapDecoders4(DecodeVarLenData, DecodeUint64, DecodeContentType, DecodeVarLenData,
      (g: seq<byte>, e: uint64, t: ContentTypeName, a: seq<byte>) => PrivateContentAad(g, e, t, a))

  lemma PrivateContentAadRoundTrip(a: PrivateContentAad)
    ensures Decodes(DecodePrivateContentAad, EncodePrivateContentAad(a), a)
  {
    VarLenDataRoundTrip(a.groupId);
    Uint64RoundTrip(a.epoch);
    ContentTypeRoundTrip(a.contentType);
    VarLenDataRoundTrip(a.authenticatedData);
    MapDecoders4Decodes(DecodeVarLenData, DecodeUint64, DecodeContentType, DecodeVarLenData,
      (g: seq<byte>, e: uint64, t: ContentTypeName, a: seq<byte>) => PrivateContentAad(g, e, t, a),
      EncodeVarLenData(a.groupId), EncodeUint64(a.epoch), EncodeContentType(a.contentType), EncodeVarLenData(a.authenticatedData),
      a.groupId, a.epoch, a.contentType, a.authenticatedData);
  }

  datatype PrivateMessage = PrivateMessage(
    groupId: seq<byte>,
    epoch: uint64,
    contentType: ContentTypeName,
    authenticatedData: seq<byte>,
    encryptedSenderData: seq<byte>,
    ciphertext: seq<byte>)

  /** The content AAD a private message carries in the clear. */
  function ContentAadOf(m: PrivateMessage): PrivateContentAad {
    PrivateContentAad(m.groupId, m.epoch, m.contentType, m.authenticatedData)
  }

  /** The clear fields, shared with the content AAD, then the var-len encrypted sender data and ciphertext. */
  function EncodePrivateMessage(m: PrivateMessage): seq<byte> {
    EncodePrivateContentAad(ContentAadOf(m)) + EncodeVarLenData(m.encryptedSenderData) + EncodeVarLenData(m.ciphertext)
  }

  const DecodePrivateMessage: Decoder<PrivateMessage> :=
    MapDecoders3(DecodePrivateContentAad, DecodeVarLenData, DecodeVarLenData,
      (a: PrivateContentAad, s: seq<byte>, c: seq<byte>) =>
        PrivateMessage(a.groupId, a.epoch, a.contentType, a.authenticatedData, s, c))

  lemma PrivateMessageRoundTrip(m: PrivateMessage)
    ensures |EncodePrivateMessage(m)| > 0
    ensures Decodes(DecodePrivateMessage, EncodePrivateMessage(m), m)
  {
    PrivateContentAadRoundTrip(ContentAadOf(m));
    VarLenDataRoundTrip(m.encryptedSenderData);
    VarLenDataRoundTrip(m.ciphertext);
    MapDecoders3Decodes(DecodePrivateContentAad, DecodeVarLenData, DecodeVarLenData,
      (a: PrivateContentAad, s: seq<byte>, c: seq<byte>) =>
        PrivateMessage(a.groupId, a.epoch, a.contentType, a.authenticatedData, s, c),
      EncodePrivateContentAad(ContentAadOf(m)), EncodeVarLenData(m.encryptedSenderData), EncodeVarLenData(m.ciphertext),
      ContentAadOf(m), m.encryptedSenderData, m.ciphertext);
  }

  // ---------------------------------------------------------------------
  // Sender data and its additional data
  // ---------------------------------------------------------------------

  /** The sender's leaf, the generation of the key used, and the 4-byte reuse guard. */
  datatype SenderData = SenderData(leafIndex: uint32, generation: uint32, reuseGuard: seq<byte>)

  predicate WellFormedSenderData(s: SenderData) {
    |s.reuseGuard| == 4
  }

  /** Exactly `n` raw bytes. */
  function DecodeFixedBytes(n: nat): Decoder<seq<byte>> {
    (b: seq<byte>, o: nat) => if o + n <= |b| then Some((b[o..o + n], n)) else None
  }

  lemma FixedBytesRoundTrip(x: seq<byte>)
    ensures Decodes(DecodeFixedBytes(|x|), x, x)
  {
  }

  /** 4-byte leaf index, 4-byte generation, the reuse guard as it is. */
  function EncodeSenderData(s: SenderData): seq<byte> {
    EncodeUint32(s.leafIndex) + EncodeUint32(s.generation) + s.reuseGuard
  }

  const DecodeSenderData: Decoder<SenderData> :=
    MapDecoders3(DecodeUint32, DecodeUint32, DecodeFixedBytes(4),
      (l: uint32, g: uint32, r: seq<byte>) => SenderData(l, g, r))

  lemma SenderDataRoundTrip(s: SenderData)
    requires WellFormedSenderData(s)
    ensures Decodes(DecodeSenderData, EncodeSenderData(s), s)
  {
    Uint32RoundTrip(s.leafIndex);
    Uint32RoundTrip(s.generation);
    FixedBytesRoundTrip(s.reuseGuard);
    MapDecoders3Decodes(DecodeUint32, DecodeUint32, DecodeFixedBytes(4),
      (l: uint32, g: uint32, r: seq<byte>) => SenderData(l, g, r),
      EncodeUint32(s.leafIndex), EncodeUint32(s.generation), s.reuseGuard, s.leafIndex, s.generation, s.reuseGuard);
  }

  /** The additional data of the sender data: the content AAD without the authenticated data. */
  datatype SenderDataAad = SenderDataAad(groupId: seq<byte>, epoch: uint64, contentType: ContentTypeName)

  function SenderDataAadOf(m: PrivateMessage): SenderDataAad {
    SenderDataAad(m.groupId, m.epoch, m.contentType)
  }

  function EncodeSenderDataAad(a: SenderDataAad): seq<byte> {
    EncodeVarLenData(a.groupId) + EncodeUint64(a.epoch) + EncodeContentType(a.contentType)
  }

  const DecodeSenderDataAad: Decoder<SenderDataAad> :=
    MapDecoders3(DecodeVarLenData, DecodeUint64, DecodeContentType,
      (g: seq<byte>, e: uint64, t: ContentTypeName) => SenderDataAad(g, e, t))

  lemma SenderDataAadRoundTrip(a: SenderDataAad)
    ensures Decodes(DecodeSenderDataAad, EncodeSenderDataAad(a), a)
  {
    VarLenDataRoundTrip(a.groupId);
    Uint64RoundTrip(a.epoch);
    ContentTypeRoundTrip(a.contentType);
    MapDecoders3Decodes(DecodeVarLenData, DecodeUint64, DecodeContentType,
      (g: seq<byte>, e: uint64, t: ContentTypeName) => SenderDataAad(g, e, t),
      EncodeVarLenData(a.groupId), EncodeUint64(a.epoch), EncodeContentType(a.contentType), a.groupId, a.epoch, a.contentType);
  }

  // ---------------------------------------------------------------------
  // Sender data encryption (section 6.3.2 of RFC 9420)
  // ---------------------------------------------------------------------

  /** The first `KDF.Nh` bytes of the content ciphertext, or all of it when it is shorter. */
  function CiphertextSample(kdf: Kdf, ciphertext: seq<byte>): (r: seq<byte>)
    ensures |r| <= kdf.size as nat && r <= ciphertext
  {
    if |ciphertext| <= kdf.size as nat then ciphertext else ciphertext[..kdf.size]
  }

  function SenderDataKey(cs: CiphersuiteImpl, senderDataSecret: seq<byte>, ciphertext: seq<byte>): seq<byte> {
    ExpandWithLabel(cs.kdf, senderDataSecret, "key", CiphertextSample(cs.kdf, ciphertext), cs.hpke.keyLength)
  }

  function SenderDataNonce(cs: CiphersuiteImpl, senderDataSecret: seq<byte>, ciphertext: seq<byte>): seq<byte> {
    ExpandWithLabel(cs.kdf, senderDataSecret, "nonce", CiphertextSample(cs.kdf, ciphertext), cs.hpke.nonceLength)
  }

  /** encryptSenderData: the encoded sender data under the key and nonce drawn from the content ciphertext. */
  function EncryptSenderData(senderDataSecret: seq<byte>, senderData: SenderData, aad: SenderDataAad, ciphertext: seq<byte>,
    cs: CiphersuiteImpl): seq<byte>
  {
    cs.hpke.encryptAead(SenderDataKey(cs, senderDataSecret, ciphertext), SenderDataNonce(cs, senderDataSecret, ciphertext),
      EncodeSenderDataAad(aad), EncodeSenderData(senderData))
  }

  /** decryptSenderData: none when the AEAD rejects the bytes or they do not decode. */
  function DecryptSenderData(m: PrivateMessage, senderDataSecret: seq<byte>, cs: CiphersuiteImpl): Option<SenderData> {
    var decrypted := cs.hpke.decryptAead(SenderDataKey(cs, senderDataSecret, m.ciphertext),
      SenderDataNonce(cs, senderDataSecret, m.ciphertext), EncodeSenderDataAad(SenderDataAadOf(m)), m.encryptedSenderData);
    if decrypted.None? then None
    else
      var decoded := DecodeSenderData(decrypted.value, 0);
      if decoded.None? then None else Some(decoded.value.0)
  }

  /**
   * Sender data encrypted for the message's own group id, epoch, content
   * type and ciphertext decrypts back to itself.
   */
  lemma SenderDataDecrypts(m: PrivateMessage, senderDataSecret: seq<byte>, senderData: SenderData, cs: CiphersuiteImpl)
    requires AeadConsistent(cs.hpke) && WellFormedSenderData(senderData)
    requires m.encryptedSenderData == EncryptSenderData(senderDataSecret, senderData, SenderDataAadOf(m), m.ciphertext, cs)
    ensures DecryptSenderData(m, senderDataSecret, cs) == Some(senderData)
  {
    var _ := cs.hpke.encryptAead(SenderDataKey(cs, senderDataSecret, m.ciphertext), SenderDataNonce(cs, senderDataSecret, m.ciphertext),
      EncodeSenderDataAad(SenderDataAadOf(m)), EncodeSenderData(senderData));
    SenderDataRoundTrip(senderData);
    var e := EncodeSenderData(senderData);
    assert e[0..0 + |e|] == e;
  }

  // ---------------------------------------------------------------------
  // The private message content
  // ---------------------------------------------------------------------

  /** The body, its auth data and the number of zero bytes of padding after them. */
  datatype PrivateMessageContent = PrivateMessageContent(info: FramedContentInfo, auth: FramedContentAuthData, padding: nat)

  predicate CanonicalPrivateMessageContent(c: PrivateMessageContent) {
    CanonicalFramedContentInfo(c.info) && WellFormedAuthData(c.auth) && AuthContentType(c.auth) == ContentTypeOfInfo(c.info)
  }

  /** The body without its content type (the message carries it), the auth data, then the zero padding. */
  function EncodePrivateMessageContent(c: PrivateMessageContent): seq<byte> {
    EncodeFramedContentBody(c.info) + EncodeFramedContentAuthData(c.auth) + Zeros(c.padding)
  }

  /** The rest of the buffer, which must be all zero; it reports how many bytes that was. */
  const DecodeZeroPadding: Decoder<nat> :=
    (b: seq<byte>, o: nat) =>
      if o <= |b| && forall k | o <= k < |b| :: b[k] == 0 then var n: nat := |b| - o; Some((n, n)) else None

  function BodyAndAuthDecoder(t: ContentTypeName): Decoder<(FramedContentInfo, FramedContentAuthData)> {
    MapDecoders2(FramedContentInfoBodyDecoder(t), DecodeFramedContentAuthData(t),
      (i: FramedContentInfo, a: FramedContentAuthData) => (i, a))
  }

  /** decodePrivateMessageContent: the body and auth readers of the message's content type, then the padding. */
  function DecodePrivateMessageContent(t: ContentTypeName): Decoder<PrivateMessageContent> {
    FlatMapDecoderAndMap(BodyAndAuthDecoder(t), (_: (FramedContentInfo, FramedContentAuthData)) => DecodeZeroPadding,
      (x: (FramedContentInfo, FramedContentAuthData), n: nat) => PrivateMessageContent(x.0, x.1, n))
  }

  /** The body and auth data of a canonical content read back from the front of any buffer that starts with them. */
  lemma BodyAndAuthReads(c: PrivateMessageContent, b: seq<byte>)
    requires CanonicalPrivateMessageContent(c)
    requires var head := EncodeFramedContentBody(c.info) + EncodeFramedContentAuthData(c.auth);
      |head| <= |b| && b[..|head|] == head
    ensures BodyAndAuthDecoder(ContentTypeOfInfo(c.info))(b, 0)
      == Some(((c.info, c.auth), |EncodeFramedContentBody(c.info) + EncodeFramedContentAuthData(c.auth)|))
  {
    var t := ContentTypeOfInfo(c.info);
    FramedContentBodyRoundTrip(c.info);
    AuthDataRoundTrip(c.auth);
    MapDecoders2Decodes(FramedContentInfoBodyDecoder(t), DecodeFramedContentAuthData(t),
      (i: FramedContentInfo, a: FramedContentAuthData) => (i, a),
      EncodeFramedContentBody(c.info), EncodeFramedContentAuthData(c.auth), c.info, c.auth);
    var head := EncodeFramedContentBody(c.info) + EncodeFramedContentAuthData(c.auth);
    assert b[0..0 + |head|] == head;
  }

  /** A decrypted plaintext that is exactly an encoded content reads back as that content. */
  lemma PrivateMessageContentRoundTrip(c: PrivateMessageContent)
    requires CanonicalPrivateMessageContent(c)
    ensures DecodePrivateMessageContent(ContentTypeOfInfo(c.info))(EncodePrivateMessageContent(c), 0)
      == Some((c, |EncodePrivateMessageContent(c)|))
  {
    var t := ContentTypeOfInfo(c.info);
    var head := EncodeFramedContentBody(c.info) + EncodeFramedContentAuthData(c.auth);
    var b := EncodePrivateMessageContent(c);
    assert b[..|head|] == head;
    BodyAndAuthReads(c, b);
    assert b[|head|..] == Zeros(c.padding);
    assert DecodeZeroPadding(b, |head|) == Some((c.padding, c.padding));
    FlatMapDecoderAndMapBehaviour(BodyAndAuthDecoder(t), (_: (FramedContentInfo, FramedContentAuthData)) => DecodeZeroPadding,
      (x: (FramedContentInfo, FramedContentAuthData), n: nat) => PrivateMessageContent(x.0, x.1, n), b, 0);
  }

  /** A non-zero byte in the padding makes the content undecodable. */
  lemma NonZeroPaddingRejected(c: PrivateMessageContent, k: nat)
    requires CanonicalPrivateMessageContent(c) && k < c.padding
    ensures var e := EncodePrivateMessageContent(c);
      var h := |e| - c.padding;
      DecodePrivateMessageContent(ContentTypeOfInfo(c.info))(e[h + k := 1], 0).None?
  {
    var t := ContentTypeOfInfo(c.info);
    var head := EncodeFramedContentBody(c.info) + EncodeFramedContentAuthData(c.auth);
    var e := EncodePrivateMessageContent(c);
    var b := e[|head| + k := 1];
    assert b[..|head|] == head;
    BodyAndAuthReads(c, b);
    assert b[|head| + k] == 1;
    assert DecodeZeroPadding(b, |head|).None?;
    FlatMapDecoderAndMapBehaviour(BodyAndAuthDecoder(t), (_: (FramedContentInfo, FramedContentAuthData)) => DecodeZeroPadding,
      (x: (FramedContentInfo, FramedContentAuthData), n: nat) => PrivateMessageContent(x.0, x.1, n), b, 0);
  }

  /**
   * toAuthenticatedContent: the decrypted body and auth framed with the
   * message's clear fields and the member sender of the sender data.
   */
  function ToAuthenticatedContent(c: PrivateMessageContent, m: PrivateMessage, leafIndex: uint32): (r: AuthenticatedContent)
    ensures r.wireformat == MlsPrivateMessage && r.content.sender == Member(leafIndex)
    ensures r.content.groupId == m.groupId && r.content.epoch == m.epoch && r.content.authenticatedData == m.authenticatedData
    ensures r.content.info == c.info && r.auth == c.auth
  {
    AuthenticatedContent(MlsPrivateMessage, FramedContent(m.groupId, m.epoch, Member(leafIndex), m.authenticatedData, c.info), c.auth)
  }
}
