/**
 * The MLSMessage envelope, src/message.ts: the protocol version, then a
 * wireformat tag followed by the body that tag announces.
 */
module Message {
  import opened Wrappers
  import opened Bytes
  import opened TlsDecoder
  import opened Wireformat
  import opened ProtocolVersion
  import opened KeyPackage
  import opened PublicMessage
  import opened PrivateMessage
  import opened Welcome
  import opened GroupInfo

  /** One body per wireformat. */
  datatype MlsMessageContent =
    | MlsPublicMessageContent(publicMessage: PublicMessage)
    | MlsWelcomeContent(welcome: Welcome)
    | MlsPrivateMessageContent(privateMessage: PrivateMessage)
    | MlsGroupInfoContent(groupInfo: GroupInfo)
    | MlsKeyPackageContent(keyPackage: KeyPackage)

  datatype MlsMessage = MlsMessage(version: ProtocolVersionName, content: MlsMessageContent)

  function WireformatOfContent(c: MlsMessageContent): WireformatName {
    match c
    case MlsPublicMessageContent(_) => MlsPublicMessage
    case MlsWelcomeContent(_) => MlsWelcome
    case MlsPrivateMessageContent(_) => MlsPrivateMessage
    case MlsGroupInfoContent(_) => MlsGroupInfo
    case MlsKeyPackageContent(_) => MlsKeyPackage
  }

  /** The bodies whose codecs read back what they wrote. */
  predicate CanonicalMlsMessageContent(c: MlsMessageContent) {
    match c
    case MlsPublicMessageContent(m) => CanonicalPublicMessage(m)
    case MlsWelcomeContent(_) => true
    case MlsPrivateMessageContent(_) => true
    case MlsGroupInfoContent(gi) => CanonicalGroupInfoTbs(gi.tbs)
    case MlsKeyPackageContent(kp) => CanonicalKeyPackageTbs(KeyPackageTbsOf(kp)) && kp.leafNode.info.InfoKeyPackage?
  }

  function EncodeMlsMessageBody(c: MlsMessageContent): seq<byte> {
    match c
    case MlsPublicMessageContent(m) => EncodePublicMessage(m)
    case MlsWelcomeContent(w) => EncodeWelcome(w)
    case MlsPrivateMessageContent(m) => EncodePrivateMessage(m)
    case MlsGroupInfoContent(gi) => EncodeGroupInfo(gi)
    case MlsKeyPackageContent(kp) => EncodeKeyPackage(kp)
  }

  /** encodeMlsMessageContent: the wireformat of the body, then the body's own encoding. */
  function EncodeMlsMessageContent(c: MlsMessageContent): seq<byte> {
    EncodeWireformat(WireformatOfContent(c)) + EncodeMlsMessageBody(c)
  }

  function PublicBody(m: PublicMessage): MlsMessageContent { MlsPublicMessageContent(m) }
  function WelcomeBody(w: Welcome): MlsMessageContent { MlsWelcomeContent(w) }
  function PrivateBody(m: PrivateMessage): MlsMessageContent { MlsPrivateMessageContent(m) }
  function GroupInfoBody(gi: GroupInfo): MlsMessageContent { MlsGroupInfoContent(gi) }
  function KeyPackageBody(kp: KeyPackage): MlsMessageContent { MlsKeyPackageContent(kp) }

  /** The body reader a decoded wireformat selects. */
  function MlsMessageBodyDecoder(w: WireformatName): Decoder<MlsMessageContent> {
    match w
    case MlsPublicMessage => MapDecoder(DecodePublicMessage, PublicBody)
    case MlsWelcome => MapDecoder(DecodeWelcome, WelcomeBody)
    case MlsPrivateMessage => MapDecoder(DecodePrivateMessage, PrivateBody)
    case MlsGroupInfo => MapDecoder(DecodeGroupInfo, GroupInfoBody)
    case MlsKeyPackage => MapDecoder(DecodeKeyPackage, KeyPackageBody)
  }

  const DecodeMlsMessageContent: Decoder<MlsMessageContent> := FlatMapDecoder(DecodeWireformat, MlsMessageBodyDecoder)

  /** The version, then the tagged content. */
  function EncodeMlsMessage(m: MlsMessage): seq<byte> {
    EncodeProtocolVersion(m.version) + EncodeMlsMessageContent(m.content)
  }

  const DecodeMlsMessage: Decoder<MlsMessage> :=
    MapDecoders2(DecodeProtocolVersion, DecodeMlsMessageContent, (v: ProtocolVersionName, c: MlsMessageContent) => MlsMessage(v, c))

  /** Each body reads back with the reader of its own wireformat. */
  lemma PublicBodyRoundTrip(m: PublicMessage)
    requires CanonicalPublicMessage(m)
    ensures Decodes(MlsMessageBodyDecoder(MlsPublicMessage), EncodePublicMessage(m), MlsPublicMessageContent(m))
  {
    PublicMessageRoundTrip(m);
    MapDecoderDecodes(DecodePublicMessage, PublicBody, EncodePublicMessage(m), m);
  }

  lemma WelcomeBodyRoundTrip(w: Welcome)
    ensures Decodes(MlsMessageBodyDecoder(MlsWelcome), EncodeWelcome(w), MlsWelcomeContent(w))
  {
    WelcomeRoundTrip(w);
    MapDecoderDecodes(DecodeWelcome, WelcomeBody, EncodeWelcome(w), w);
  }

  lemma PrivateBodyRoundTrip(m: PrivateMessage)
    ensures Decodes(MlsMessageBodyDecoder(MlsPrivateMessage), EncodePrivateMessage(m), MlsPrivateMessageContent(m))
  {
    PrivateMessageRoundTrip(m);
    MapDecoderDecodes(DecodePrivateMessage, PrivateBody, EncodePrivateMessage(m), m);
  }

  lemma GroupInfoBodyRoundTrip(gi: GroupInfo)
    requires CanonicalGroupInfoTbs(gi.tbs)
    ensures Decodes(MlsMessageBodyDecoder(MlsGroupInfo), EncodeGroupInfo(gi), MlsGroupInfoContent(gi))
  {
    GroupInfoRoundTrip(gi);
    MapDecoderDecodes(DecodeGroupInfo, GroupInfoBody, EncodeGroupInfo(gi), gi);
  }

  lemma KeyPackageBodyRoundTrip(kp: KeyPackage)
    requires CanonicalKeyPackageTbs(KeyPackageTbsOf(kp)) && kp.leafNode.info.InfoKeyPackage?
    ensures Decodes(MlsMessageBodyDecoder(MlsKeyPackage), EncodeKeyPackage(kp), MlsKeyPackageContent(kp))
  {
    KeyPackageRoundTrip(kp);
    MapDecoderDecodes(DecodeKeyPackage, KeyPackageBody, EncodeKeyPackage(kp), kp);
  }

  lemma MlsMessageBodyRoundTrip(c: MlsMessageContent)
    requires CanonicalMlsMessageContent(c)
    ensures Decodes(MlsMessageBodyDecoder(WireformatOfContent(c)), EncodeMlsMessageBody(c), c)
  {
    match c
    case MlsPublicMessageContent(m) => PublicBodyRoundTrip(m);
    case MlsWelcomeContent(w) => WelcomeBodyRoundTrip(w);
    case MlsPrivateMessageContent(m) => PrivateBodyRoundTrip(m);
    case MlsGroupInfoContent(gi) => GroupInfoBodyRoundTrip(gi);
    case MlsKeyPackageContent(kp) => KeyPackageBodyRoundTrip(kp);
  }

  lemma MlsMessageContentRoundTrip(c: MlsMessageContent)
    requires CanonicalMlsMessageContent(c)
    ensures Decodes(DecodeMlsMessageContent, EncodeMlsMessageContent(c), c)
  {
    WireformatRoundTrip(WireformatOfContent(c));
    MlsMessageBodyRoundTrip(c);
    FlatMapDecoderDecodes(DecodeWireformat, MlsMessageBodyDecoder, EncodeWireformat(WireformatOfContent(c)),
      EncodeMlsMessageBody(c), WireformatOfContent(c), c);
  }

  /** A message reads back with its version merged into the content read after it. */
  lemma MlsMessageRoundTrip(m: MlsMessage)
    requires CanonicalMlsMessageContent(m.content)
    ensures Decodes(DecodeMlsMessage, EncodeMlsMessage(m), m)
  {
    ProtocolVersionRoundTrip(m.version);
    MlsMessageContentRoundTrip(m.content);
    MapDecoders2Decodes(DecodeProtocolVersion, DecodeMlsMessageContent,
      (v: ProtocolVersionName, c: MlsMessageContent) => MlsMessage(v, c),
      EncodeProtocolVersion(m.version), EncodeMlsMessageContent(m.content), m.version, m.content);
  }

  /** A content read by the public-message body reader is a public message, and likewise for the other four readers. */
  lemma PublicBodyTagged(b: seq<byte>, o: nat)
    requires MlsMessageBodyDecoder(MlsPublicMessage)(b, o).Some?
    ensures MlsMessageBodyDecoder(MlsPublicMessage)(b, o).value.0.MlsPublicMessageContent?
  {
    MapDecoderBehaviour(DecodePublicMessage, PublicBody, b, o);
  }

  lemma WelcomeBodyTagged(b: seq<byte>, o: nat)
    requires MlsMessageBodyDecoder(MlsWelcome)(b, o).Some?
    ensures MlsMessageBodyDecoder(MlsWelcome)(b, o).value.0.MlsWelcomeContent?
  {
    MapDecoderBehaviour(DecodeWelcome, WelcomeBody, b, o);
  }

  lemma PrivateBodyTagged(b: seq<byte>, o: nat)
    requires MlsMessageBodyDecoder(MlsPrivateMessage)(b, o).Some?
    ensures MlsMessageBodyDecoder(MlsPrivateMessage)(b, o).value.0.MlsPrivateMessageContent?
  {
    MapDecoderBehaviour(DecodePrivateMessage, PrivateBody, b, o);
  }

  lemma GroupInfoBodyTagged(b: seq<byte>, o: nat)
    requires MlsMessageBodyDecoder(MlsGroupInfo)(b, o).Some?
    ensures MlsMessageBodyDecoder(MlsGroupInfo)(b, o).value.0.MlsGroupInfoContent?
  {
    MapDecoderBehaviour(DecodeGroupInfo, GroupInfoBody, b, o);
  }

  lemma KeyPackageBodyTagged(b: seq<byte>, o: nat)
    requires MlsMessageBodyDecoder(MlsKeyPackage)(b, o).Some?
    ensures MlsMessageBodyDecoder(MlsKeyPackage)(b, o).value.0.MlsKeyPackageContent?
  {
    MapDecoderBehaviour(DecodeKeyPackage, KeyPackageBody, b, o);
  }

  /** The content a message carries is what the body reader of its tag's wireformat reads after the tag. */
  lemma DecodedContentIsBody(b: seq<byte>, o: nat, t: WireformatName, l: nat)
    requires DecodeWireformat(b, o) == Some((t, l))
    requires DecodeMlsMessageContent(b, o).Some?
    ensures MlsMessageBodyDecoder(t)(b, o + l).Some?
    ensures DecodeMlsMessageContent(b, o).value.0 == MlsMessageBodyDecoder(t)(b, o + l).value.0
  {
    FlatMapDecoderAndMapBehaviour(DecodeWireformat, MlsMessageBodyDecoder, (t: WireformatName, u: MlsMessageContent) => u, b, o);
  }

  /**
   * The content a message carries is of the wireformat its tag announces:
   * a content whose tag reads as public_message is a public message, and
   * likewise for the other four.
   */
  lemma DecodedPublicTagged(b: seq<byte>, o: nat, l: nat)
    requires DecodeWireformat(b, o) == Some((MlsPublicMessage, l))
    requires DecodeMlsMessageContent(b, o).Some?
    ensures DecodeMlsMessageContent(b, o).value.0.MlsPublicMessageContent?
  {
    DecodedContentIsBody(b, o, MlsPublicMessage, l);
    PublicBodyTagged(b, o + l);
  }

  lemma DecodedWelcomeTagged(b: seq<byte>, o: nat, l: nat)
    requires DecodeWireformat(b, o) == Some((MlsWelcome, l))
    requires DecodeMlsMessageContent(b, o).Some?
    ensures DecodeMlsMessageContent(b, o).value.0.MlsWelcomeContent?
  {
    DecodedContentIsBody(b, o, MlsWelcome, l);
    WelcomeBodyTagged(b, o + l);
  }

  lemma DecodedPrivateTagged(b: seq<byte>, o: nat, l: nat)
    requires DecodeWireformat(b, o) == Some((MlsPrivateMessage, l))
    requires DecodeMlsMessageContent(b, o).Some?
    ensures DecodeMlsMessageContent(b, o).value.0.MlsPrivateMessageContent?
  {
    DecodedContentIsBody(b, o, MlsPrivateMessage, l);
    PrivateBodyTagged(b, o + l);
  }

  lemma DecodedGroupInfoTagged(b: seq<byte>, o: nat, l: nat)
    requires DecodeWireformat(b, o) == Some((MlsGroupInfo, l))
    requires DecodeMlsMessageContent(b, o).Some?
    ensures DecodeMlsMessageContent(b, o).value.0.MlsGroupInfoContent?
  {
    DecodedContentIsBody(b, o, MlsGroupInfo, l);
    GroupInfoBodyTagged(b, o + l);
  }

  lemma DecodedKeyPackageTagged(b: seq<byte>, o: nat, l: nat)
    requires DecodeWireformat(b, o) == Some((MlsKeyPackage, l))
    requires DecodeMlsMessageContent(b, o).Some?
    ensures DecodeMlsMessageContent(b, o).value.0.MlsKeyPackageContent?
  {
    DecodedContentIsBody(b, o, MlsKeyPackage, l);
    KeyPackageBodyTagged(b, o + l);
  }
}
