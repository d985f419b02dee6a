/**
 * Authenticated content, src/authenticatedContent.ts: the wireformat, the
 * framed content and its authentication data on the wire, the
 * to-be-MACed structure behind the membership tag, and proposal references.
 */
module AuthenticatedContent {
  import opened Wrappers
  import opened Bytes
  import opened TlsDecoder
  import opened Wireformat
  import opened Crypto
  import opened FramedContent

  datatype AuthenticatedContent = AuthenticatedContent(
    wireformat: WireformatName,
    content: FramedContent,
    auth: FramedContentAuthData)

  /** Canonical content, and auth data of the content's own type. */
  predicate CanonicalAuthenticatedContent(a: AuthenticatedContent) {
    CanonicalFramedContent(a.content) && WellFormedAuthData(a.auth)
      && AuthContentType(a.auth) == ContentTypeOf(a.content)
  }

  function EncodeAuthenticatedContent(a: AuthenticatedContent): seq<byte> {
    EncodeWireformat(a.wireformat) + EncodeFramedContent(a.content) + EncodeFramedContentAuthData(a.auth)
  }

  /** After the content, the auth data is read with the reader for the content's type. */
  function ContentAuthDecoder(c: FramedContent): Decoder<(FramedContent, FramedContentAuthData)> {
    MapDecoder(DecodeFramedContentAuthData(ContentTypeOf(c)), (a: FramedContentAuthData) => (c, a))
  }

  const DecodeContentAndAuth: Decoder<(FramedContent, FramedContentAuthData)> :=
    FlatMapDecoder(DecodeFramedContent, ContentAuthDecoder)

  const DecodeAuthenticatedContent: Decoder<AuthenticatedContent> :=
    MapDecoders2(DecodeWireformat, DecodeContentAndAuth,
      (w: WireformatName, ca: (FramedContent, FramedContentAuthData)) => AuthenticatedContent(w, ca.0, ca.1))

  lemma AuthenticatedContentRoundTrip(a: AuthenticatedContent)
    requires CanonicalAuthenticatedContent(a)
    ensures Decodes(DecodeAuthenticatedContent, EncodeAuthenticatedContent(a), a)
  {
    WireformatRoundTrip(a.wireformat);
    FramedContentRoundTrip(a.content);
    AuthDataRoundTrip(a.auth);
    MapDecoderDecodes(DecodeFramedContentAuthData(ContentTypeOf(a.content)),
      (x: FramedContentAuthData) => (a.content, x), EncodeFramedContentAuthData(a.auth), a.auth);
    FlatMapDecoderDecodes(DecodeFramedContent, ContentAuthDecoder,
      EncodeFramedContent(a.content), EncodeFramedContentAuthData(a.auth), a.content, (a.content, a.auth));
    MapDecoders2Decodes(DecodeWireformat, DecodeContentAndAuth,
      (w: WireformatName, ca: (FramedContent, FramedContentAuthData)) => AuthenticatedContent(w, ca.0, ca.1),
      EncodeWireformat(a.wireformat), EncodeFramedContent(a.content) + EncodeFramedContentAuthData(a.auth),
      a.wireformat, (a.content, a.auth));
    assert EncodeWireformat(a.wireformat) + (EncodeFramedContent(a.content) + EncodeFramedContentAuthData(a.auth))
      == EncodeAuthenticatedContent(a);
  }

  /** Two canonical authenticated contents with the same encoding are the same. */
  lemma AuthenticatedContentEncodingInjective(a1: AuthenticatedContent, a2: AuthenticatedContent)
    requires CanonicalAuthenticatedContent(a1) && CanonicalAuthenticatedContent(a2)
    requires EncodeAuthenticatedContent(a1) == EncodeAuthenticatedContent(a2)
    ensures a1 == a2
  {
    AuthenticatedContentRoundTrip(a1);
    AuthenticatedContentRoundTrip(a2);
    DecodesUnique(DecodeAuthenticatedContent, EncodeAuthenticatedContent(a1), a1, a2);
  }

  // ---------------------------------------------------------------------
  // The membership tag
  // ---------------------------------------------------------------------

  datatype AuthenticatedContentTbm = AuthenticatedContentTbm(contentTbs: FramedContentTbs, auth: FramedContentAuthData)

  /** The encoded TBS, then the encoded auth data. */
  function EncodeAuthenticatedContentTbm(t: AuthenticatedContentTbm): seq<byte> {
    EncodeFramedContentTbs(t.contentTbs) + EncodeFramedContentAuthData(t.auth)
  }

  /** createMembershipTag: the MAC of the encoded TBM under the membership key. */
  function CreateMembershipTag(h: Hash, membershipKey: seq<byte>, tbm: AuthenticatedContentTbm): seq<byte> {
    h.mac(membershipKey, EncodeAuthenticatedContentTbm(tbm))
  }

  /** verifyMembershipTag: MAC verification over the same encoded TBM. */
  function VerifyMembershipTag(h: Hash, membershipKey: seq<byte>, tbm: AuthenticatedContentTbm, tag: seq<byte>): bool {
    h.verifyMac(membershipKey, tag, EncodeAuthenticatedContentTbm(tbm))
  }

  /** A membership tag created for a TBM verifies for it under the same key. */
  lemma MembershipTagVerifies(h: Hash, membershipKey: seq<byte>, tbm: AuthenticatedContentTbm)
    requires MacConsistent(h)
    ensures VerifyMembershipTag(h, membershipKey, tbm, CreateMembershipTag(h, membershipKey, tbm))
  {
  }

  // ---------------------------------------------------------------------
  // Proposal references
  // ---------------------------------------------------------------------

  const ProposalRefLabel := "MLS 1.0 Proposal Reference"

  /** makeProposalRef: the reference hash of the encoded authenticated content. */
  function MakeProposalRef(h: Hash, proposal: AuthenticatedContent): seq<byte> {
    RefHash(h, ProposalRefLabel, EncodeAuthenticatedContent(proposal))
  }

  /**
   * The bytes hashed into a proposal reference determine the authenticated
   * content: two references hash the same input only for the same proposal.
   */
  lemma ProposalRefInputBindsContent(p1: AuthenticatedContent, p2: AuthenticatedContent)
    requires CanonicalAuthenticatedContent(p1) && CanonicalAuthenticatedContent(p2)
    requires EncodeRefHash(ProposalRefLabel, EncodeAuthenticatedContent(p1)) == EncodeRefHash(ProposalRefLabel, EncodeAuthenticatedContent(p2))
    ensures p1 == p2
  {
    RefHashInputInjective(ProposalRefLabel, EncodeAuthenticatedContent(p1), ProposalRefLabel, EncodeAuthenticatedContent(p2));
    AuthenticatedContentEncodingInjective(p1, p2);
  }
}
