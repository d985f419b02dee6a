/** Proposals, src/proposal.ts (section 12.1 of RFC 9420). */
module Proposal {
  import opened Wrappers
  import opened Bytes
  import opened TlsDecoder
  import opened Number
  import opened VariableLength
  import opened ProtocolVersion
  import opened Ciphersuite
  import opened Extension
  import opened DefaultProposalType
  import opened PreSharedKey
  import opened LeafNodeSource
  import opened LeafNode
  import opened KeyPackage

  datatype Reinit = Reinit(groupId: seq<byte>, version: ProtocolVersionName, cipherSuite: CiphersuiteName, extensions: seq<Extension>)

  /** The seven proposals with a type of the default table, and a custom proposal with any other number. */
  datatype Proposal =
    | ProposalAdd(keyPackage: KeyPackage)
    | ProposalUpdate(leafNode: LeafNode)
    | ProposalRemove(removed: uint32)
    | ProposalPsk(preSharedKeyId: PreSharedKeyId)
    | ProposalReinit(reinit: Reinit)
    | ProposalExternalInit(kemOutput: seq<byte>)
    | ProposalGroupContextExtensions(extensions: seq<Extension>)
    | ProposalCustom(proposalType: uint16, proposalData: seq<byte>)

  /** The proposal type as the default table names it, if it is one of the seven. */
  function DefaultTypeOf(p: Proposal): (r: Option<DefaultProposalTypeName>)
    ensures r.None? <==> p.ProposalCustom?
  {
    match p
    case ProposalAdd(_) => Some(AddType)
    case ProposalUpdate(_) => Some(UpdateType)
    case ProposalRemove(_) => Some(RemoveType)
    case ProposalPsk(_) => Some(PskType)
    case ProposalReinit(_) => Some(ReinitType)
    case ProposalExternalInit(_) => Some(ExternalInitType)
    case ProposalGroupContextExtensions(_) => Some(GroupContextExtensionsType)
    case ProposalCustom(_, _) => None
  }

  /** The number a proposal's type has on the wire. */
  function ProposalTypeNumber(p: Proposal): (r: uint16)
    ensures p.ProposalCustom? ==> r == p.proposalType
    ensures DefaultTypeOf(p).Some? ==> r == DefaultProposalTypeValue(DefaultTypeOf(p).value)
  {
    if p.ProposalCustom? then p.proposalType else DefaultProposalTypeValue(DefaultTypeOf(p).value)
  }

  function EncodeReinit(r: Reinit): seq<byte> {
    EncodeVarLenData(r.groupId) + EncodeProtocolVersion(r.version) + EncodeCiphersuite(r.cipherSuite)
    + EncodeVarLenType(EncodeExtension, r.extensions)
  }

  const DecodeReinit: Decoder<Reinit> :=
    MapDecoders4(DecodeVarLenData, DecodeProtocolVersion, DecodeCiphersuite, DecodeVarLenType(DecodeExtension),
      (g: seq<byte>, v: ProtocolVersionName, cs: CiphersuiteName, es: seq<Extension>) => Reinit(g, v, cs, es))

  lemma ReinitRoundTrip(r: Reinit)
    requires CanonicalExtensions(r.extensions)
    ensures Decodes(DecodeReinit, EncodeReinit(r), r)
  {
    VarLenDataRoundTrip(r.groupId);
    ProtocolVersionRoundTrip(r.version);
    CiphersuiteRoundTrip(r.cipherSuite);
    ExtensionsRoundTrip(r.extensions);
    MapDecoders4Decodes(DecodeVarLenData, DecodeProtocolVersion, DecodeCiphersuite, DecodeVarLenType(DecodeExtension),
      (g: seq<byte>, v: ProtocolVersionName, cs: CiphersuiteName, es: seq<Extension>) => Reinit(g, v, cs, es),
      EncodeVarLenData(r.groupId), EncodeProtocolVersion(r.version), EncodeCiphersuite(r.cipherSuite),
      EncodeVarLenType(EncodeExtension, r.extensions), r.groupId, r.version, r.cipherSuite, r.extensions);
  }

  /** The body of a default proposal, without its type. */
  function EncodeProposalBody(p: Proposal): seq<byte>
    requires !p.ProposalCustom?
  {
    match p
    case ProposalAdd(kp) => EncodeKeyPackage(kp)
    case ProposalUpdate(l) => EncodeLeafNode(l)
    case ProposalRemove(i) => EncodeUint32(i)
    case ProposalPsk(id) => EncodePskId(id)
    case ProposalReinit(r) => EncodeReinit(r)
    case ProposalExternalInit(k) => EncodeVarLenData(k)
    case ProposalGroupContextExtensions(es) => EncodeVarLenType(EncodeExtension, es)
  }

  /** A default proposal is its 2-byte type and its body; a custom one is its number and its var-len data. */
  function EncodeProposal(p: Proposal): (r: seq<byte>)
    ensures |r| >= 2 && r[..2] == EncodeUint16(ProposalTypeNumber(p))
  {
    if p.ProposalCustom? then EncodeUint16(p.proposalType) + EncodeVarLenData(p.proposalData)
    else EncodeDefaultProposalType(DefaultTypeOf(p).value) + EncodeProposalBody(p)
  }

  const DecodeProposalAdd: Decoder<Proposal> := MapDecoder(DecodeKeyPackage, (kp: KeyPackage) => ProposalAdd(kp))
  /** An update accepts only a leaf of the update source. */
  const DecodeProposalUpdate: Decoder<Proposal> := MapDecoder(DecodeLeafNodeUpdate, (l: LeafNode) => ProposalUpdate(l))
  const DecodeProposalRemove: Decoder<Proposal> := MapDecoder(DecodeUint32, (i: uint32) => ProposalRemove(i))
  const DecodeProposalPsk: Decoder<Proposal> := MapDecoder(DecodePskId, (id: PreSharedKeyId) => ProposalPsk(id))
  const DecodeProposalReinit: Decoder<Proposal> := MapDecoder(DecodeReinit, (r: Reinit) => ProposalReinit(r))
  const DecodeProposalExternalInit: Decoder<Proposal> := MapDecoder(DecodeVarLenData, (k: seq<byte>) => ProposalExternalInit(k))
  const DecodeProposalGroupContextExtensions: Decoder<Proposal> :=
    MapDecoder(DecodeVarLenType(DecodeExtension), (es: seq<Extension>) => ProposalGroupContextExtensions(es))

  function DefaultProposalBodyDecoder(t: DefaultProposalTypeName): Decoder<Proposal> {
    match t
    case AddType => DecodeProposalAdd
    case UpdateType => DecodeProposalUpdate
    case RemoveType => DecodeProposalRemove
    case PskType => DecodeProposalPsk
    case ReinitType => DecodeProposalReinit
    case ExternalInitType => DecodeProposalExternalInit
    case GroupContextExtensionsType => DecodeProposalGroupContextExtensions
  }

  function DecodeProposalCustom(n: uint16): Decoder<Proposal> {
    MapDecoder(DecodeVarLenData, (d: seq<byte>) => ProposalCustom(n, d))
  }

  const DecodeDefaultProposal: Decoder<Proposal> := FlatMapDecoder(DecodeDefaultProposalType, DefaultProposalBodyDecoder)

  const DecodeCustomProposal: Decoder<Proposal> := FlatMapDecoder(DecodeUint16, DecodeProposalCustom)

  /** The default reading is tried first; when it fails as a whole, the same bytes are read as a custom proposal. */
  const DecodeProposal: Decoder<Proposal> := OrDecoder(DecodeDefaultProposal, DecodeCustomProposal)

  /**
   * The proposals that read back as themselves: the parts of a default
   * proposal are in canonical form and an update carries an update leaf;
   * a custom proposal's number is not in the default table.
   */
  predicate CanonicalProposal(p: Proposal) {
    match p
    case ProposalAdd(kp) => CanonicalKeyPackageTbs(KeyPackageTbsOf(kp)) && kp.leafNode.info.InfoKeyPackage?
    case ProposalUpdate(l) => CanonicalLeafNode(l) && l.info.InfoUpdate?
    case ProposalRemove(_) => true
    case ProposalPsk(_) => true
    case ProposalReinit(r) => CanonicalExtensions(r.extensions)
    case ProposalExternalInit(_) => true
    case ProposalGroupContextExtensions(es) => CanonicalExtensions(es)
    case ProposalCustom(n, _) => DefaultProposalTypeFromValue(n).None?
  }

  lemma AddBodyRoundTrip(kp: KeyPackage)
    requires CanonicalKeyPackageTbs(KeyPackageTbsOf(kp)) && kp.leafNode.info.InfoKeyPackage?
    ensures Decodes(DefaultProposalBodyDecoder(AddType), EncodeProposalBody(ProposalAdd(kp)), ProposalAdd(kp))
  {
    KeyPackageRoundTrip(kp);
    MapDecoderDecodes(DecodeKeyPackage, (kp: KeyPackage) => ProposalAdd(kp), EncodeKeyPackage(kp), kp);
  }

  lemma UpdateBodyRoundTrip(l: LeafNode)
    requires CanonicalLeafNode(l) && l.info.InfoUpdate?
    ensures Decodes(DefaultProposalBodyDecoder(UpdateType), EncodeProposalBody(ProposalUpdate(l)), ProposalUpdate(l))
  {
    SourceFilteredRoundTrip(UpdateSource, l);
    MapDecoderDecodes(DecodeLeafNodeUpdate, (l: LeafNode) => ProposalUpdate(l), EncodeLeafNode(l), l);
  }

  lemma RemoveBodyRoundTrip(i: uint32)
    ensures Decodes(DefaultProposalBodyDecoder(RemoveType), EncodeProposalBody(ProposalRemove(i)), ProposalRemove(i))
  {
    Uint32RoundTrip(i);
    MapDecoderDecodes(DecodeUint32, (i: uint32) => ProposalRemove(i), EncodeUint32(i), i);
  }

  lemma PskBodyRoundTrip(id: PreSharedKeyId)
    ensures Decodes(DefaultProposalBodyDecoder(PskType), EncodeProposalBody(ProposalPsk(id)), ProposalPsk(id))
  {
    PskIdRoundTrip(id);
    MapDecoderDecodes(DecodePskId, (id: PreSharedKeyId) => ProposalPsk(id), EncodePskId(id), id);
  }

  lemma ReinitBodyRoundTrip(r: Reinit)
    requires CanonicalExtensions(r.extensions)
    ensures Decodes(DefaultProposalBodyDecoder(ReinitType), EncodeProposalBody(ProposalReinit(r)), ProposalReinit(r))
  {
    ReinitRoundTrip(r);
    MapDecoderDecodes(DecodeReinit, (r: Reinit) => ProposalReinit(r), EncodeReinit(r), r);
  }

  lemma ExternalInitBodyRoundTrip(k: seq<byte>)
    ensures Decodes(DefaultProposalBodyDecoder(ExternalInitType), EncodeProposalBody(ProposalExternalInit(k)), ProposalExternalInit(k))
  {
    VarLenDataRoundTrip(k);
    MapDecoderDecodes(DecodeVarLenData, (k: seq<byte>) => ProposalExternalInit(k), EncodeVarLenData(k), k);
  }

  lemma GroupContextExtensionsBodyRoundTrip(es: seq<Extension>)
    requires CanonicalExtensions(es)
    ensures Decodes(DefaultProposalBodyDecoder(GroupContextExtensionsType), EncodeProposalBody(ProposalGroupContextExtensions(es)),
      ProposalGroupContextExtensions(es))
  {
    ExtensionsRoundTrip(es);
    MapDecoderDecodes(DecodeVarLenType(DecodeExtension), (es: seq<Extension>) => ProposalGroupContextExtensions(es),
      EncodeVarLenType(EncodeExtension, es), es);
  }

  /** Every default proposal's body reads back under the body decoder its type selects. */
  lemma DefaultBodyRoundTrip(p: Proposal)
    requires CanonicalProposal(p) && !p.ProposalCustom?
    ensures Decodes(DefaultProposalBodyDecoder(DefaultTypeOf(p).value), EncodeProposalBody(p), p)
  {
    match p
    case ProposalAdd(kp) => AddBodyRoundTrip(kp);
    case ProposalUpdate(l) => UpdateBodyRoundTrip(l);
    case ProposalRemove(i) => RemoveBodyRoundTrip(i);
    case ProposalPsk(id) => PskBodyRoundTrip(id);
    case ProposalReinit(r) => ReinitBodyRoundTrip(r);
    case ProposalExternalInit(k) => ExternalInitBodyRoundTrip(k);
    case ProposalGroupContextExtensions(es) => GroupContextExtensionsBodyRoundTrip(es);
  }

  /** The custom reading reads a custom proposal back. */
  lemma CustomReadingRoundTrip(n: uint16, data: seq<byte>)
    ensures Decodes(DecodeCustomProposal, EncodeUint16(n) + EncodeVarLenData(data), ProposalCustom(n, data))
  {
    Uint16RoundTrip(n);
    VarLenDataRoundTrip(data);
    MapDecoderDecodes(DecodeVarLenData, (d: seq<byte>) => ProposalCustom(n, d), EncodeVarLenData(data), data);
    FlatMapDecoderDecodes(DecodeUint16, DecodeProposalCustom, EncodeUint16(n), EncodeVarLenData(data), n, ProposalCustom(n, data));
  }

  /** The default reading fails on a proposal type it does not know. */
  lemma DefaultReadingRejects(n: uint16)
    requires DefaultProposalTypeFromValue(n).None?
    ensures Rejects(DecodeDefaultProposal, EncodeUint16(n))
  {
    DefaultProposalTypeUnknownRejected(n);
    FlatMapDecoderAndMapRejects(DecodeDefaultProposalType, DefaultProposalBodyDecoder, (t: DefaultProposalTypeName, u: Proposal) => u,
      EncodeUint16(n));
  }

  /** A custom proposal fails the default reading and is read back by the custom one. */
  lemma CustomProposalRoundTrip(n: uint16, data: seq<byte>)
    requires DefaultProposalTypeFromValue(n).None?
    ensures Decodes(DecodeProposal, EncodeProposal(ProposalCustom(n, data)), ProposalCustom(n, data))
  {
    CustomReadingRoundTrip(n, data);
    DefaultReadingRejects(n);
    OrDecoderSecond(DecodeDefaultProposal, DecodeCustomProposal, EncodeUint16(n), EncodeVarLenData(data), ProposalCustom(n, data));
    assert EncodeUint16(n) + EncodeVarLenData(data) == EncodeProposal(ProposalCustom(n, data));
  }

  /** A default proposal is read back by the default reading, so the fallback is not consulted. */
  lemma DefaultProposalRoundTrip(p: Proposal)
    requires CanonicalProposal(p) && !p.ProposalCustom?
    ensures Decodes(DecodeProposal, EncodeProposal(p), p)
  {
    var t := DefaultTypeOf(p).value;
    DefaultProposalTypeRoundTrip(t);
    DefaultBodyRoundTrip(p);
    FlatMapDecoderDecodes(DecodeDefaultProposalType, DefaultProposalBodyDecoder, EncodeDefaultProposalType(t), EncodeProposalBody(p), t, p);
    OrDecoderFirst(DecodeDefaultProposal, DecodeCustomProposal, EncodeProposal(p), p);
  }

  lemma ProposalRoundTrip(p: Proposal)
    requires CanonicalProposal(p)
    ensures Decodes(DecodeProposal, EncodeProposal(p), p)
  {
    if p.ProposalCustom? {
      CustomProposalRoundTrip(p.proposalType, p.proposalData);
    } else {
      DefaultProposalRoundTrip(p);
    }
  }

  /**
   * The fallback in action: type 3 (remove) followed by one zero byte is not
   * a remove, whose body needs four bytes, so it reads as a custom proposal of
   * number 3 with empty data.
   */
  lemma MalformedRemoveReadsAsCustom()
    ensures DecodeDefaultProposal([0, 3, 0], 0).None?
    ensures DecodeProposal([0, 3, 0], 0) == Some((ProposalCustom(3, []), 3))
  {
    var b: seq<byte> := [0, 3, 0];
    assert DecodeUint16(b, 0) == Some((3, 2)) by {
      assert b[0..2] == [0, 3];
      assert ValueBE([0, 3]) == 3 by {
        assert [0, 3][..1] == [0];
      }
    }
    assert DecodeDefaultProposalType(b, 0) == Some((RemoveType, 2));
    assert DecodeUint32(b, 2).None?;
    assert DecodeLength(b, 2) == Some((0, 1));
    assert b[3..3] == [];
    assert DecodeVarLenData(b, 2) == Some(([], 1));
  }

  /**
   * The fallback on one buffer: a default type followed by a body its
   * decoder rejects leaves the whole read to the custom reading.
   */
  lemma FallbackOnRejectedBody(t: seq<byte>, ty: DefaultProposalTypeName, body: seq<byte>, b: seq<byte>, o: nat)
    requires Decodes(DecodeDefaultProposalType, t, ty) && Rejects(DefaultProposalBodyDecoder(ty), body)
    requires o + |t + body| <= |b| && b[o..o + |t + body|] == t + body
    ensures DecodeDefaultProposal(b, o).None?
    ensures DecodeProposal(b, o) == DecodeCustomProposal(b, o)
  {
    var e := t + body;
    assert b[o..o + |t|] == e[..|t|];
    assert b[o + |t|..o + |t| + |body|] == e[|t|..];
    assert DecodeDefaultProposalType(b, o) == Some((ty, |t|));
    assert DefaultProposalBodyDecoder(ty)(b, o + |t|).None?;
  }

  /**
   * An update whose leaf carries a credential type with no decoder arm fails
   * the default reading, so the fallback reads the same bytes as a custom
   * proposal of number 2: its data is the leaf's first var-len field, the
   * HPKE key, and nothing after that field is read.
   */
  lemma CustomCredentialUpdateReadsAsCustom(hpk: seq<byte>, spk: seq<byte>, code: uint16, rest: seq<byte>)
    requires code != 1 && code != 2
    ensures var e := EncodeDefaultProposalType(UpdateType) + CustomCredentialLeafPrefix(hpk, spk, code) + rest;
      Rejects(DecodeDefaultProposal, e) &&
      forall b: seq<byte>, o: nat {:trigger DecodeProposal(b, o)} :: o + |e| <= |b| && b[o..o + |e|] == e ==>
        DecodeProposal(b, o) == Some((ProposalCustom(2, hpk), 2 + |EncodeVarLenData(hpk)|))
  {
    var e := EncodeDefaultProposalType(UpdateType) + CustomCredentialLeafPrefix(hpk, spk, code) + rest;
    UpdateBodyFallsBack(hpk, spk, code, rest);
    DefaultProposalTypeRoundTrip(UpdateType);
    CustomReadingRoundTrip(2, hpk);
    var c := EncodeUint16(2) + EncodeVarLenData(hpk);
    assert e[..|c|] == c;
    forall b: seq<byte>, o: nat | o + |e| <= |b| && b[o..o + |e|] == e
      ensures DecodeProposal(b, o) == Some((ProposalCustom(2, hpk), 2 + |EncodeVarLenData(hpk)|))
    {
      CustomReadingOfPrefix(c, ProposalCustom(2, hpk), e, b, o);
    }
  }

  /** The custom reading of a buffer holding e is its reading of any prefix of e it decodes. */
  lemma CustomReadingOfPrefix(c: seq<byte>, x: Proposal, e: seq<byte>, b: seq<byte>, o: nat)
    requires Decodes(DecodeCustomProposal, c, x) && |c| <= |e| && e[..|c|] == c
    requires o + |e| <= |b| && b[o..o + |e|] == e
    ensures DecodeCustomProposal(b, o) == Some((x, |c|))
  {
    assert b[o..o + |c|] == b[o..o + |e|][..|c|];
  }

  /** The update half of the above: the default reading fails and the custom one decides. */
  lemma UpdateBodyFallsBack(hpk: seq<byte>, spk: seq<byte>, code: uint16, rest: seq<byte>)
    requires code != 1 && code != 2
    ensures var e := EncodeDefaultProposalType(UpdateType) + CustomCredentialLeafPrefix(hpk, spk, code) + rest;
      Rejects(DecodeDefaultProposal, e) &&
      forall b: seq<byte>, o: nat {:trigger DecodeProposal(b, o)} :: o + |e| <= |b| && b[o..o + |e|] == e ==>
        DecodeProposal(b, o) == DecodeCustomProposal(b, o)
  {
    var t := EncodeDefaultProposalType(UpdateType);
    var leaf := CustomCredentialLeafPrefix(hpk, spk, code) + rest;
    var e := t + leaf;
    assert t + CustomCredentialLeafPrefix(hpk, spk, code) + rest == e;
    DefaultProposalTypeRoundTrip(UpdateType);
    CustomCredentialLeafRejected(hpk, spk, code, rest);
    assert Rejects(DefaultProposalBodyDecoder(UpdateType), leaf) by {
      assert Rejects(SourceFilteredDecoder(UpdateSource), leaf);
    }
    forall b: seq<byte>, o: nat | o + |e| <= |b| && b[o..o + |e|] == e
      ensures DecodeDefaultProposal(b, o).None?
      ensures DecodeProposal(b, o) == DecodeCustomProposal(b, o)
    {
      FallbackOnRejectedBody(t, UpdateType, leaf, b, o);
    }
  }

  /**
   * Likewise an add whose key package's leaf carries such a credential: the
   * default reading fails, and whatever the proposal decodes to is what the
   * custom reading makes of the same bytes.
   */
  lemma CustomCredentialAddReadsAsCustom(v: ProtocolVersionName, cs: CiphersuiteName, initKey: seq<byte>,
    hpk: seq<byte>, spk: seq<byte>, code: uint16, rest: seq<byte>)
    requires code != 1 && code != 2
    ensures var e := EncodeDefaultProposalType(AddType) + CustomCredentialKeyPackagePrefix(v, cs, initKey, hpk, spk, code) + rest;
      Rejects(DecodeDefaultProposal, e) &&
      forall b: seq<byte>, o: nat {:trigger DecodeProposal(b, o)} :: o + |e| <= |b| && b[o..o + |e|] == e ==>
        DecodeProposal(b, o) == DecodeCustomProposal(b, o)
  {
    var t := EncodeDefaultProposalType(AddType);
    var body := CustomCredentialKeyPackagePrefix(v, cs, initKey, hpk, spk, code) + rest;
    var e := t + body;
    assert t + CustomCredentialKeyPackagePrefix(v, cs, initKey, hpk, spk, code) + rest == e;
    DefaultProposalTypeRoundTrip(AddType);
    CustomCredentialKeyPackageRejected(v, cs, initKey, hpk, spk, code, rest);
    forall b: seq<byte>, o: nat | o + |e| <= |b| && b[o..o + |e|] == e
      ensures DecodeDefaultProposal(b, o).None?
      ensures DecodeProposal(b, o) == DecodeCustomProposal(b, o)
    {
      FallbackOnRejectedBody(t, AddType, body, b, o);
    }
  }
}
