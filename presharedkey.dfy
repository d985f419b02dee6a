/**
 * Pre-shared keys of src/presharedkey.ts: the PSK identifiers carried in
 * proposals and group secrets, and the folding of the PSKs of a commit into
 * one secret (section 8.4 of RFC 9420).
 */
module PreSharedKey {
  import opened Wrappers
  import opened Bytes
  import opened TlsDecoder
  import opened Number
  import opened VariableLength
  import opened Crypto

  /** external, resumption */
  datatype PskTypeName = ExternalPsk | ResumptionPsk

  /** The code of each name in the table. */
  function PskTypeValue(t: PskTypeName): uint8 {
    match t
    case ExternalPsk => 1
    case ResumptionPsk => 2
  }

  /** The table read backwards: the name with code `n`, if there is one. */
  function PskTypeFromValue(n: uint8): (r: Option<PskTypeName>)
    ensures forall t :: r == Some(t) <==> PskTypeValue(t) == n
  {
    if n == 1 then Some(ExternalPsk)
    else if n == 2 then Some(ResumptionPsk)
    else None
  }

  function EncodePskType(t: PskTypeName): seq<byte> {
    EncodeUint8(PskTypeValue(t))
  }

  const DecodePskType: Decoder<PskTypeName> := MapDecoderOption(DecodeUint8, PskTypeFromValue)

  /** Every name is 1 byte on the wire and reads back as itself. */
  lemma PskTypeRoundTrip(t: PskTypeName)
    ensures |EncodePskType(t)| == 1
    ensures Decodes(DecodePskType, EncodePskType(t), t)
  {
    Uint8RoundTrip(PskTypeValue(t));
    MapDecoderOptionDecodes(DecodeUint8, PskTypeFromValue, EncodePskType(t), PskTypeValue(t), t);
  }

  /** A code outside the table is a decode failure. */
  lemma PskTypeUnknownRejected(n: uint8)
    requires PskTypeFromValue(n).None?
    ensures Rejects(DecodePskType, EncodeUint8(n))
  {
    Uint8RoundTrip(n);
    MapDecoderOptionRejects(DecodeUint8, PskTypeFromValue, EncodeUint8(n), n);
  }

  /** the uses of a resumption PSK: application, reinit, branch */
  datatype ResumptionPskUsageName = UsageApplication | UsageReinit | UsageBranch

  /** The code of each name in the table. */
  function ResumptionPskUsageValue(t: ResumptionPskUsageName): uint8 {
    match t
    case UsageApplication => 1
    case UsageReinit => 2
    case UsageBranch => 3
  }

  /** The table read backwards: the name with code `n`, if there is one. */
  function ResumptionPskUsageFromValue(n: uint8): (r: Option<ResumptionPskUsageName>)
    ensures forall t :: r == Some(t) <==> ResumptionPskUsageValue(t) == n
  {
    if n == 1 then Some(UsageApplication)
    else if n == 2 then Some(UsageReinit)
    else if n == 3 then Some(UsageBranch)
    else None
  }

  function EncodeResumptionPskUsage(t: ResumptionPskUsageName): seq<byte> {
    EncodeUint8(ResumptionPskUsageValue(t))
  }

  const DecodeResumptionPskUsage: Decoder<ResumptionPskUsageName> := MapDecoderOption(DecodeUint8, ResumptionPskUsageFromValue)

  /** Every name is 1 byte on the wire and reads back as itself. */
  lemma ResumptionPskUsageRoundTrip(t: ResumptionPskUsageName)
    ensures |EncodeResumptionPskUsage(t)| == 1
    ensures Decodes(DecodeResumptionPskUsage, EncodeResumptionPskUsage(t), t)
  {
    Uint8RoundTrip(ResumptionPskUsageValue(t));
    MapDecoderOptionDecodes(DecodeUint8, ResumptionPskUsageFromValue, EncodeResumptionPskUsage(t), ResumptionPskUsageValue(t), t);
  }

  /** A code outside the table is a decode failure. */
  lemma ResumptionPskUsageUnknownRejected(n: uint8)
    requires ResumptionPskUsageFromValue(n).None?
    ensures Rejects(DecodeResumptionPskUsage, EncodeUint8(n))
  {
    Uint8RoundTrip(n);
    MapDecoderOptionRejects(DecodeUint8, ResumptionPskUsageFromValue, EncodeUint8(n), n);
  }

  datatype PskInfo =
    | PskInfoExternal(pskId: seq<byte>)
    | PskInfoResumption(usage: ResumptionPskUsageName, pskGroupId: seq<byte>, pskEpoch: uint64)

  function PskInfoType(info: PskInfo): PskTypeName {
    match info
    case PskInfoExternal(_) => ExternalPsk
    case PskInfoResumption(_, _, _) => ResumptionPsk
  }

  /** external: type and var-len id; resumption: type, usage, var-len group id and 8-byte epoch. */
  function EncodePskInfo(info: PskInfo): (r: seq<byte>)
    ensures |r| >= 1 && r[..1] == EncodePskType(PskInfoType(info))
  {
    match info
    case PskInfoExternal(pskId) => EncodePskType(ExternalPsk) + EncodeVarLenData(pskId)
    case PskInfoResumption(usage, pskGroupId, pskEpoch) =>
      EncodePskType(ResumptionPsk) + EncodeResumptionPskUsage(usage) + EncodeVarLenData(pskGroupId) + EncodeUint64(pskEpoch)
  }

  const DecodePskInfoResumption: Decoder<PskInfo> :=
    MapDecoders3(DecodeResumptionPskUsage, DecodeVarLenData, DecodeUint64,
      (u: ResumptionPskUsageName, g: seq<byte>, e: uint64) => PskInfoResumption(u, g, e))

  const DecodePskInfoExternal: Decoder<PskInfo> :=
    MapDecoder(DecodeVarLenData, (pskId: seq<byte>) => PskInfoExternal(pskId))

  /** The body decoder chosen by the decoded PSK type. */
  function PskInfoBodyDecoder(t: PskTypeName): Decoder<PskInfo> {
    match t
    case ExternalPsk => DecodePskInfoExternal
    case ResumptionPsk => DecodePskInfoResumption
  }

  const DecodePskInfo: Decoder<PskInfo> := FlatMapDecoder(DecodePskType, PskInfoBodyDecoder)

  lemma PskInfoRoundTrip(info: PskInfo)
    ensures Decodes(DecodePskInfo, EncodePskInfo(info), info)
  {
    match info
    case PskInfoExternal(pskId) =>
      PskTypeRoundTrip(ExternalPsk);
      VarLenDataRoundTrip(pskId);
      MapDecoderDecodes(DecodeVarLenData, (pskId: seq<byte>) => PskInfoExternal(pskId), EncodeVarLenData(pskId), pskId);
      FlatMapDecoderDecodes(DecodePskType, PskInfoBodyDecoder, EncodePskType(ExternalPsk), EncodeVarLenData(pskId),
        ExternalPsk, info);
    case PskInfoResumption(usage, pskGroupId, pskEpoch) =>
      PskTypeRoundTrip(ResumptionPsk);
      ResumptionPskUsageRoundTrip(usage);
      VarLenDataRoundTrip(pskGroupId);
      Uint64RoundTrip(pskEpoch);
      var body := EncodeResumptionPskUsage(usage) + EncodeVarLenData(pskGroupId) + EncodeUint64(pskEpoch);
      MapDecoders3Decodes(DecodeResumptionPskUsage, DecodeVarLenData, DecodeUint64,
        (u: ResumptionPskUsageName, g: seq<byte>, e: uint64) => PskInfoResumption(u, g, e),
        EncodeResumptionPskUsage(usage), EncodeVarLenData(pskGroupId), EncodeUint64(pskEpoch), usage, pskGroupId, pskEpoch);
      FlatMapDecoderDecodes(DecodePskType, PskInfoBodyDecoder, EncodePskType(ResumptionPsk), body, ResumptionPsk, info);
      assert EncodePskType(ResumptionPsk) + body == EncodePskInfo(info);
  }

  /** The info, then the var-len nonce. */
  datatype PreSharedKeyId = PreSharedKeyId(info: PskInfo, pskNonce: seq<byte>)

  function EncodePskId(id: PreSharedKeyId): seq<byte> {
    EncodePskInfo(id.info) + EncodeVarLenData(id.pskNonce)
  }

  const DecodePskId: Decoder<PreSharedKeyId> :=
    MapDecoders2(DecodePskInfo, DecodeVarLenData, (i: PskInfo, n: seq<byte>) => PreSharedKeyId(i, n))

  lemma PskIdRoundTrip(id: PreSharedKeyId)
    ensures |EncodePskId(id)| > 0
    ensures Decodes(DecodePskId, EncodePskId(id), id)
  {
    PskInfoRoundTrip(id.info);
    VarLenDataRoundTrip(id.pskNonce);
    MapDecoders2Decodes(DecodePskInfo, DecodeVarLenData, (i: PskInfo, n: seq<byte>) => PreSharedKeyId(i, n),
      EncodePskInfo(id.info), EncodeVarLenData(id.pskNonce), id.info, id.pskNonce);
  }

  lemma PskIdsRoundTrip(ids: seq<PreSharedKeyId>)
    ensures Decodes(DecodeVarLenType(DecodePskId), EncodeVarLenType(EncodePskId, ids), ids)
  {
    forall k | 0 <= k < |ids|
      ensures |EncodePskId(ids[k])| > 0 && Decodes(DecodePskId, EncodePskId(ids[k]), ids[k])
    {
      PskIdRoundTrip(ids[k]);
    }
    VarLenTypeRoundTrip(DecodePskId, EncodePskId, ids);
  }

  /** The id, then its 2-byte position and the 2-byte count of PSKs. */
  datatype PskLabel = PskLabel(id: PreSharedKeyId, index: uint16, count: uint16)

  function EncodePskLabel(l: PskLabel): seq<byte> {
    EncodePskId(l.id) + EncodeUint16(l.index) + EncodeUint16(l.count)
  }

  const DecodePskLabel: Decoder<PskLabel> :=
    MapDecoders3(DecodePskId, DecodeUint16, DecodeUint16, (id: PreSharedKeyId, i: uint16, c: uint16) => PskLabel(id, i, c))

  lemma PskLabelRoundTrip(l: PskLabel)
    ensures Decodes(DecodePskLabel, EncodePskLabel(l), l)
  {
    PskIdRoundTrip(l.id);
    Uint16RoundTrip(l.index);
    Uint16RoundTrip(l.count);
    MapDecoders3Decodes(DecodePskId, DecodeUint16, DecodeUint16, (id: PreSharedKeyId, i: uint16, c: uint16) => PskLabel(id, i, c),
      EncodePskId(l.id), EncodeUint16(l.index), EncodeUint16(l.count), l.id, l.index, l.count);
  }

  /** Each step's label is distinct: PSK labels with any field different are different bytes. */
  lemma PskLabelInjective(l1: PskLabel, l2: PskLabel)
    requires EncodePskLabel(l1) == EncodePskLabel(l2)
    ensures l1 == l2
  {
    PskLabelRoundTrip(l1);
    PskLabelRoundTrip(l2);
    DecodesUnique(DecodePskLabel, EncodePskLabel(l1), l1, l2);
  }

  /**
   * One step of the fold: the PSK is extracted from zeros, expanded with
   * label "derived psk" and the PSK label of this position, and the result
   * is the salt for extracting the previous secret.
   */
  function UpdatePskSecret(impl: CiphersuiteImpl, secret: seq<byte>, pskId: PreSharedKeyId, psk: seq<byte>,
    index: uint16, count: uint16): seq<byte>
  {
    var zeroes := Zeros(impl.kdf.size);
    impl.kdf.extract(
      ExpandWithLabel(impl.kdf, impl.kdf.extract(zeroes, psk), "derived psk",
        EncodePskLabel(PskLabel(pskId, index, count)), impl.kdf.size),
      secret)
  }

  /** A fold step: the secret so far, the PSK id, the PSK and its position to the next secret. */
  type PskUpdate = (seq<byte>, PreSharedKeyId, seq<byte>, uint16) -> seq<byte>

  /** The step of section 8.4 of RFC 9420 for a list of `count` PSKs. */
  function PskUpdateOf(impl: CiphersuiteImpl, count: uint16): PskUpdate {
    (secret: seq<byte>, pskId: PreSharedKeyId, psk: seq<byte>, index: uint16) =>
      UpdatePskSecret(impl, secret, pskId, psk, index, count)
  }

  /** The reduce of the source: step from the accumulator, position by position from `index`. */
  function PskFold(update: PskUpdate, psks: seq<(PreSharedKeyId, seq<byte>)>, count: uint16, acc: seq<byte>, index: nat): seq<byte>
    requires index + |psks| <= count
    decreases |psks|
  {
    if psks == [] then acc
    else PskFold(update, psks[1..], count, update(acc, psks[0].0, psks[0].1, index), index + 1)
  }

  /** The secret after the first `k` PSKs, written as the recurrence of section 8.4 of RFC 9420. */
  function PskSecretAfter(impl: CiphersuiteImpl, psks: seq<(PreSharedKeyId, seq<byte>)>, count: uint16, init: seq<byte>, k: nat): seq<byte>
    requires k <= |psks| <= count
    decreases k
  {
    if k == 0 then init
    else UpdatePskSecret(impl, PskSecretAfter(impl, psks, count, init, k - 1), psks[k - 1].0, psks[k - 1].1, k - 1, count)
  }

  /** The reduce computes the recurrence: step i uses position i and the total count. */
  lemma {:induction false} PskFoldIsRecurrence(impl: CiphersuiteImpl, psks: seq<(PreSharedKeyId, seq<byte>)>, count: uint16,
    init: seq<byte>, k: nat)
    requires k <= |psks| <= count
    ensures PskFold(PskUpdateOf(impl, count), psks[k..], count, PskSecretAfter(impl, psks, count, init, k), k)
         == PskSecretAfter(impl, psks, count, init, |psks|)
    decreases |psks| - k
  {
    if k < |psks| {
      var update := PskUpdateOf(impl, count);
      var rest := psks[k..];
      assert rest[1..] == psks[k + 1..];
      assert rest[0] == psks[k];
      var before := PskSecretAfter(impl, psks, count, init, k);
      var after := UpdatePskSecret(impl, before, psks[k].0, psks[k].1, k, count);
      assert update(before, psks[k].0, psks[k].1, k) == after;
      assert PskSecretAfter(impl, psks, count, init, k + 1) == after;
      assert PskFold(update, rest, count, before, k) == PskFold(update, psks[k + 1..], count, after, k + 1);
      PskFoldIsRecurrence(impl, psks, count, init, k + 1);
    }
  }

  /** The PSK secret of a commit: zeros when there are no PSKs, else the fold over all of them in order. */
  function ComputePskSecret(impl: CiphersuiteImpl, psks: seq<(PreSharedKeyId, seq<byte>)>): (r: seq<byte>)
    requires |psks| < 0x1_0000
    ensures psks == [] ==> r == Zeros(impl.kdf.size)
    ensures r == PskSecretAfter(impl, psks, |psks|, Zeros(impl.kdf.size), |psks|)
  {
    PskFoldIsRecurrence(impl, psks, |psks|, Zeros(impl.kdf.size), 0);
    assert psks[0..] == psks;
    PskFold(PskUpdateOf(impl, |psks|), psks, |psks|, Zeros(impl.kdf.size), 0)
  }
}
