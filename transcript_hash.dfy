/**
 * The transcript hashes, src/transcriptHash.ts: the confirmed transcript
 * hash input of a commit and the confirmed and interim hashes chained from it.
 */
module TranscriptHash {
  import opened Wrappers
  import opened Bytes
  import opened TlsDecoder
  import opened VariableLength
  import opened Wireformat
  import opened ContentType
  import opened Crypto
  import opened FramedContent

  datatype ConfirmedTranscriptHashInput = ConfirmedTranscriptHashInput(
    wireformat: WireformatName,
    content: FramedContent,
    signature: seq<byte>)

  /** The input is only ever built from commit content. */
  predicate CanonicalTranscriptInput(i: ConfirmedTranscriptHashInput) {
    CanonicalFramedContent(i.content) && ContentTypeOf(i.content) == CommitContent
  }

  /** Wireformat, framed content, then the var-len signature. */
  function EncodeConfirmedTranscriptHashInput(i: ConfirmedTranscriptHashInput): seq<byte> {
    EncodeWireformat(i.wireformat) + EncodeFramedContent(i.content) + EncodeVarLenData(i.signature)
  }

  /** Build the input only when the content carries a commit. */
  function TranscriptInputOfCommit(w: WireformatName, c: FramedContent, s: seq<byte>): (r: Option<ConfirmedTranscriptHashInput>)
    ensures r.Some? <==> ContentTypeOf(c) == CommitContent
  {
    if ContentTypeOf(c) == CommitContent then Some(ConfirmedTranscriptHashInput(w, c, s)) else None
  }

  const DecodeConfirmedTranscriptHashInput: Decoder<ConfirmedTranscriptHashInput> :=
    MapDecodersOption3(DecodeWireformat, DecodeFramedContent, DecodeVarLenData, TranscriptInputOfCommit)

  lemma TranscriptInputRoundTrip(i: ConfirmedTranscriptHashInput)
    requires CanonicalTranscriptInput(i)
    ensures Decodes(DecodeConfirmedTranscriptHashInput, EncodeConfirmedTranscriptHashInput(i), i)
  {
    WireformatRoundTrip(i.wireformat);
    FramedContentRoundTrip(i.content);
    VarLenDataRoundTrip(i.signature);
    MapDecodersOption3Decodes(DecodeWireformat, DecodeFramedContent, DecodeVarLenData, TranscriptInputOfCommit,
      EncodeWireformat(i.wireformat), EncodeFramedContent(i.content), EncodeVarLenData(i.signature),
      i.wireformat, i.content, i.signature, i);
  }

  /** The same fields around application or proposal content are refused. */
  lemma TranscriptInputRejectsNonCommit(i: ConfirmedTranscriptHashInput)
    requires CanonicalFramedContent(i.content) && ContentTypeOf(i.content) != CommitContent
    ensures Rejects(DecodeConfirmedTranscriptHashInput, EncodeConfirmedTranscriptHashInput(i))
  {
    WireformatRoundTrip(i.wireformat);
    FramedContentRoundTrip(i.content);
    VarLenDataRoundTrip(i.signature);
    MapDecodersOption3Rejects(DecodeWireformat, DecodeFramedContent, DecodeVarLenData, TranscriptInputOfCommit,
      EncodeWireformat(i.wireformat), EncodeFramedContent(i.content), EncodeVarLenData(i.signature),
      i.wireformat, i.content, i.signature);
  }

  /** createConfirmedHash: digest of the interim hash followed by the encoded input. */
  function CreateConfirmedHash(hash: Hash, interimTranscriptHash: seq<byte>, input: ConfirmedTranscriptHashInput): seq<byte> {
    hash.digest(interimTranscriptHash + EncodeConfirmedTranscriptHashInput(input))
  }

  /** createInterimHash: digest of the confirmed hash followed by the var-len confirmation tag. */
  function CreateInterimHash(hash: Hash, confirmedHash: seq<byte>, confirmationTag: seq<byte>): seq<byte> {
    hash.digest(confirmedHash + EncodeVarLenData(confirmationTag))
  }

  /**
   * With interim hashes of one length (one hash function), the bytes
   * digested into the confirmed hash determine the interim hash and the
   * commit input.
   */
  lemma ConfirmedHashInputBinds(h1: seq<byte>, i1: ConfirmedTranscriptHashInput, h2: seq<byte>, i2: ConfirmedTranscriptHashInput)
    requires CanonicalTranscriptInput(i1) && CanonicalTranscriptInput(i2) && |h1| == |h2|
    requires h1 + EncodeConfirmedTranscriptHashInput(i1) == h2 + EncodeConfirmedTranscriptHashInput(i2)
    ensures h1 == h2 && i1 == i2
  {
    var b := h1 + EncodeConfirmedTranscriptHashInput(i1);
    assert h1 == b[..|h1|] && h2 == b[..|h2|];
    assert EncodeConfirmedTranscriptHashInput(i1) == b[|h1|..] == EncodeConfirmedTranscriptHashInput(i2);
    TranscriptInputRoundTrip(i1);
    TranscriptInputRoundTrip(i2);
    DecodesUnique(DecodeConfirmedTranscriptHashInput, EncodeConfirmedTranscriptHashInput(i1), i1, i2);
  }

  /** Likewise the bytes digested into the interim hash determine the confirmation tag. */
  lemma InterimHashInputBinds(c1: seq<byte>, t1: seq<byte>, c2: seq<byte>, t2: seq<byte>)
    requires |c1| == |c2| && c1 + EncodeVarLenData(t1) == c2 + EncodeVarLenData(t2)
    ensures c1 == c2 && t1 == t2
  {
    var b := c1 + EncodeVarLenData(t1);
    assert c1 == b[..|c1|] && c2 == b[..|c2|];
    assert EncodeVarLenData(t1) == b[|c1|..] == EncodeVarLenData(t2);
    VarLenDataRoundTrip(t1);
    VarLenDataRoundTrip(t2);
    DecodesUnique(DecodeVarLenData, EncodeVarLenData(t1), t1, t2);
  }
}
