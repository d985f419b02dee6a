/** The Commit message body, src/commit.ts (section 12.4 of RFC 9420). */
module Commit {
  import opened Wrappers
  import opened Bytes
  import opened TlsDecoder
  import opened VariableLength
  import opened Optional
  import opened LeafNodeSource
  import opened LeafNode
  import opened ProposalOrRef
  import opened UpdatePath

  /** The proposals committed, inline or by reference, and the optional update path. */
  datatype Commit = Commit(proposals: seq<ProposalOrRef>, path: Option<UpdatePath>)

  /** A commit the decoder can read back: canonical proposals and, if present, a canonical commit-source leaf in the path. */
  predicate CanonicalCommit(c: Commit) {
    (forall i :: 0 <= i < |c.proposals| ==> CanonicalProposalOrRef(c.proposals[i])) &&
    (c.path.Some? ==> CanonicalLeafNode(c.path.value.leafNode) && InfoSource(c.path.value.leafNode.info) == CommitSource)
  }

  /** The var-len list of proposals, then the optional path. */
  function EncodeCommit(c: Commit): seq<byte> {
    EncodeVarLenType(EncodeProposalOrRef, c.proposals) + EncodeOptional(EncodeUpdatePath, c.path)
  }

  const DecodeCommit: Decoder<Commit> :=
    MapDecoders2(DecodeVarLenType(DecodeProposalOrRef), DecodeOptionalAsWritten(DecodeUpdatePath),
      (ps: seq<ProposalOrRef>, p: Option<UpdatePath>) => Commit(ps, p))

  /** A commit without a path ends in the single octet 0x00; with one, in 0x01 followed by the path. */
  lemma CommitLayout(c: Commit)
    ensures c.path.None? ==> EncodeCommit(c) == EncodeVarLenType(EncodeProposalOrRef, c.proposals) + [0]
    ensures c.path.Some? ==> EncodeCommit(c) == EncodeVarLenType(EncodeProposalOrRef, c.proposals) + [1] + EncodeUpdatePath(c.path.value)
  {
    if c.path.Some? {
      var e := EncodeOptional(EncodeUpdatePath, c.path);
      assert e == [1] + EncodeUpdatePath(c.path.value) by {
        assert e == [e[0]] + e[1..];
      }
    }
  }

  /** Every canonical commit reads back unchanged. */
  lemma CommitRoundTrip(c: Commit)
    requires CanonicalCommit(c)
    ensures Decodes(DecodeCommit, EncodeCommit(c), c)
  {
    ProposalOrRefsRoundTrip(c.proposals);
    if c.path.Some? {
      UpdatePathRoundTrip(c.path.value);
    }
    OptionalAsWrittenRoundTrip(DecodeUpdatePath, EncodeUpdatePath, c.path);
    MapDecoders2Decodes(DecodeVarLenType(DecodeProposalOrRef), DecodeOptionalAsWritten(DecodeUpdatePath),
      (ps: seq<ProposalOrRef>, p: Option<UpdatePath>) => Commit(ps, p),
      EncodeVarLenType(EncodeProposalOrRef, c.proposals), EncodeOptional(EncodeUpdatePath, c.path), c.proposals, c.path);
  }

  /** The empty commit reads back, and so does a commit carrying one proposal inline and no path. */
  lemma SmallCommitsRoundTrip(p: ProposalOrRef)
    requires CanonicalProposalOrRef(p)
    ensures Decodes(DecodeCommit, EncodeCommit(Commit([], None)), Commit([], None))
    ensures Decodes(DecodeCommit, EncodeCommit(Commit([p], None)), Commit([p], None))
  {
    CommitRoundTrip(Commit([], None));
    CommitRoundTrip(Commit([p], None));
  }

  /**
   * Bytes that end right after the proposal list still decode, as a commit
   * with no path that claims one byte past the end of the buffer: the
   * optional reading as written takes a missing presence octet for absence.
   */
  lemma CommitTruncatedAfterProposals(ps: seq<ProposalOrRef>)
    requires forall i :: 0 <= i < |ps| ==> CanonicalProposalOrRef(ps[i])
    ensures var e := EncodeVarLenType(EncodeProposalOrRef, ps);
      DecodeCommit(e, 0) == Some((Commit(ps, None), |e| + 1))
  {
    var e := EncodeVarLenType(EncodeProposalOrRef, ps);
    ProposalOrRefsRoundTrip(ps);
    assert e[0..|e|] == e;
    assert DecodeVarLenType(DecodeProposalOrRef)(e, 0) == Some((ps, |e|));
    assert DecodeOptionalAsWritten(DecodeUpdatePath)(e, |e|) == Some((None, 1));
  }
}
