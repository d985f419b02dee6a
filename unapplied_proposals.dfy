/**
 * The table of proposals received or sent in the current epoch and not yet
 * committed, src/unappliedProposals.ts. The source keys a record by the
 * base64 text of each proposal reference; base64 is injective, so the model
 * keys the table by the reference bytes themselves. A JavaScript record
 * keeps its keys in insertion order, and re-assigning a key keeps its
 * place, so the table is an association list with distinct keys.
 */
module UnappliedProposals {
  import opened Wrappers
  import opened Bytes
  import opened Proposal

  /** A proposal and the leaf index of the member who sent it, absent for a non-member sender. */
  datatype ProposalWithSender = ProposalWithSender(proposal: Proposal, senderLeafIndex: Option<uint32>)

  datatype Entry = Entry(ref: seq<byte>, value: ProposalWithSender)

  type UnappliedProposals = seq<Entry>

  /** The references in the table, in insertion order. */
  function Refs(t: UnappliedProposals): (r: seq<seq<byte>>)
    ensures |r| == |t|
    ensures forall i :: 0 <= i < |t| ==> r[i] == t[i].ref
  {
    if t == [] then [] else [t[0].ref] + Refs(t[1..])
  }

  /** No reference is stored twice. */
  predicate DistinctRefs(t: UnappliedProposals) {
    forall i, j :: 0 <= i < j < |t| ==> t[i].ref != t[j].ref
  }

  /** The entry stored under `ref`, the first one when there are several. */
  function Lookup(t: UnappliedProposals, ref: seq<byte>): (r: Option<ProposalWithSender>)
    ensures r.None? <==> ref !in Refs(t)
    ensures r.Some? ==> exists i :: 0 <= i < |t| && t[i] == Entry(ref, r.value)
  {
    if t == [] then None
    else if t[0].ref == ref then Some(t[0].value)
    else
      var r := Lookup(t[1..], ref);
      assert Refs(t) == [t[0].ref] + Refs(t[1..]);
      assert r.Some? ==> exists i :: 0 <= i < |t[1..]| && t[1..][i] == Entry(ref, r.value);
      assert r.Some? ==> exists i :: 0 <= i < |t| && t[i] == Entry(ref, r.value) by {
        if r.Some? {
          var i :| 0 <= i < |t[1..]| && t[1..][i] == Entry(ref, r.value);
          assert t[i + 1] == Entry(ref, r.value);
        }
      }
      r
  }

  /** The table with the entry for `ref` (or none) set to `v`, keeping every position. */
  function Put(t: UnappliedProposals, ref: seq<byte>, v: ProposalWithSender): (r: UnappliedProposals)
    ensures |r| == |t|
    ensures forall i :: 0 <= i < |t| ==> r[i] == if t[i].ref == ref then Entry(ref, v) else t[i]
  {
    if t == [] then []
    else [if t[0].ref == ref then Entry(ref, v) else t[0]] + Put(t[1..], ref, v)
  }

  /**
   * addUnappliedProposal: the table with `proposal`, sent by
   * `senderLeafIndex`, stored under `ref`; an entry already under `ref` is
   * overwritten in place, otherwise the entry goes last.
   */
  function AddUnappliedProposal(ref: seq<byte>, proposals: UnappliedProposals, proposal: Proposal, senderLeafIndex: Option<uint32>)
    : (r: UnappliedProposals)
    requires DistinctRefs(proposals)
    ensures DistinctRefs(r)
    ensures Lookup(r, ref) == Some(ProposalWithSender(proposal, senderLeafIndex))
    ensures forall k :: k != ref ==> Lookup(r, k) == Lookup(proposals, k)
    ensures ref in Refs(proposals) ==> Refs(r) == Refs(proposals)
    ensures ref !in Refs(proposals) ==> Refs(r) == Refs(proposals) + [ref]
  {
    var v := ProposalWithSender(proposal, senderLeafIndex);
    if ref in Refs(proposals) then
      var r := Put(proposals, ref, v);
      forall k { PutLookup(proposals, ref, v, k); }
      PutKeepsRefs(proposals, ref, v);
      r
    else
      var r := proposals + [Entry(ref, v)];
      AppendLookup(proposals, ref, v);
      AppendRefs(proposals, ref, v);
      r
  }

  /** After `Put`, `ref` looks up the new value when it was present, and every other key looks up what it did before. */
  lemma {:induction false} PutLookup(t: UnappliedProposals, ref: seq<byte>, v: ProposalWithSender, k: seq<byte>)
    ensures Lookup(Put(t, ref, v), k) == if k == ref && ref in Refs(t) then Some(v) else Lookup(t, k)
    decreases |t|
  {
    if t != [] {
      var p := Put(t, ref, v);
      assert p[1..] == Put(t[1..], ref, v);
      assert Refs(t) == [t[0].ref] + Refs(t[1..]);
      PutLookup(t[1..], ref, v, k);
    }
  }

  /** `Put` keeps the references, their order and their distinctness. */
  lemma PutKeepsRefs(t: UnappliedProposals, ref: seq<byte>, v: ProposalWithSender)
    requires DistinctRefs(t)
    ensures Refs(Put(t, ref, v)) == Refs(t) && DistinctRefs(Put(t, ref, v))
  {
    var p := Put(t, ref, v);
    assert forall i :: 0 <= i < |t| ==> p[i].ref == t[i].ref;
    assert Refs(p) == Refs(t);
  }

  /** Appending a new key adds it last to the references and keeps them distinct. */
  lemma AppendRefs(t: UnappliedProposals, ref: seq<byte>, v: ProposalWithSender)
    requires DistinctRefs(t) && ref !in Refs(t)
    ensures Refs(t + [Entry(ref, v)]) == Refs(t) + [ref] && DistinctRefs(t + [Entry(ref, v)])
  {
    var p := t + [Entry(ref, v)];
    assert forall i :: 0 <= i < |t| ==> Refs(t)[i] == t[i].ref;
    assert Refs(p) == Refs(t) + [ref];
  }

  /** Appending an entry for a new key: that key maps to it and no other lookup changes. */
  lemma AppendLookup(t: UnappliedProposals, ref: seq<byte>, v: ProposalWithSender)
    requires ref !in Refs(t)
    ensures Lookup(t + [Entry(ref, v)], ref) == Some(v)
    ensures forall k :: k != ref ==> Lookup(t + [Entry(ref, v)], k) == Lookup(t, k)
  {
    forall k {
      AppendLookupAt(t, ref, v, k);
    }
  }

  /** Appending an entry for a new key, seen from one key. */
  lemma {:induction false} AppendLookupAt(t: UnappliedProposals, ref: seq<byte>, v: ProposalWithSender, k: seq<byte>)
    requires ref !in Refs(t)
    ensures Lookup(t + [Entry(ref, v)], k) == if k == ref then Some(v) else Lookup(t, k)
    decreases |t|
  {
    if t != [] {
      assert (t + [Entry(ref, v)])[1..] == t[1..] + [Entry(ref, v)];
      assert Refs(t) == [t[0].ref] + Refs(t[1..]);
      AppendLookupAt(t[1..], ref, v, k);
    }
  }

  /** In a table without repeated references, each entry is what its reference looks up. */
  lemma {:induction false} LookupAt(t: UnappliedProposals, i: nat)
    requires DistinctRefs(t) && i < |t|
    ensures Lookup(t, t[i].ref) == Some(t[i].value)
    decreases i
  {
    if i > 0 {
      assert t[1..][i - 1] == t[i];
      LookupAt(t[1..], i - 1);
    }
  }

  /** Re-adding the same reference overwrites the earlier entry and keeps the table's order. */
  lemma ReAddOverwrites(ref: seq<byte>, proposals: UnappliedProposals, p1: Proposal, s1: Option<uint32>, p2: Proposal, s2: Option<uint32>)
    requires DistinctRefs(proposals)
    ensures var once := AddUnappliedProposal(ref, proposals, p1, s1);
      var twice := AddUnappliedProposal(ref, once, p2, s2);
      Lookup(twice, ref) == Some(ProposalWithSender(p2, s2)) && Refs(twice) == Refs(once)
      && (forall k :: k != ref ==> Lookup(twice, k) == Lookup(proposals, k))
  {
  }
}
