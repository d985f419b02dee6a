/** Looking up the PSKs a commit references and folding them, src/pskIndex.ts. */
module PskIndex {
  import opened Wrappers
  import opened Bytes
  import opened Crypto
  import opened PreSharedKey

  /** The lookup the caller provides: the PSK for an id, if it knows one. */
  type PskIndex = PreSharedKeyId -> Option<seq<byte>>

  /** Knows no PSK. */
  const EmptyPskIndex: PskIndex := (id: PreSharedKeyId) => None

  lemma EmptyPskIndexFindsNothing(id: PreSharedKeyId)
    ensures EmptyPskIndex(id).None?
  {
  }

  /** One step of the reduce: a failure passes through; a missing PSK is a ValidationError. */
  function AccumulateStep(update: PskUpdate, pskSearch: PskIndex,
    acc: Result<(seq<byte>, seq<PreSharedKeyId>)>, cur: PreSharedKeyId, index: uint16): Result<(seq<byte>, seq<PreSharedKeyId>)>
  {
    if acc.Err? then acc
    else
      var psk := pskSearch(cur);
      if psk.None? then Err(ValidationError)
      else Ok((update(acc.value.0, cur, psk.value, index), acc.value.1 + [cur]))
  }

  function AccumulateFold(update: PskUpdate, pskSearch: PskIndex, count: uint16, ids: seq<PreSharedKeyId>, index: nat,
    acc: Result<(seq<byte>, seq<PreSharedKeyId>)>): Result<(seq<byte>, seq<PreSharedKeyId>)>
    requires index + |ids| <= count
    decreases |ids|
  {
    if ids == [] then acc
    else AccumulateFold(update, pskSearch, count, ids[1..], index + 1, AccumulateStep(update, pskSearch, acc, ids[0], index))
  }

  /** Every id is known to the lookup. */
  predicate AllFound(pskSearch: PskIndex, ids: seq<PreSharedKeyId>) {
    forall i :: 0 <= i < |ids| ==> pskSearch(ids[i]).Some?
  }

  /** The ids paired with the PSKs the lookup returns for them. */
  function WithPsks(pskSearch: PskIndex, ids: seq<PreSharedKeyId>): (r: seq<(PreSharedKeyId, seq<byte>)>)
    requires AllFound(pskSearch, ids)
    ensures |r| == |ids|
    ensures forall i :: 0 <= i < |ids| ==> r[i] == (ids[i], pskSearch(ids[i]).value)
  {
    seq(|ids|, i requires 0 <= i < |ids| => (ids[i], pskSearch(ids[i]).value))
  }

  lemma {:induction false} AccumulateFoldAfterError(update: PskUpdate, pskSearch: PskIndex, count: uint16,
    ids: seq<PreSharedKeyId>, index: nat, e: MlsError)
    requires index + |ids| <= count
    ensures AccumulateFold(update, pskSearch, count, ids, index, Err(e)) == Err(e)
    decreases |ids|
  {
    if ids != [] {
      AccumulateFoldAfterError(update, pskSearch, count, ids[1..], index + 1, e);
    }
  }

  /** All ids are found exactly when the first is and all the rest are. */
  lemma AllFoundCons(pskSearch: PskIndex, ids: seq<PreSharedKeyId>)
    requires ids != []
    ensures AllFound(pskSearch, ids) <==> pskSearch(ids[0]).Some? && AllFound(pskSearch, ids[1..])
  {
    var tail := ids[1..];
    if pskSearch(ids[0]).Some? && AllFound(pskSearch, tail) {
      forall i | 0 <= i < |ids| ensures pskSearch(ids[i]).Some? {
        if i > 0 { assert ids[i] == tail[i - 1]; }
      }
    }
    if AllFound(pskSearch, ids) {
      forall i | 0 <= i < |tail| ensures pskSearch(tail[i]).Some? {
        assert tail[i] == ids[i + 1];
      }
    }
  }

  /** Pairing the ids with their PSKs commutes with taking the tail. */
  lemma WithPsksCons(pskSearch: PskIndex, ids: seq<PreSharedKeyId>)
    requires ids != [] && AllFound(pskSearch, ids)
    ensures AllFound(pskSearch, ids[1..])
    ensures WithPsks(pskSearch, ids)[1..] == WithPsks(pskSearch, ids[1..])
    ensures WithPsks(pskSearch, ids)[0] == (ids[0], pskSearch(ids[0]).value)
  {
    AllFoundCons(pskSearch, ids);
  }

  /** When every id is found, the reduce is the PSK fold and collects the ids in order. */
  lemma {:induction false} AccumulateFoldFound(update: PskUpdate, pskSearch: PskIndex, count: uint16,
    ids: seq<PreSharedKeyId>, index: nat, secret: seq<byte>, seen: seq<PreSharedKeyId>)
    requires index + |ids| <= count
    requires AllFound(pskSearch, ids)
    ensures AccumulateFold(update, pskSearch, count, ids, index, Ok((secret, seen)))
         == Ok((PskFold(update, WithPsks(pskSearch, ids), count, secret, index), seen + ids))
    decreases |ids|
  {
    if ids == [] {
      assert seen + ids == seen;
    } else {
      var tail := ids[1..];
      WithPsksCons(pskSearch, ids);
      var psk := pskSearch(ids[0]).value;
      var next := update(secret, ids[0], psk, index);
      var step := AccumulateStep(update, pskSearch, Ok((secret, seen)), ids[0], index);
      assert step == Ok((next, seen + [ids[0]]));
      AccumulateFoldFound(update, pskSearch, count, tail, index + 1, next, seen + [ids[0]]);
      var folded := PskFold(update, WithPsks(pskSearch, tail), count, next, index + 1);
      var ps := WithPsks(pskSearch, ids);
      assert PskFold(update, ps, count, secret, index) == folded;
      assert seen + [ids[0]] + tail == seen + ids;
      calc {
        AccumulateFold(update, pskSearch, count, ids, index, Ok((secret, seen)));
        AccumulateFold(update, pskSearch, count, tail, index + 1, step);
        Ok((folded, seen + [ids[0]] + tail));
        Ok((PskFold(update, ps, count, secret, index), seen + ids));
      }
    }
  }

  /** When some id is missing, the reduce ends in a ValidationError. */
  lemma {:induction false} AccumulateFoldMissing(update: PskUpdate, pskSearch: PskIndex, count: uint16,
    ids: seq<PreSharedKeyId>, index: nat, secret: seq<byte>, seen: seq<PreSharedKeyId>)
    requires index + |ids| <= count
    requires !AllFound(pskSearch, ids)
    ensures AccumulateFold(update, pskSearch, count, ids, index, Ok((secret, seen))) == Err(ValidationError)
    decreases |ids|
  {
    var tail := ids[1..];
    AllFoundCons(pskSearch, ids);
    var psk := pskSearch(ids[0]);
    if psk.None? {
      assert AccumulateStep(update, pskSearch, Ok((secret, seen)), ids[0], index) == Err(ValidationError);
      AccumulateFoldAfterError(update, pskSearch, count, tail, index + 1, ValidationError);
    } else {
      var next := update(secret, ids[0], psk.value, index);
      assert AccumulateStep(update, pskSearch, Ok((secret, seen)), ids[0], index) == Ok((next, seen + [ids[0]]));
      AccumulateFoldMissing(update, pskSearch, count, tail, index + 1, next, seen + [ids[0]]);
    }
  }

  lemma AccumulateFoldSpec(update: PskUpdate, pskSearch: PskIndex, count: uint16,
    ids: seq<PreSharedKeyId>, index: nat, secret: seq<byte>, seen: seq<PreSharedKeyId>)
    requires index + |ids| <= count
    ensures var r := AccumulateFold(update, pskSearch, count, ids, index, Ok((secret, seen)));
      if AllFound(pskSearch, ids) then r == Ok((PskFold(update, WithPsks(pskSearch, ids), count, secret, index), seen + ids))
      else r == Err(ValidationError)
  {
    if AllFound(pskSearch, ids) {
      AccumulateFoldFound(update, pskSearch, count, ids, index, secret, seen);
    } else {
      AccumulateFoldMissing(update, pskSearch, count, ids, index, secret, seen);
    }
  }

  lemma AccumulateFromStart(groupedPsk: seq<PreSharedKeyId>, pskSearch: PskIndex, cs: CiphersuiteImpl, zeroes: seq<byte>)
    requires |groupedPsk| < 0x1_0000
    ensures var r := AccumulateFold(PskUpdateOf(cs, |groupedPsk|), pskSearch, |groupedPsk|, groupedPsk, 0, Ok((zeroes, [])));
      if AllFound(pskSearch, groupedPsk) then
        r == Ok((PskSecretAfter(cs, WithPsks(pskSearch, groupedPsk), |groupedPsk|, zeroes, |groupedPsk|), groupedPsk))
      else r == Err(ValidationError)
  {
    var count := |groupedPsk|;
    AccumulateFoldSpec(PskUpdateOf(cs, count), pskSearch, count, groupedPsk, 0, zeroes, []);
    assert [] + groupedPsk == groupedPsk;
    if AllFound(pskSearch, groupedPsk) {
      var ps := WithPsks(pskSearch, groupedPsk);
      PskFoldIsRecurrence(cs, ps, count, zeroes, 0);
      assert ps[0..] == ps;
    }
  }

  /**
   * The PSK secret and the ids of a commit: fails with ValidationError as
   * soon as an id is not found; otherwise the ids come back in input order
   * and the secret is the fold with the list length as count, starting from
   * the caller's zeroes.
   */
  function AccumulatePskSecret(groupedPsk: seq<PreSharedKeyId>, pskSearch: PskIndex, cs: CiphersuiteImpl, zeroes: seq<byte>)
    : (r: Result<(seq<byte>, seq<PreSharedKeyId>)>)
    requires |groupedPsk| < 0x1_0000
    ensures r.Err? <==> exists i :: 0 <= i < |groupedPsk| && pskSearch(groupedPsk[i]).None?
    ensures r.Err? ==> r.error == ValidationError
    ensures r.Ok? ==> (AllFound(pskSearch, groupedPsk) && r.value.1 == groupedPsk
      && r.value.0 == PskSecretAfter(cs, WithPsks(pskSearch, groupedPsk), |groupedPsk|, zeroes, |groupedPsk|))
    ensures groupedPsk == [] ==> r == Ok((zeroes, []))
  {
    var count := |groupedPsk|;
    AccumulateFromStart(groupedPsk, pskSearch, cs, zeroes);
    AccumulateFold(PskUpdateOf(cs, count), pskSearch, count, groupedPsk, 0, Ok((zeroes, [])))
  }

  /** Starting from zeros of the KDF size, the accumulated secret is the PSK secret of the found PSKs. */
  lemma AccumulateMatchesCompute(groupedPsk: seq<PreSharedKeyId>, pskSearch: PskIndex, cs: CiphersuiteImpl)
    requires |groupedPsk| < 0x1_0000 && AllFound(pskSearch, groupedPsk)
    ensures AccumulatePskSecret(groupedPsk, pskSearch, cs, Zeros(cs.kdf.size))
      == Ok((ComputePskSecret(cs, WithPsks(pskSearch, groupedPsk)), groupedPsk))
  {
  }

  /** With the empty index, any commit that references a PSK fails. */
  lemma EmptyIndexRejects(groupedPsk: seq<PreSharedKeyId>, cs: CiphersuiteImpl, zeroes: seq<byte>)
    requires 0 < |groupedPsk| < 0x1_0000
    ensures AccumulatePskSecret(groupedPsk, EmptyPskIndex, cs, zeroes) == Err(ValidationError)
  {
    assert EmptyPskIndex(groupedPsk[0]).None?;
  }
}
