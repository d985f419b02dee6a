/**
 * The decoder combinators of src/codec/tlsDecoder.ts.
 *
 * A decoder reads a value at an offset of a byte buffer and reports how many
 * bytes it consumed, or fails (the source's `undefined`).
 */
module TlsDecoder {
  import opened Wrappers
  import opened Bytes

  type Decoder<T> = (seq<byte>, nat) -> Option<(T, nat)>

  /**
   * `d` reads back exactly `x`, consuming all of `e`, from every buffer that
   * holds the bytes `e` at the offset it is started at, whatever follows.
   * This is the round-trip property of an encoder that produced `e` from `x`.
   */
  ghost predicate Decodes<T>(d: Decoder<T>, e: seq<byte>, x: T) {
    forall b: seq<byte>, o: nat {:trigger d(b, o)} ::
      o + |e| <= |b| && b[o..o + |e|] == e ==> d(b, o) == Some((x, |e|))
  }

  /** `d` fails on every buffer whose bytes at the offset start with `p`. */
  ghost predicate Rejects<T>(d: Decoder<T>, p: seq<byte>) {
    forall b: seq<byte>, o: nat {:trigger d(b, o)} ::
      o + |p| <= |b| && b[o..o + |p|] == p ==> d(b, o).None?
  }

  /** An encoding that a decoder reads back determines the value: encoders with a decoder are injective. */
  lemma DecodesUnique<T>(d: Decoder<T>, e: seq<byte>, x: T, y: T)
    requires Decodes(d, e, x) && Decodes(d, e, y)
    ensures x == y
  {
    assert e[0..0 + |e|] == e;
    assert d(e, 0) == Some((x, |e|));
  }

  /**
   * Two readable encodings that start the same buffer are the same encoding
   * of the same value, so what follows them is the same too.
   */
  lemma DecodesPrefixUnique<T>(d: Decoder<T>, e1: seq<byte>, x: T, r1: seq<byte>, e2: seq<byte>, y: T, r2: seq<byte>)
    requires Decodes(d, e1, x) && Decodes(d, e2, y) && e1 + r1 == e2 + r2
    ensures x == y && e1 == e2 && r1 == r2
  {
    var b := e1 + r1;
    assert b[0..0 + |e1|] == e1;
    assert b[0..0 + |e2|] == e2;
    assert d(b, 0) == Some((x, |e1|));
    assert d(b, 0) == Some((y, |e2|));
    assert r1 == b[|e1|..] && r2 == b[|e2|..];
  }

  /** The bytes that follow `p` do not matter to a decoder that rejects `p`. */
  lemma RejectsExtended<T>(d: Decoder<T>, p: seq<byte>, rest: seq<byte>)
    requires Rejects(d, p)
    ensures Rejects(d, p + rest)
  {
    forall b: seq<byte>, o: nat | o + |p + rest| <= |b| && b[o..o + |p + rest|] == p + rest
      ensures d(b, o).None?
    {
      assert b[o..o + |p|] == (p + rest)[..|p|];
    }
  }

  // ---------------------------------------------------------------------
  // mapDecoder, mapDecoderOption, succeedDecoder, decodeVoid, orDecoder,
  // flatMapDecoderAndMap, flatMapDecoder
  // ---------------------------------------------------------------------

  function MapDecoder<T, U>(dec: Decoder<T>, f: T -> U): Decoder<U> {
    (b: seq<byte>, o: nat) =>
      var x := dec(b, o);
      if x.None? then None else Some((f(x.value.0), x.value.1))
  }

  /** On success `f` (which may fail, the source's `undefined`) decides the value. */
  function MapDecoderOption<T, U>(dec: Decoder<T>, f: T -> Option<U>): Decoder<U> {
    (b: seq<byte>, o: nat) =>
      var x := dec(b, o);
      if x.None? then None
      else
        var u := f(x.value.0);
        if u.None? then None else Some((u.value, x.value.1))
  }

  function SucceedDecoder<T>(t: T): Decoder<T> {
    (b: seq<byte>, o: nat) => Some((t, 0))
  }

  const DecodeVoid: Decoder<()> := SucceedDecoder(())

  /** Both alternatives start at the same offset; the first result wins when it succeeds. */
  function OrDecoder<T>(decT: Decoder<T>, decU: Decoder<T>): Decoder<T> {
    (b: seq<byte>, o: nat) =>
      var t := decT(b, o);
      if t.Some? then t else decU(b, o)
  }

  function FlatMapDecoderAndMap<T, U, V>(dec: Decoder<T>, f: T -> Decoder<U>, g: (T, U) -> V): Decoder<V> {
    (b: seq<byte>, o: nat) =>
      var x := dec(b, o);
      if x.None? then None
      else
        var y := f(x.value.0)(b, o + x.value.1);
        if y.None? then None
        else var l: nat := x.value.1 + y.value.1; Some((g(x.value.0, y.value.0), l))
  }

  function FlatMapDecoder<T, U>(dec: Decoder<T>, f: T -> Decoder<U>): Decoder<U> {
    FlatMapDecoderAndMap(dec, f, (t: T, u: U) => u)
  }

  lemma MapDecoderBehaviour<T, U>(dec: Decoder<T>, f: T -> U, b: seq<byte>, o: nat)
    ensures MapDecoder(dec, f)(b, o).None? <==> dec(b, o).None?
    ensures dec(b, o).Some? ==> MapDecoder(dec, f)(b, o) == Some((f(dec(b, o).value.0), dec(b, o).value.1))
  {
  }

  lemma MapDecoderOptionBehaviour<T, U>(dec: Decoder<T>, f: T -> Option<U>, b: seq<byte>, o: nat)
    ensures MapDecoderOption(dec, f)(b, o).Some? <==> dec(b, o).Some? && f(dec(b, o).value.0).Some?
    ensures MapDecoderOption(dec, f)(b, o).Some? ==>
      MapDecoderOption(dec, f)(b, o).value == (f(dec(b, o).value.0).value, dec(b, o).value.1)
  {
  }

  lemma SucceedDecoderBehaviour<T>(t: T, b: seq<byte>, o: nat)
    ensures SucceedDecoder(t)(b, o) == Some((t, 0))
    ensures DecodeVoid(b, o) == Some(((), 0))
  {
  }

  lemma OrDecoderBehaviour<T>(decT: Decoder<T>, decU: Decoder<T>, b: seq<byte>, o: nat)
    ensures decT(b, o).Some? ==> OrDecoder(decT, decU)(b, o) == decT(b, o)
    ensures decT(b, o).None? ==> OrDecoder(decT, decU)(b, o) == decU(b, o)
  {
  }

  lemma FlatMapDecoderAndMapBehaviour<T, U, V>(dec: Decoder<T>, f: T -> Decoder<U>, g: (T, U) -> V, b: seq<byte>, o: nat)
    ensures dec(b, o).None? ==> FlatMapDecoderAndMap(dec, f, g)(b, o).None?
    ensures dec(b, o).Some? ==>
      var (t, l1) := dec(b, o).value;
      var second := f(t)(b, o + l1);
      FlatMapDecoderAndMap(dec, f, g)(b, o) == if second.None? then None else Some((g(t, second.value.0), l1 + second.value.1))
  {
  }

  // Round trips through the combinators.

  lemma MapDecoderDecodes<T, U>(dec: Decoder<T>, f: T -> U, e: seq<byte>, x: T)
    requires Decodes(dec, e, x)
    ensures Decodes(MapDecoder(dec, f), e, f(x))
  {
  }

  lemma MapDecoderOptionDecodes<T, U>(dec: Decoder<T>, f: T -> Option<U>, e: seq<byte>, x: T, u: U)
    requires Decodes(dec, e, x) && f(x) == Some(u)
    ensures Decodes(MapDecoderOption(dec, f), e, u)
  {
  }

  /** A value the table lookup rejects is a failure, wherever its encoding sits. */
  lemma MapDecoderOptionRejects<T, U>(dec: Decoder<T>, f: T -> Option<U>, e: seq<byte>, x: T)
    requires Decodes(dec, e, x) && f(x).None?
    ensures Rejects(MapDecoderOption(dec, f), e)
  {
  }

  lemma SucceedDecoderDecodes<T>(t: T)
    ensures Decodes(SucceedDecoder(t), [], t)
  {
  }

  lemma OrDecoderFirst<T>(decT: Decoder<T>, decU: Decoder<T>, e: seq<byte>, x: T)
    requires Decodes(decT, e, x)
    ensures Decodes(OrDecoder(decT, decU), e, x)
  {
  }

  lemma OrDecoderSecond<T>(decT: Decoder<T>, decU: Decoder<T>, p: seq<byte>, e: seq<byte>, x: T)
    requires Rejects(decT, p) && Decodes(decU, p + e, x)
    ensures Decodes(OrDecoder(decT, decU), p + e, x)
  {
    RejectsExtended(decT, p, e);
  }

  lemma FlatMapDecoderAndMapDecodes<T, U, V>(
    dec: Decoder<T>, f: T -> Decoder<U>, g: (T, U) -> V,
    e1: seq<byte>, e2: seq<byte>, t: T, u: U)
    requires Decodes(dec, e1, t) && Decodes(f(t), e2, u)
    ensures Decodes(FlatMapDecoderAndMap(dec, f, g), e1 + e2, g(t, u))
  {
    var d := FlatMapDecoderAndMap(dec, f, g);
    forall b: seq<byte>, o: nat | o + |e1 + e2| <= |b| && b[o..o + |e1 + e2|] == e1 + e2
      ensures d(b, o) == Some((g(t, u), |e1 + e2|))
    {
      assert b[o..o + |e1|] == (e1 + e2)[..|e1|];
      assert b[o + |e1|..o + |e1| + |e2|] == (e1 + e2)[|e1|..];
    }
  }

  lemma FlatMapDecoderDecodes<T, U>(dec: Decoder<T>, f: T -> Decoder<U>, e1: seq<byte>, e2: seq<byte>, t: T, u: U)
    requires Decodes(dec, e1, t) && Decodes(f(t), e2, u)
    ensures Decodes(FlatMapDecoder(dec, f), e1 + e2, u)
  {
    FlatMapDecoderAndMapDecodes(dec, f, (t: T, u: U) => u, e1, e2, t, u);
  }

  /** When the first decoder rejects `p`, so does the whole flat map. */
  lemma FlatMapDecoderAndMapRejects<T, U, V>(dec: Decoder<T>, f: T -> Decoder<U>, g: (T, U) -> V, p: seq<byte>)
    requires Rejects(dec, p)
    ensures Rejects(FlatMapDecoderAndMap(dec, f, g), p)
  {
  }

  // ---------------------------------------------------------------------
  // mapDecoders: the reduce of lines 31-57, over a list of decoders of one
  // value type, and an independent right-nested reference definition.
  // ---------------------------------------------------------------------

  /** The accumulator `{values, offset, totalLength}` of the reduce. */
  datatype Progress<T> = Progress(values: seq<T>, offset: nat, totalLength: nat)

  /** One step of the reduce: a failed accumulator stays failed (lines 41-44). */
  function Step<T>(acc: Option<Progress<T>>, d: Decoder<T>, b: seq<byte>): Option<Progress<T>> {
    if acc.None? then None
    else
      var decoded := d(b, acc.value.offset);
      if decoded.None? then None
      else
        var (v, l) := decoded.value;
        Some(Progress(acc.value.values + [v], acc.value.offset + l, acc.value.totalLength + l))
  }

  /** `decoders.reduce(step, acc)`, the left fold. */
  function Reduce<T>(ds: seq<Decoder<T>>, b: seq<byte>, acc: Option<Progress<T>>): Option<Progress<T>>
    decreases |ds|
  {
    if ds == [] then acc else Reduce(ds[1..], b, Step(acc, ds[0], b))
  }

  function MapDecoders<T, R>(ds: seq<Decoder<T>>, f: seq<T> -> R): Decoder<R> {
    (b: seq<byte>, o: nat) =>
      var res := Reduce(ds, b, Some(Progress([], o, 0)));
      if res.None? then None else Some((f(res.value.values), res.value.totalLength))
  }

  function MapDecodersOption<T, R>(ds: seq<Decoder<T>>, f: seq<T> -> Option<R>): Decoder<R> {
    MapDecoderOption(MapDecoders(ds, f), (r: Option<R>) => r)
  }

  /**
   * Reference definition: the first decoder runs at `o`, the rest run from
   * `o` plus the length it consumed, and the lengths add up.
   */
  function Chain<T>(ds: seq<Decoder<T>>, b: seq<byte>, o: nat): Option<(seq<T>, nat)>
    decreases |ds|
  {
    if ds == [] then Some(([], 0))
    else
      var first := ds[0](b, o);
      if first.None? then None
      else
        var rest := Chain(ds[1..], b, o + first.value.1);
        if rest.None? then None
        else Some(([first.value.0] + rest.value.0, first.value.1 + rest.value.1))
  }

  /** Once the accumulator is undefined no later decoder is consulted. */
  lemma {:induction false} ReduceAfterFailure<T>(ds: seq<Decoder<T>>, b: seq<byte>)
    ensures Reduce(ds, b, None) == None
    decreases |ds|
  {
    if ds != [] {
      ReduceAfterFailure(ds[1..], b);
    }
  }

  /** The left fold agrees with the reference chain from any accumulator. */
  lemma {:induction false} ReduceIsChain<T>(ds: seq<Decoder<T>>, b: seq<byte>, p: Progress<T>)
    ensures Reduce(ds, b, Some(p)) ==
      var c := Chain(ds, b, p.offset);
      if c.None? then None
      else Some(Progress(p.values + c.value.0, p.offset + c.value.1, p.totalLength + c.value.1))
    decreases |ds|
  {
    if ds != [] {
      var first := ds[0](b, p.offset);
      if first.None? {
        ReduceAfterFailure(ds[1..], b);
      } else {
        var (v, l) := first.value;
        var p' := Progress(p.values + [v], p.offset + l, p.totalLength + l);
        assert Step(Some(p), ds[0], b) == Some(p');
        assert Reduce(ds, b, Some(p)) == Reduce(ds[1..], b, Some(p'));
        ReduceIsChain(ds[1..], b, p');
        var rest := Chain(ds[1..], b, p.offset + l);
        if rest.Some? {
          assert Chain(ds, b, p.offset) == Some(([v] + rest.value.0, l + rest.value.1));
          assert p.values + [v] + rest.value.0 == p.values + ([v] + rest.value.0);
        } else {
          assert Chain(ds, b, p.offset).None?;
        }
      }
    } else {
      assert p.values + [] == p.values;
    }
  }

  /**
   * mapDecoders succeeds exactly when the chain does, with the values it read
   * and the total of the lengths.
   */
  lemma MapDecodersIsChain<T, R>(ds: seq<Decoder<T>>, f: seq<T> -> R, b: seq<byte>, o: nat)
    ensures MapDecoders(ds, f)(b, o) ==
      var c := Chain(ds, b, o);
      if c.None? then None else Some((f(c.value.0), c.value.1))
  {
    ReduceIsChain(ds, b, Progress([], o, 0));
    var c := Chain(ds, b, o);
    if c.Some? {
      assert [] + c.value.0 == c.value.0;
    }
  }

  /** Each decoder succeeded at its offset, and the values come back in order, one per decoder. */
  lemma {:induction false} ChainValues<T>(ds: seq<Decoder<T>>, b: seq<byte>, o: nat, k: nat)
    requires Chain(ds, b, o).Some? && k < |ds|
    ensures |Chain(ds, b, o).value.0| == |ds|
    ensures Chain(ds[..k], b, o).Some?
    ensures ds[k](b, o + Chain(ds[..k], b, o).value.1).Some?
    ensures ds[k](b, o + Chain(ds[..k], b, o).value.1).value.0 == Chain(ds, b, o).value.0[k]
    decreases |ds|
  {
    var first := ds[0](b, o);
    var l := first.value.1;
    if k == 0 {
      assert ds[..0] == [];
      if |ds| > 1 {
        ChainValues(ds[1..], b, o + l, 0);
      }
    } else {
      ChainValues(ds[1..], b, o + l, k - 1);
      assert ds[..k][1..] == ds[1..][..k - 1];
    }
  }

  /**
   * A decoder that fails at the offset reached by the decoders before it
   * makes the whole of mapDecoders fail.
   */
  lemma {:induction false} ChainFailsAt<T>(ds: seq<Decoder<T>>, b: seq<byte>, o: nat, k: nat)
    requires k < |ds| && Chain(ds[..k], b, o).Some?
    requires ds[k](b, o + Chain(ds[..k], b, o).value.1).None?
    ensures Chain(ds, b, o).None?
    decreases k
  {
    if k == 0 {
      assert ds[..0] == [];
    } else {
      assert ds[..k][1..] == ds[1..][..k - 1];
      ChainFailsAt(ds[1..], b, o + ds[0](b, o).value.1, k - 1);
    }
  }

  function ConcatAll(es: seq<seq<byte>>): seq<byte>
    decreases |es|
  {
    if es == [] then [] else es[0] + ConcatAll(es[1..])
  }

  /** Encodings decoded one after the other decode as the list of values. */
  lemma {:induction false} ChainDecodes<T>(ds: seq<Decoder<T>>, es: seq<seq<byte>>, xs: seq<T>, b: seq<byte>, o: nat)
    requires |ds| == |es| == |xs|
    requires forall k :: 0 <= k < |ds| ==> Decodes(ds[k], es[k], xs[k])
    requires o + |ConcatAll(es)| <= |b| && b[o..o + |ConcatAll(es)|] == ConcatAll(es)
    ensures Chain(ds, b, o) == Some((xs, |ConcatAll(es)|))
    decreases |ds|
  {
    if ds != [] {
      var all := ConcatAll(es);
      assert all == es[0] + ConcatAll(es[1..]);
      assert b[o..o + |es[0]|] == all[..|es[0]|];
      assert ds[0](b, o) == Some((xs[0], |es[0]|));
      var o' := o + |es[0]|;
      assert b[o'..o' + |ConcatAll(es[1..])|] == all[|es[0]|..];
      ChainDecodes(ds[1..], es[1..], xs[1..], b, o');
      assert [xs[0]] + xs[1..] == xs;
    }
  }

  lemma MapDecodersDecodes<T, R>(ds: seq<Decoder<T>>, f: seq<T> -> R, es: seq<seq<byte>>, xs: seq<T>)
    requires |ds| == |es| == |xs|
    requires forall k :: 0 <= k < |ds| ==> Decodes(ds[k], es[k], xs[k])
    ensures Decodes(MapDecoders(ds, f), ConcatAll(es), f(xs))
  {
    forall b: seq<byte>, o: nat | o + |ConcatAll(es)| <= |b| && b[o..o + |ConcatAll(es)|] == ConcatAll(es)
      ensures MapDecoders(ds, f)(b, o) == Some((f(xs), |ConcatAll(es)|))
    {
      ChainDecodes(ds, es, xs, b, o);
      MapDecodersIsChain(ds, f, b, o);
    }
  }

  lemma MapDecodersOptionBehaviour<T, R>(ds: seq<Decoder<T>>, f: seq<T> -> Option<R>, b: seq<byte>, o: nat)
    ensures MapDecodersOption(ds, f)(b, o).Some? <==>
      MapDecoders(ds, f)(b, o).Some? && MapDecoders(ds, f)(b, o).value.0.Some?
    ensures MapDecodersOption(ds, f)(b, o).Some? ==>
      MapDecodersOption(ds, f)(b, o).value == (MapDecoders(ds, f)(b, o).value.0.value, MapDecoders(ds, f)(b, o).value.1)
  {
  }

  // ---------------------------------------------------------------------
  // mapDecoders over a tuple of decoders of different value types, as the
  // structure codecs call it. Each runs decoder k at the offset reached by
  // decoders 0..k-1 and reports the sum of the lengths.
  // ---------------------------------------------------------------------

  function MapDecoders2<A, B, R>(da: Decoder<A>, db: Decoder<B>, f: (A, B) -> R): Decoder<R> {
    (b: seq<byte>, o: nat) =>
      var x := da(b, o);
      if x.None? then None
      else
        var y := db(b, o + x.value.1);
        if y.None? then None
        else var l: nat := x.value.1 + y.value.1; Some((f(x.value.0, y.value.0), l))
  }

  function MapDecoders3<A, B, C, R>(da: Decoder<A>, db: Decoder<B>, dc: Decoder<C>, f: (A, B, C) -> R): Decoder<R> {
    MapDecoders2(da, MapDecoders2(db, dc, (y: B, z: C) => (y, z)), (x: A, yz: (B, C)) => f(x, yz.0, yz.1))
  }

  function MapDecoders4<A, B, C, D, R>(da: Decoder<A>, db: Decoder<B>, dc: Decoder<C>, dd: Decoder<D>,
    f: (A, B, C, D) -> R): Decoder<R>
  {
    MapDecoders2(da, MapDecoders3(db, dc, dd, (y: B, z: C, w: D) => (y, z, w)),
      (x: A, t: (B, C, D)) => f(x, t.0, t.1, t.2))
  }

  function MapDecoders5<A, B, C, D, E, R>(da: Decoder<A>, db: Decoder<B>, dc: Decoder<C>, dd: Decoder<D>,
    de: Decoder<E>, f: (A, B, C, D, E) -> R): Decoder<R>
  {
    MapDecoders2(da, MapDecoders4(db, dc, dd, de, (y: B, z: C, w: D, v: E) => (y, z, w, v)),
      (x: A, t: (B, C, D, E)) => f(x, t.0, t.1, t.2, t.3))
  }

  function MapDecoders7<A, B, C, D, E, F, G, R>(da: Decoder<A>, db: Decoder<B>, dc: Decoder<C>, dd: Decoder<D>,
    de: Decoder<E>, df: Decoder<F>, dg: Decoder<G>, f: (A, B, C, D, E, F, G) -> R): Decoder<R>
  {
    MapDecoders2(da,
      MapDecoders2(db, MapDecoders5(dc, dd, de, df, dg, (z: C, w: D, v: E, u: F, s: G) => (z, w, v, u, s)),
        (y: B, t: (C, D, E, F, G)) => (y, t)),
      (x: A, t: (B, (C, D, E, F, G))) => f(x, t.0, t.1.0, t.1.1, t.1.2, t.1.3, t.1.4))
  }

  function MapDecodersOption3<A, B, C, R>(da: Decoder<A>, db: Decoder<B>, dc: Decoder<C>,
    f: (A, B, C) -> Option<R>): Decoder<R>
  {
    MapDecoderOption(MapDecoders3(da, db, dc, f), (r: Option<R>) => r)
  }

  /** The two-decoder tuple form agrees with the reduce over the list [da, db]. */
  lemma MapDecoders2IsReduce<T, R>(da: Decoder<T>, db: Decoder<T>, g: seq<T> -> R, b: seq<byte>, o: nat)
    ensures MapDecoders2(da, db, (x: T, y: T) => g([x, y]))(b, o) == MapDecoders([da, db], g)(b, o)
  {
    MapDecodersIsChain([da, db], g, b, o);
    assert [da, db][1..] == [db];
    assert [db][1..] == [];
    var x := da(b, o);
    if x.Some? {
      var y := db(b, o + x.value.1);
      if y.Some? {
        assert Chain([db][1..], b, o + x.value.1 + y.value.1) == Some(([], 0));
        assert [y.value.0] + [] == [y.value.0];
        assert Chain([db], b, o + x.value.1) == Some(([y.value.0], y.value.1));
        assert [x.value.0] + [y.value.0] == [x.value.0, y.value.0];
        assert Chain([da, db], b, o) == Some(([x.value.0, y.value.0], x.value.1 + y.value.1));
      } else {
        assert Chain([db], b, o + x.value.1).None?;
      }
    }
  }

  lemma MapDecoders2Behaviour<A, B, R>(da: Decoder<A>, db: Decoder<B>, f: (A, B) -> R, b: seq<byte>, o: nat)
    ensures da(b, o).None? ==> MapDecoders2(da, db, f)(b, o).None?
    ensures da(b, o).Some? && db(b, o + da(b, o).value.1).None? ==> MapDecoders2(da, db, f)(b, o).None?
    ensures MapDecoders2(da, db, f)(b, o).Some? ==>
      MapDecoders2(da, db, f)(b, o).value.1 == da(b, o).value.1 + db(b, o + da(b, o).value.1).value.1
  {
  }

  lemma MapDecoders2Decodes<A, B, R>(da: Decoder<A>, db: Decoder<B>, f: (A, B) -> R,
    ea: seq<byte>, eb: seq<byte>, a: A, b': B)
    requires Decodes(da, ea, a) && Decodes(db, eb, b')
    ensures Decodes(MapDecoders2(da, db, f), ea + eb, f(a, b'))
  {
    var d := MapDecoders2(da, db, f);
    forall b: seq<byte>, o: nat | o + |ea + eb| <= |b| && b[o..o + |ea + eb|] == ea + eb
      ensures d(b, o) == Some((f(a, b'), |ea + eb|))
    {
      assert b[o..o + |ea|] == (ea + eb)[..|ea|];
      assert b[o + |ea|..o + |ea| + |eb|] == (ea + eb)[|ea|..];
    }
  }

  /** A first field that fails makes the pair fail. */
  lemma MapDecoders2RejectsFirst<A, B, R>(da: Decoder<A>, db: Decoder<B>, f: (A, B) -> R, p: seq<byte>)
    requires Rejects(da, p)
    ensures Rejects(MapDecoders2(da, db, f), p)
  {
  }

  /** After a first field that reads back, a second field that fails makes the pair fail. */
  lemma MapDecoders2RejectsSecond<A, B, R>(da: Decoder<A>, db: Decoder<B>, f: (A, B) -> R, ea: seq<byte>, a: A, p: seq<byte>)
    requires Decodes(da, ea, a) && Rejects(db, p)
    ensures Rejects(MapDecoders2(da, db, f), ea + p)
  {
    var d := MapDecoders2(da, db, f);
    forall b: seq<byte>, o: nat | o + |ea + p| <= |b| && b[o..o + |ea + p|] == ea + p
      ensures d(b, o).None?
    {
      assert b[o..o + |ea|] == (ea + p)[..|ea|];
      assert b[o + |ea|..o + |ea| + |p|] == (ea + p)[|ea|..];
    }
  }

  /** After two fields that read back, a third that fails makes the triple fail. */
  lemma MapDecoders3RejectsThird<A, B, C, R>(da: Decoder<A>, db: Decoder<B>, dc: Decoder<C>, f: (A, B, C) -> R,
    ea: seq<byte>, eb: seq<byte>, a: A, b': B, p: seq<byte>)
    requires Decodes(da, ea, a) && Decodes(db, eb, b') && Rejects(dc, p)
    ensures Rejects(MapDecoders3(da, db, dc, f), ea + eb + p)
  {
    var pair := (y: B, z: C) => (y, z);
    MapDecoders2RejectsSecond(db, dc, pair, eb, b', p);
    MapDecoders2RejectsSecond(da, MapDecoders2(db, dc, pair), (x: A, yz: (B, C)) => f(x, yz.0, yz.1), ea, a, eb + p);
    assert ea + (eb + p) == ea + eb + p;
  }

  /** After a first field that reads back, a second that fails makes the triple fail. */
  lemma MapDecoders3RejectsSecond<A, B, C, R>(da: Decoder<A>, db: Decoder<B>, dc: Decoder<C>, f: (A, B, C) -> R,
    ea: seq<byte>, a: A, p: seq<byte>)
    requires Decodes(da, ea, a) && Rejects(db, p)
    ensures Rejects(MapDecoders3(da, db, dc, f), ea + p)
  {
    var pair := (y: B, z: C) => (y, z);
    MapDecoders2RejectsFirst(db, dc, pair, p);
    MapDecoders2RejectsSecond(da, MapDecoders2(db, dc, pair), (x: A, yz: (B, C)) => f(x, yz.0, yz.1), ea, a, p);
  }

  /** After two fields that read back, a third that fails makes the four-field record fail. */
  lemma MapDecoders4RejectsThird<A, B, C, D, R>(da: Decoder<A>, db: Decoder<B>, dc: Decoder<C>, dd: Decoder<D>,
    f: (A, B, C, D) -> R, ea: seq<byte>, eb: seq<byte>, a: A, b': B, p: seq<byte>)
    requires Decodes(da, ea, a) && Decodes(db, eb, b') && Rejects(dc, p)
    ensures Rejects(MapDecoders4(da, db, dc, dd, f), ea + eb + p)
  {
    var triple := (y: B, z: C, w: D) => (y, z, w);
    MapDecoders3RejectsSecond(db, dc, dd, triple, eb, b', p);
    MapDecoders2RejectsSecond(da, MapDecoders3(db, dc, dd, triple), (x: A, t: (B, C, D)) => f(x, t.0, t.1, t.2),
      ea, a, eb + p);
    assert ea + (eb + p) == ea + eb + p;
  }

  /** After three fields that read back, a fourth that fails makes the five-field record fail. */
  lemma MapDecoders5RejectsFourth<A, B, C, D, E, R>(da: Decoder<A>, db: Decoder<B>, dc: Decoder<C>, dd: Decoder<D>,
    de: Decoder<E>, f: (A, B, C, D, E) -> R, ea: seq<byte>, eb: seq<byte>, ec: seq<byte>, a: A, b': B, c: C, p: seq<byte>)
    requires Decodes(da, ea, a) && Decodes(db, eb, b') && Decodes(dc, ec, c) && Rejects(dd, p)
    ensures Rejects(MapDecoders5(da, db, dc, dd, de, f), ea + eb + ec + p)
  {
    var quad := (y: B, z: C, w: D, v: E) => (y, z, w, v);
    MapDecoders4RejectsThird(db, dc, dd, de, quad, eb, ec, b', c, p);
    MapDecoders2RejectsSecond(da, MapDecoders4(db, dc, dd, de, quad), (x: A, t: (B, C, D, E)) => f(x, t.0, t.1, t.2, t.3),
      ea, a, eb + ec + p);
    assert ea + (eb + ec + p) == ea + eb + ec + p;
  }

  lemma MapDecoders3Decodes<A, B, C, R>(da: Decoder<A>, db: Decoder<B>, dc: Decoder<C>, f: (A, B, C) -> R,
    ea: seq<byte>, eb: seq<byte>, ec: seq<byte>, a: A, b': B, c: C)
    requires Decodes(da, ea, a) && Decodes(db, eb, b') && Decodes(dc, ec, c)
    ensures Decodes(MapDecoders3(da, db, dc, f), ea + eb + ec, f(a, b', c))
  {
    var pair := (y: B, z: C) => (y, z);
    MapDecoders2Decodes(db, dc, pair, eb, ec, b', c);
    MapDecoders2Decodes(da, MapDecoders2(db, dc, pair), (x: A, yz: (B, C)) => f(x, yz.0, yz.1),
      ea, eb + ec, a, (b', c));
    assert ea + (eb + ec) == ea + eb + ec;
  }

  lemma MapDecoders4Decodes<A, B, C, D, R>(da: Decoder<A>, db: Decoder<B>, dc: Decoder<C>, dd: Decoder<D>,
    f: (A, B, C, D) -> R, ea: seq<byte>, eb: seq<byte>, ec: seq<byte>, ed: seq<byte>, a: A, b': B, c: C, d: D)
    requires Decodes(da, ea, a) && Decodes(db, eb, b') && Decodes(dc, ec, c) && Decodes(dd, ed, d)
    ensures Decodes(MapDecoders4(da, db, dc, dd, f), ea + eb + ec + ed, f(a, b', c, d))
  {
    var triple := (y: B, z: C, w: D) => (y, z, w);
    MapDecoders3Decodes(db, dc, dd, triple, eb, ec, ed, b', c, d);
    MapDecoders2Decodes(da, MapDecoders3(db, dc, dd, triple), (x: A, t: (B, C, D)) => f(x, t.0, t.1, t.2),
      ea, eb + ec + ed, a, (b', c, d));
    assert ea + (eb + ec + ed) == ea + eb + ec + ed;
  }

  lemma MapDecoders5Decodes<A, B, C, D, E, R>(da: Decoder<A>, db: Decoder<B>, dc: Decoder<C>, dd: Decoder<D>,
    de: Decoder<E>, f: (A, B, C, D, E) -> R,
    ea: seq<byte>, eb: seq<byte>, ec: seq<byte>, ed: seq<byte>, ee: seq<byte>, a: A, b': B, c: C, d: D, e: E)
    requires Decodes(da, ea, a) && Decodes(db, eb, b') && Decodes(dc, ec, c) && Decodes(dd, ed, d)
    requires Decodes(de, ee, e)
    ensures Decodes(MapDecoders5(da, db, dc, dd, de, f), ea + eb + ec + ed + ee, f(a, b', c, d, e))
  {
    var quad := (y: B, z: C, w: D, v: E) => (y, z, w, v);
    MapDecoders4Decodes(db, dc, dd, de, quad, eb, ec, ed, ee, b', c, d, e);
    MapDecoders2Decodes(da, MapDecoders4(db, dc, dd, de, quad),
      (x: A, t: (B, C, D, E)) => f(x, t.0, t.1, t.2, t.3), ea, eb + ec + ed + ee, a, (b', c, d, e));
    assert ea + (eb + ec + ed + ee) == ea + eb + ec + ed + ee;
  }

  lemma MapDecoders7Decodes<A, B, C, D, E, F, G, R>(da: Decoder<A>, db: Decoder<B>, dc: Decoder<C>, dd: Decoder<D>,
    de: Decoder<E>, df: Decoder<F>, dg: Decoder<G>, f: (A, B, C, D, E, F, G) -> R,
    ea: seq<byte>, eb: seq<byte>, ec: seq<byte>, ed: seq<byte>, ee: seq<byte>, ef: seq<byte>, eg: seq<byte>,
    a: A, b': B, c: C, d: D, e: E, f': F, g: G)
    requires Decodes(da, ea, a) && Decodes(db, eb, b') && Decodes(dc, ec, c) && Decodes(dd, ed, d)
    requires Decodes(de, ee, e) && Decodes(df, ef, f') && Decodes(dg, eg, g)
    ensures Decodes(MapDecoders7(da, db, dc, dd, de, df, dg, f), ea + eb + ec + ed + ee + ef + eg, f(a, b', c, d, e, f', g))
  {
    var five := (z: C, w: D, v: E, u: F, s: G) => (z, w, v, u, s);
    MapDecoders5Decodes(dc, dd, de, df, dg, five, ec, ed, ee, ef, eg, c, d, e, f', g);
    var inner := MapDecoders5(dc, dd, de, df, dg, five);
    var tail := (y: B, t: (C, D, E, F, G)) => (y, t);
    MapDecoders2Decodes(db, inner, tail, eb, ec + ed + ee + ef + eg, b', (c, d, e, f', g));
    MapDecoders2Decodes(da, MapDecoders2(db, inner, tail),
      (x: A, t: (B, (C, D, E, F, G))) => f(x, t.0, t.1.0, t.1.1, t.1.2, t.1.3, t.1.4),
      ea, eb + (ec + ed + ee + ef + eg), a, (b', (c, d, e, f', g)));
    assert ea + (eb + (ec + ed + ee + ef + eg)) == ea + eb + ec + ed + ee + ef + eg;
  }

  lemma MapDecodersOption3Decodes<A, B, C, R>(da: Decoder<A>, db: Decoder<B>, dc: Decoder<C>,
    f: (A, B, C) -> Option<R>, ea: seq<byte>, eb: seq<byte>, ec: seq<byte>, a: A, b': B, c: C, r: R)
    requires Decodes(da, ea, a) && Decodes(db, eb, b') && Decodes(dc, ec, c) && f(a, b', c) == Some(r)
    ensures Decodes(MapDecodersOption3(da, db, dc, f), ea + eb + ec, r)
  {
    MapDecoders3Decodes(da, db, dc, f, ea, eb, ec, a, b', c);
    MapDecoderOptionDecodes(MapDecoders3(da, db, dc, f), (r: Option<R>) => r, ea + eb + ec, f(a, b', c), r);
  }

  /** A Some result of `f` decodes; None is rejected, both for the encoded fields. */
  lemma MapDecodersOption3Rejects<A, B, C, R>(da: Decoder<A>, db: Decoder<B>, dc: Decoder<C>,
    f: (A, B, C) -> Option<R>, ea: seq<byte>, eb: seq<byte>, ec: seq<byte>, a: A, b': B, c: C)
    requires Decodes(da, ea, a) && Decodes(db, eb, b') && Decodes(dc, ec, c) && f(a, b', c).None?
    ensures Rejects(MapDecodersOption3(da, db, dc, f), ea + eb + ec)
  {
    MapDecoders3Decodes(da, db, dc, f, ea, eb, ec, a, b', c);
    MapDecoderOptionRejects(MapDecoders3(da, db, dc, f), (r: Option<R>) => r, ea + eb + ec, f(a, b', c));
  }
}
