/**
 * Length-prefixed byte strings and lists (`opaque data<V>` and `T list<V>`
 * of RFC 9420 section 2.1.2). codec/variableLength is not part of this
 * model: its length header is specified here as a prefix-free header that
 * round-trips for every length (seven bits per byte, least significant group
 * first, the high bit set on every byte but the last).
 */
module VariableLength {
  import opened Wrappers
  import opened Bytes
  import opened TlsDecoder

  function EncodeLength(n: nat): (r: seq<byte>)
    ensures |r| >= 1
    decreases n
  {
    if n < 128 then [n] else [128 + n % 128] + EncodeLength(n / 128)
  }

  function DecodeLength(b: seq<byte>, o: nat): Option<(nat, nat)>
    decreases |b| - o
  {
    if o >= |b| then None
    else if b[o] < 128 then Some((b[o], 1))
    else
      var rest := DecodeLength(b, o + 1);
      if rest.None? then None else Some((b[o] - 128 + 128 * rest.value.0, rest.value.1 + 1))
  }

  /** The header of any length reads back as that length, whatever follows it. */
  lemma {:induction false} LengthRoundTrip(n: nat, b: seq<byte>, o: nat)
    requires o + |EncodeLength(n)| <= |b| && b[o..o + |EncodeLength(n)|] == EncodeLength(n)
    ensures DecodeLength(b, o) == Some((n, |EncodeLength(n)|))
    decreases n
  {
    var e := EncodeLength(n);
    assert b[o] == e[0];
    if n >= 128 {
      var tail := EncodeLength(n / 128);
      assert b[o + 1..o + 1 + |tail|] == e[1..];
      LengthRoundTrip(n / 128, b, o + 1);
    }
  }

  function EncodeVarLenData(data: seq<byte>): (r: seq<byte>)
    ensures |r| > |data|
  {
    EncodeLength(|data|) + data
  }

  const DecodeVarLenData: Decoder<seq<byte>> :=
    (b: seq<byte>, o: nat) =>
      var h := DecodeLength(b, o);
      if h.None? then None
      else
        var (n, hl) := h.value;
        if o + hl + n <= |b| then var l: nat := hl + n; Some((b[o + hl..o + hl + n], l)) else None

  lemma VarLenDataRoundTrip(data: seq<byte>)
    ensures Decodes(DecodeVarLenData, EncodeVarLenData(data), data)
  {
    var e := EncodeVarLenData(data);
    forall b: seq<byte>, o: nat | o + |e| <= |b| && b[o..o + |e|] == e
      ensures DecodeVarLenData(b, o) == Some((data, |e|))
    {
      VarLenDataLayout(data, b, o);
    }
  }

  /** The concatenated encodings of the elements, in order. */
  function EncodeElems<T>(enc: T -> seq<byte>, xs: seq<T>): seq<byte>
    decreases |xs|
  {
    if xs == [] then [] else enc(xs[0]) + EncodeElems(enc, xs[1..])
  }

  /** A list is its encoded elements as one length-prefixed byte string. */
  function EncodeVarLenType<T>(enc: T -> seq<byte>, xs: seq<T>): (r: seq<byte>)
    ensures |r| >= 1
  {
    EncodeVarLenData(EncodeElems(enc, xs))
  }

  /**
   * Elements are read one after the other inside the window `w` from `i`
   * until it is used up exactly. An element that fails, overruns the window
   * or consumes nothing is a failure.
   */
  function DecodeElems<T>(dec: Decoder<T>, w: seq<byte>, i: nat): Option<seq<T>>
    decreases |w| - i
  {
    if i >= |w| then Some([])
    else
      var x := dec(w, i);
      if x.None? || x.value.1 == 0 || i + x.value.1 > |w| then None
      else
        var rest := DecodeElems(dec, w, i + x.value.1);
        if rest.None? then None else Some([x.value.0] + rest.value)
  }

  function ReadVarLenType<T>(dec: Decoder<T>, b: seq<byte>, o: nat): Option<(seq<T>, nat)> {
    var h := DecodeLength(b, o);
    if h.None? then None
    else
      var n := h.value.0;
      var hl := h.value.1;
      if o + hl + n <= |b| then
        var xs := DecodeElems(dec, b[..o + hl + n], o + hl);
        if xs.None? then None else Some((xs.value, hl + n))
      else None
  }

  function DecodeVarLenType<T>(dec: Decoder<T>): Decoder<seq<T>> {
    (b: seq<byte>, o: nat) => ReadVarLenType(dec, b, o)
  }

  /** Every element of `xs` has a non-empty encoding that `dec` reads back. */
  ghost predicate ElementsDecode<T>(dec: Decoder<T>, enc: T -> seq<byte>, xs: seq<T>) {
    forall k :: 0 <= k < |xs| ==> |enc(xs[k])| > 0 && Decodes(dec, enc(xs[k]), xs[k])
  }

  /** ElementsDecode, element by element from the front. */
  ghost predicate HeadsDecode<T>(dec: Decoder<T>, enc: T -> seq<byte>, xs: seq<T>)
    decreases |xs|
  {
    xs == [] || (|enc(xs[0])| > 0 && Decodes(dec, enc(xs[0]), xs[0]) && HeadsDecode(dec, enc, xs[1..]))
  }

  lemma {:induction false} ElementsDecodeHeads<T>(dec: Decoder<T>, enc: T -> seq<byte>, xs: seq<T>)
    requires ElementsDecode(dec, enc, xs)
    ensures HeadsDecode(dec, enc, xs)
    decreases |xs|
  {
    if xs != [] {
      forall k | 0 <= k < |xs[1..]|
        ensures |enc(xs[1..][k])| > 0 && Decodes(dec, enc(xs[1..][k]), xs[1..][k])
      {
        assert xs[1..][k] == xs[k + 1];
      }
      ElementsDecodeHeads(dec, enc, xs[1..]);
    }
  }

  /** A window ending in the encoded elements holds the first element's encoding, then the others'. */
  lemma ElemsLayout<T>(enc: T -> seq<byte>, xs: seq<T>, w: seq<byte>, i: nat)
    requires xs != []
    requires i + |EncodeElems(enc, xs)| == |w| && w[i..] == EncodeElems(enc, xs)
    ensures var n := |enc(xs[0])|;
      i + n <= |w| && w[i..i + n] == enc(xs[0])
      && i + n + |EncodeElems(enc, xs[1..])| == |w| && w[i + n..] == EncodeElems(enc, xs[1..])
  {
    var e0 := enc(xs[0]);
    var all := EncodeElems(enc, xs);
    assert all == e0 + EncodeElems(enc, xs[1..]);
    assert w[i..i + |e0|] == all[..|e0|];
    assert w[i + |e0|..] == all[|e0|..];
  }

  /** The head of a window of encoded elements decodes to the first element. */
  lemma HeadDecodes<T>(dec: Decoder<T>, x: T, e: seq<byte>, w: seq<byte>, i: nat)
    requires Decodes(dec, e, x)
    requires i + |e| <= |w| && w[i..i + |e|] == e
    ensures dec(w, i) == Some((x, |e|))
  {
  }

  /** One element read at `i`, then the rest. */
  lemma DecodeElemsCons<T>(dec: Decoder<T>, w: seq<byte>, i: nat, x: T, n: nat, rest: seq<T>)
    requires n > 0 && i + n <= |w| && dec(w, i) == Some((x, n)) && DecodeElems(dec, w, i + n) == Some(rest)
    ensures DecodeElems(dec, w, i) == Some([x] + rest)
  {
  }

  lemma {:induction false} HeadsRoundTrip<T>(dec: Decoder<T>, enc: T -> seq<byte>, xs: seq<T>, w: seq<byte>, i: nat)
    requires HeadsDecode(dec, enc, xs)
    requires i + |EncodeElems(enc, xs)| == |w| && w[i..] == EncodeElems(enc, xs)
    ensures DecodeElems(dec, w, i) == Some(xs)
    decreases |xs|
  {
    if xs == [] {
      assert |w| <= i;
    } else {
      var n := |enc(xs[0])|;
      ElemsLayout(enc, xs, w, i);
      HeadDecodes(dec, xs[0], enc(xs[0]), w, i);
      HeadsRoundTrip(dec, enc, xs[1..], w, i + n);
      DecodeElemsCons(dec, w, i, xs[0], n, xs[1..]);
      assert [xs[0]] + xs[1..] == xs;
    }
  }

  /** The header of an encoded list gives the length of its body, which follows it. */
  lemma VarLenTypeLayout<T>(enc: T -> seq<byte>, xs: seq<T>, b: seq<byte>, o: nat)
    requires o + |EncodeVarLenType(enc, xs)| <= |b|
    requires b[o..o + |EncodeVarLenType(enc, xs)|] == EncodeVarLenType(enc, xs)
    ensures var body := EncodeElems(enc, xs);
      var hl := |EncodeLength(|body|)|;
      && DecodeLength(b, o) == Some((|body|, hl))
      && hl + |body| == |EncodeVarLenType(enc, xs)|
      && b[..o + hl + |body|][o + hl..] == body
  {
    var body := EncodeElems(enc, xs);
    var hl := |EncodeLength(|body|)|;
    VarLenDataLayout(body, b, o);
    assert b[..o + hl + |body|][o + hl..] == b[o + hl..o + hl + |body|];
  }

  /** The header of an encoded byte string gives its length, and the string follows it. */
  lemma VarLenDataLayout(data: seq<byte>, b: seq<byte>, o: nat)
    requires o + |EncodeVarLenData(data)| <= |b|
    requires b[o..o + |EncodeVarLenData(data)|] == EncodeVarLenData(data)
    ensures var hl := |EncodeLength(|data|)|;
      && DecodeLength(b, o) == Some((|data|, hl))
      && hl + |data| == |EncodeVarLenData(data)|
      && b[o + hl..o + hl + |data|] == data
  {
    var h := EncodeLength(|data|);
    var e := EncodeVarLenData(data);
    assert e == h + data;
    assert b[o..o + |h|] == e[..|h|];
    LengthRoundTrip(|data|, b, o);
    forall i | 0 <= i < |data|
      ensures b[o + |h|..o + |h| + |data|][i] == data[i]
    {
      assert b[o + |h|..o + |h| + |data|][i] == b[o..o + |e|][|h| + i];
    }
  }

  /** Every window ending in the encoded elements reads them back. */
  ghost predicate ElemsReadBack<T>(dec: Decoder<T>, enc: T -> seq<byte>, xs: seq<T>) {
    forall w: seq<byte>, i: nat {:trigger DecodeElems(dec, w, i)} ::
      i + |EncodeElems(enc, xs)| == |w| && w[i..] == EncodeElems(enc, xs) ==> DecodeElems(dec, w, i) == Some(xs)
  }

  lemma VarLenTypeAt<T>(dec: Decoder<T>, enc: T -> seq<byte>, xs: seq<T>, b: seq<byte>, o: nat)
    requires ElemsReadBack(dec, enc, xs)
    requires o + |EncodeVarLenType(enc, xs)| <= |b|
    requires b[o..o + |EncodeVarLenType(enc, xs)|] == EncodeVarLenType(enc, xs)
    ensures DecodeVarLenType(dec)(b, o) == Some((xs, |EncodeVarLenType(enc, xs)|))
  {
    VarLenTypeLayout(enc, xs, b, o);
    var body := EncodeElems(enc, xs);
    var hl := |EncodeLength(|body|)|;
    var w := b[..o + hl + |body|];
    assert DecodeElems(dec, w, o + hl) == Some(xs);
    VarLenTypeReads(dec, b, o, |body|, hl, xs);
  }



  lemma VarLenTypeReads<T>(dec: Decoder<T>, b: seq<byte>, o: nat, n: nat, hl: nat, xs: seq<T>)
    requires DecodeLength(b, o) == Some((n, hl)) && o + hl + n <= |b|
    requires DecodeElems(dec, b[..o + hl + n], o + hl) == Some(xs)
    ensures DecodeVarLenType(dec)(b, o) == Some((xs, hl + n))
  {
  }

  lemma VarLenTypeRoundTrip<T>(dec: Decoder<T>, enc: T -> seq<byte>, xs: seq<T>)
    requires ElementsDecode(dec, enc, xs)
    ensures Decodes(DecodeVarLenType(dec), EncodeVarLenType(enc, xs), xs)
  {
    var e := EncodeVarLenType(enc, xs);
    ElementsDecodeHeads(dec, enc, xs);
    forall w: seq<byte>, i: nat | i + |EncodeElems(enc, xs)| == |w| && w[i..] == EncodeElems(enc, xs)
      ensures DecodeElems(dec, w, i) == Some(xs)
    {
      HeadsRoundTrip(dec, enc, xs, w, i);
    }
    forall b: seq<byte>, o: nat | o + |e| <= |b| && b[o..o + |e|] == e
      ensures DecodeVarLenType(dec)(b, o) == Some((xs, |e|))
    {
      VarLenTypeAt(dec, enc, xs, b, o);
    }
  }
}
