/**
 * `optional<T>` of src/codec/optional.ts: a presence octet, then the value
 * when the octet is 1.
 */
module Optional {
  import opened Wrappers
  import opened Bytes
  import opened TlsDecoder
  import opened Number

  /** The octet 0x01, then the value's bytes. */
  function PrependPresenceOctet(v: seq<byte>): (r: seq<byte>)
    ensures |r| == |v| + 1 && r[0] == 1 && r[1..] == v
  {
    EncodeUint8(1) + v
  }

  /**
   * The encoder as written: the source tests the value's truthiness, so a
   * present value that the host language treats as false (a number 0, say)
   * is written as absent. `truthy` is that test.
   */
  function EncodeOptionalAsWritten<T>(enc: T -> seq<byte>, truthy: T -> bool, t: Option<T>): seq<byte> {
    if t.Some? && truthy(t.value) then PrependPresenceOctet(enc(t.value)) else [0]
  }

  /** The encoder as intended: absence, and only absence, is the octet 0x00. */
  function EncodeOptional<T>(enc: T -> seq<byte>, t: Option<T>): (r: seq<byte>)
    ensures t.None? <==> r == [0]
    ensures t.Some? ==> |r| == |enc(t.value)| + 1 && r[0] == 1 && r[1..] == enc(t.value)
  {
    match t
    case None => [0]
    case Some(x) => PrependPresenceOctet(enc(x))
  }

  /**
   * The decoder as written: the presence octet is read with a decoder that
   * may fail; whenever it is not 1, including when there is no octet at all,
   * the result is absent with one byte consumed.
   */
  function ReadOptionalAsWritten<T>(dec: Decoder<T>, b: seq<byte>, o: nat): Option<(Option<T>, nat)> {
    var presence := DecodeUint8(b, o);
    if presence.Some? && presence.value.0 == 1 then
      var inner := dec(b, o + 1);
      if inner.None? then None else Some((Some(inner.value.0), inner.value.1 + 1))
    else Some((None, 1))
  }

  /** The decoder as intended: a missing presence octet is a failure. */
  function ReadOptional<T>(dec: Decoder<T>, b: seq<byte>, o: nat): Option<(Option<T>, nat)> {
    if o >= |b| then None else ReadOptionalAsWritten(dec, b, o)
  }

  function DecodeOptionalAsWritten<T>(dec: Decoder<T>): Decoder<Option<T>> {
    (b: seq<byte>, o: nat) => ReadOptionalAsWritten(dec, b, o)
  }

  function DecodeOptional<T>(dec: Decoder<T>): Decoder<Option<T>> {
    (b: seq<byte>, o: nat) => ReadOptional(dec, b, o)
  }

  /** The two encoders agree on every value the truthiness test lets through. */
  lemma EncodeOptionalAgrees<T>(enc: T -> seq<byte>, truthy: T -> bool, t: Option<T>)
    requires t.Some? ==> truthy(t.value)
    ensures EncodeOptionalAsWritten(enc, truthy, t) == EncodeOptional(enc, t)
  {
  }

  /** The number 0 is falsy, so the encoder as written drops a present 32-bit 0, and it reads back absent. */
  lemma EncodeOptionalDropsZero()
    ensures EncodeOptionalAsWritten<uint32>(EncodeUint32, (n: uint32) => n != 0, Some(0)) == [0]
    ensures Decodes(DecodeOptional<uint32>(DecodeUint32), [0], None)
  {
    forall b: seq<byte>, o: nat | o + 1 <= |b| && b[o..o + 1] == [0]
      ensures DecodeOptional(DecodeUint32)(b, o) == Some((None, 1))
    {
      assert b[o] == b[o..o + 1][0];
    }
  }

  /** With no octet left in the buffer, the decoder as written still succeeds, claiming a byte that is not there. */
  lemma DecodeOptionalAsWrittenPastEnd<T>(dec: Decoder<T>)
    ensures DecodeOptionalAsWritten(dec)([], 0) == Some((None, 1))
  {
  }

  /** The intended decoder fails there instead, and never consumes more than the buffer holds when `dec` does not. */
  lemma DecodeOptionalStaysInBuffer<T>(dec: Decoder<T>, b: seq<byte>, o: nat)
    requires forall b': seq<byte>, o': nat :: dec(b', o').Some? ==> o' + dec(b', o').value.1 <= |b'|
    ensures o >= |b| ==> DecodeOptional(dec)(b, o).None?
    ensures DecodeOptional(dec)(b, o).Some? ==> o + DecodeOptional(dec)(b, o).value.1 <= |b|
  {
    if o < |b| && b[o] == 1 {
      assert dec(b, o + 1).Some? ==> o + 1 + dec(b, o + 1).value.1 <= |b|;
    }
  }

  /** Presence 1: the inner value is read just after the octet, and one byte is added to its length. */
  lemma DecodeOptionalPresent<T>(dec: Decoder<T>, b: seq<byte>, o: nat)
    requires o < |b| && b[o] == 1
    ensures dec(b, o + 1).None? ==> DecodeOptional(dec)(b, o).None?
    ensures dec(b, o + 1).Some? ==>
      DecodeOptional(dec)(b, o) == Some((Some(dec(b, o + 1).value.0), dec(b, o + 1).value.1 + 1))
  {
  }

  /** Any other presence octet (0x02 included) reads as absent, consuming exactly that octet. */
  lemma DecodeOptionalOtherOctet<T>(dec: Decoder<T>, b: seq<byte>, o: nat)
    requires o < |b| && b[o] != 1
    ensures DecodeOptional(dec)(b, o) == Some((None, 1))
  {
  }

  lemma OptionalRoundTrip<T>(dec: Decoder<T>, enc: T -> seq<byte>, t: Option<T>)
    requires t.Some? ==> Decodes(dec, enc(t.value), t.value)
    ensures Decodes(DecodeOptional(dec), EncodeOptional(enc, t), t)
  {
    var e := EncodeOptional(enc, t);
    forall b: seq<byte>, o: nat | o + |e| <= |b| && b[o..o + |e|] == e
      ensures DecodeOptional(dec)(b, o) == Some((t, |e|))
    {
      assert b[o] == e[0];
      if t.Some? {
        assert b[o + 1..o + 1 + |enc(t.value)|] == e[1..];
      }
    }
  }

  /**
   * The decoder as written reads back every optional value the intended
   * encoder writes: an encoding always holds its presence octet, and there
   * the two decoders agree.
   */
  lemma OptionalAsWrittenRoundTrip<T>(dec: Decoder<T>, enc: T -> seq<byte>, t: Option<T>)
    requires t.Some? ==> Decodes(dec, enc(t.value), t.value)
    ensures Decodes(DecodeOptionalAsWritten(dec), EncodeOptional(enc, t), t)
  {
    OptionalRoundTrip(dec, enc, t);
    var e := EncodeOptional(enc, t);
    forall b: seq<byte>, o: nat | o + |e| <= |b| && b[o..o + |e|] == e
      ensures DecodeOptionalAsWritten(dec)(b, o) == Some((t, |e|))
    {
      assert DecodeOptional(dec)(b, o) == Some((t, |e|));
    }
  }
}
