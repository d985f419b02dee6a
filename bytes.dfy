/** Octets and the fixed-width unsigned integers of the TLS presentation language. */
module Bytes {
  type byte = x: int | 0 <= x < 0x100
  type uint8 = byte
  type uint16 = x: int | 0 <= x < 0x1_0000
  type uint32 = x: int | 0 <= x < 0x1_0000_0000
  type uint64 = x: int | 0 <= x < 0x1_0000_0000_0000_0000

  /** 256 to the power `w`: the number of values a `w`-byte integer can hold. */
  function Pow256(w: nat): (r: nat)
    ensures r >= 1
  {
    if w == 0 then 1 else 256 * Pow256(w - 1)
  }

  /** The zero vector of `n` bytes (the library's `new Uint8Array(n)`). */
  function Zeros(n: nat): (r: seq<byte>)
    ensures |r| == n
    ensures forall i :: 0 <= i < n ==> r[i] == 0
  {
    seq(n, _ => 0)
  }

  /** Every character is in the ASCII range, where UTF-8 is one byte per character. */
  predicate IsAscii(s: string) {
    forall i :: 0 <= i < |s| ==> (s[i] as int) < 0x80
  }

  /** The UTF-8 encoding of one Unicode scalar value, in one to four bytes. */
  function Utf8Char(c: char): (r: seq<byte>)
    ensures 1 <= |r| <= 4
    ensures (c as int) < 0x80 ==> r == [c as int]
  {
    var n := c as int;
    if n < 0x80 then [n]
    else if n < 0x800 then [0xC0 + n / 64, 0x80 + n % 64]
    else if n < 0x10000 then [0xE0 + n / 4096, 0x80 + (n / 64) % 64, 0x80 + n % 64]
    else [0xF0 + n / 262144, 0x80 + (n / 4096) % 64, 0x80 + (n / 64) % 64, 0x80 + n % 64]
  }

  /** The bytes of the pieces, one after the other. */
  function Flatten(ss: seq<seq<byte>>): seq<byte>
    decreases |ss|
  {
    if ss == [] then [] else ss[0] + Flatten(ss[1..])
  }

  lemma {:induction false} FlattenAppend(x: seq<seq<byte>>, y: seq<seq<byte>>)
    ensures Flatten(x + y) == Flatten(x) + Flatten(y)
    decreases |x|
  {
    if x != [] {
      assert (x + y)[0] == x[0] && (x + y)[1..] == x[1..] + y;
      FlattenAppend(x[1..], y);
    } else {
      assert x + y == y;
    }
  }

  lemma {:induction false} FlattenSingletons(ss: seq<seq<byte>>)
    requires forall i :: 0 <= i < |ss| ==> |ss[i]| == 1
    ensures |Flatten(ss)| == |ss|
    ensures forall i :: 0 <= i < |ss| ==> Flatten(ss)[i] == ss[i][0]
    decreases |ss|
  {
    if ss != [] {
      FlattenSingletons(ss[1..]);
    }
  }

  /** The UTF-8 encoding of each character of a string. */
  function Utf8Chars(s: string): (r: seq<seq<byte>>)
    ensures |r| == |s| && forall i :: 0 <= i < |s| ==> r[i] == Utf8Char(s[i])
  {
    seq(|s|, i requires 0 <= i < |s| => Utf8Char(s[i]))
  }

  /** The UTF-8 bytes of a string, character by character. */
  function Utf8(s: string): seq<byte> {
    Flatten(Utf8Chars(s))
  }

  lemma Utf8Append(a: string, b: string)
    ensures Utf8(a + b) == Utf8(a) + Utf8(b)
  {
    assert Utf8Chars(a + b) == Utf8Chars(a) + Utf8Chars(b);
    FlattenAppend(Utf8Chars(a), Utf8Chars(b));
  }

  /** On an ASCII string (every label the library uses is one) UTF-8 is the character codes themselves. */
  lemma Utf8Ascii(s: string)
    requires IsAscii(s)
    ensures |Utf8(s)| == |s|
    ensures forall i :: 0 <= i < |s| ==> Utf8(s)[i] == s[i] as int
  {
    FlattenSingletons(Utf8Chars(s));
  }
}
