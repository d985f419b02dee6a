/**
 * The cipher suite names, carried as a 2-byte code. crypto/ciphersuite is not
 * part of this model; its table is taken to be the seven suites registered in
 * section 17.1 of RFC 9420.
 */
module Ciphersuite {
  import opened Wrappers
  import opened Bytes
  import opened TlsDecoder
  import opened Number

  /** the registered MLS cipher suites */
  datatype CiphersuiteName = Mls128Dhkemx25519Aes128gcmSha256Ed25519 | Mls128Dhkemp256Aes128gcmSha256P256 | Mls128Dhkemx25519Chacha20poly1305Sha256Ed25519 | Mls256Dhkemx448Aes256gcmSha512Ed448 | Mls256Dhkemp521Aes256gcmSha512P521 | Mls256Dhkemx448Chacha20poly1305Sha512Ed448 | Mls256Dhkemp384Aes256gcmSha384P384

  /** The code of each name in the table. */
  function CiphersuiteValue(t: CiphersuiteName): uint16 {
    match t
    case Mls128Dhkemx25519Aes128gcmSha256Ed25519 => 1
    case Mls128Dhkemp256Aes128gcmSha256P256 => 2
    case Mls128Dhkemx25519Chacha20poly1305Sha256Ed25519 => 3
    case Mls256Dhkemx448Aes256gcmSha512Ed448 => 4
    case Mls256Dhkemp521Aes256gcmSha512P521 => 5
    case Mls256Dhkemx448Chacha20poly1305Sha512Ed448 => 6
    case Mls256Dhkemp384Aes256gcmSha384P384 => 7
  }

  /** The table read backwards: the name with code `n`, if there is one. */
  function CiphersuiteFromValue(n: uint16): (r: Option<CiphersuiteName>)
    ensures forall t :: r == Some(t) <==> CiphersuiteValue(t) == n
  {
    if n == 1 then Some(Mls128Dhkemx25519Aes128gcmSha256Ed25519)
    else if n == 2 then Some(Mls128Dhkemp256Aes128gcmSha256P256)
    else if n == 3 then Some(Mls128Dhkemx25519Chacha20poly1305Sha256Ed25519)
    else if n == 4 then Some(Mls256Dhkemx448Aes256gcmSha512Ed448)
    else if n == 5 then Some(Mls256Dhkemp521Aes256gcmSha512P521)
    else if n == 6 then Some(Mls256Dhkemx448Chacha20poly1305Sha512Ed448)
    else if n == 7 then Some(Mls256Dhkemp384Aes256gcmSha384P384)
    else None
  }

  function EncodeCiphersuite(t: CiphersuiteName): seq<byte> {
    EncodeUint16(CiphersuiteValue(t))
  }

  const DecodeCiphersuite: Decoder<CiphersuiteName> := MapDecoderOption(DecodeUint16, CiphersuiteFromValue)

  /** Every name is 2 bytes on the wire and reads back as itself. */
  lemma CiphersuiteRoundTrip(t: CiphersuiteName)
    ensures |EncodeCiphersuite(t)| == 2
    ensures Decodes(DecodeCiphersuite, EncodeCiphersuite(t), t)
  {
    Uint16RoundTrip(CiphersuiteValue(t));
    MapDecoderOptionDecodes(DecodeUint16, CiphersuiteFromValue, EncodeCiphersuite(t), CiphersuiteValue(t), t);
  }

  /** A code outside the table is a decode failure. */
  lemma CiphersuiteUnknownRejected(n: uint16)
    requires CiphersuiteFromValue(n).None?
    ensures Rejects(DecodeCiphersuite, EncodeUint16(n))
  {
    Uint16RoundTrip(n);
    MapDecoderOptionRejects(DecodeUint16, CiphersuiteFromValue, EncodeUint16(n), n);
  }
}
