/**
 * The cryptographic primitives a cipher suite provides (the source's
 * `CiphersuiteImpl`: hash, kdf, signature, hpke). crypto/ciphersuite,
 * crypto/kdf, crypto/signature, crypto/hpke and the providers are not part of
 * this model: the primitives are left as function values, and every result
 * about them holds for every provider. The labelled constructions follow
 * sections 5.1.2, 5.1.3 and 8 of RFC 9420; crypto/hash.ts is modelled as
 * written.
 */
module Crypto {
  import opened Wrappers
  import opened Bytes
  import opened TlsDecoder
  import opened Number
  import opened VariableLength
  import opened Ciphersuite

  datatype Hash = Hash(
    digest: seq<byte> -> seq<byte>,
    mac: (seq<byte>, seq<byte>) -> seq<byte>,
    /** key, tag, data */
    verifyMac: (seq<byte>, seq<byte>, seq<byte>) -> bool)

  datatype Kdf = Kdf(
    /** the output length `Nh` of extract */
    size: uint16,
    /** salt, input keying material */
    extract: (seq<byte>, seq<byte>) -> seq<byte>,
    /** secret, info, length */
    expand: (seq<byte>, seq<byte>, nat) -> seq<byte>)

  datatype SignatureScheme = SignatureScheme(
    /** private key, message */
    sign: (seq<byte>, seq<byte>) -> seq<byte>,
    /** public key, message, signature */
    verify: (seq<byte>, seq<byte>, seq<byte>) -> bool)

  /** A key pair, both halves in their exported byte form. */
  datatype KeyPair = KeyPair(publicKey: seq<byte>, privateKey: seq<byte>)

  datatype Hpke = Hpke(
    /** public key, info, aad, plaintext: the KEM output and the ciphertext */
    seal: (seq<byte>, seq<byte>, seq<byte>, seq<byte>) -> (seq<byte>, seq<byte>),
    /** private key, KEM output, info, aad, ciphertext */
    open: (seq<byte>, seq<byte>, seq<byte>, seq<byte>, seq<byte>) -> Option<seq<byte>>,
    /** key, nonce, aad, plaintext */
    encryptAead: (seq<byte>, seq<byte>, seq<byte>, seq<byte>) -> seq<byte>,
    /** key, nonce, aad, ciphertext */
    decryptAead: (seq<byte>, seq<byte>, seq<byte>, seq<byte>) -> Option<seq<byte>>,
    deriveKeyPair: seq<byte> -> KeyPair,
    keyLength: uint16,
    nonceLength: uint16)

  datatype CiphersuiteImpl = CiphersuiteImpl(
    name: CiphersuiteName,
    hash: Hash,
    kdf: Kdf,
    signature: SignatureScheme,
    hpke: Hpke)

  /** A provider whose MAC verification accepts the tags its MAC computes. */
  ghost predicate MacConsistent(h: Hash) {
    forall key: seq<byte>, data: seq<byte> :: h.verifyMac(key, h.mac(key, data), data)
  }

  /** A provider whose signature verification accepts what its signing produces for a matching key pair. */
  ghost predicate SignatureConsistent(s: SignatureScheme, publicKey: seq<byte>, privateKey: seq<byte>) {
    forall m: seq<byte> :: s.verify(publicKey, m, s.sign(privateKey, m))
  }

  /** The UTF-8 bytes of "MLS 1.0 ". */
  const MlsPrefix: seq<byte> := [0x4D, 0x4C, 0x53, 0x20, 0x31, 0x2E, 0x30, 0x20]

  /** "MLS 1.0 " followed by the label, the prefix of every labelled construction. */
  function MlsLabel(lbl: string): (r: seq<byte>)
    ensures |r| >= 8 && r[..8] == MlsPrefix
    ensures r[8..] == Utf8(lbl)
  {
    MlsPrefix + Utf8(lbl)
  }

  /** The labelled prefix is the UTF-8 encoding of the string "MLS 1.0 " followed by the label. */
  lemma MlsLabelIsUtf8(lbl: string)
    ensures MlsLabel(lbl) == Utf8("MLS 1.0 " + lbl)
  {
    Utf8Append("MLS 1.0 ", lbl);
    Utf8Ascii("MLS 1.0 ");
    assert Utf8("MLS 1.0 ") == MlsPrefix;
  }

  /** Two ASCII strings with the same UTF-8 bytes are the same string. */
  lemma AsciiUtf8Injective(a: string, b: string)
    requires IsAscii(a) && IsAscii(b) && Utf8(a) == Utf8(b)
    ensures a == b
  {
    Utf8Ascii(a);
    Utf8Ascii(b);
    assert forall i :: 0 <= i < |a| ==> a[i] as int == Utf8(a)[i] == b[i] as int;
  }

  /** struct { uint16 length; opaque label<V>; opaque context<V>; } KDFLabel */
  function EncodeKdfLabel(lbl: string, context: seq<byte>, length: uint16): seq<byte>
  {
    EncodeUint16(length) + EncodeVarLenData(MlsLabel(lbl)) + EncodeVarLenData(context)
  }

  const DecodeKdfLabel: Decoder<(uint16, seq<byte>, seq<byte>)> :=
    MapDecoders3(DecodeUint16, DecodeVarLenData, DecodeVarLenData,
      (n: uint16, l: seq<byte>, c: seq<byte>) => (n, l, c))

  /** The KDF label reads back as its three fields. */
  lemma KdfLabelRoundTrip(lbl: string, context: seq<byte>, length: uint16)
    ensures Decodes(DecodeKdfLabel, EncodeKdfLabel(lbl, context, length), (length, MlsLabel(lbl), context))
  {
    Uint16RoundTrip(length);
    VarLenDataRoundTrip(MlsLabel(lbl));
    VarLenDataRoundTrip(context);
    MapDecoders3Decodes(DecodeUint16, DecodeVarLenData, DecodeVarLenData,
      (n: uint16, l: seq<byte>, c: seq<byte>) => (n, l, c),
      EncodeUint16(length), EncodeVarLenData(MlsLabel(lbl)), EncodeVarLenData(context),
      length, MlsLabel(lbl), context);
  }

  /** Domain separation: two expansions share their info bytes only when label, context and length all agree. */
  lemma KdfLabelInjective(l1: string, c1: seq<byte>, n1: uint16, l2: string, c2: seq<byte>, n2: uint16)
    requires EncodeKdfLabel(l1, c1, n1) == EncodeKdfLabel(l2, c2, n2)
    ensures Utf8(l1) == Utf8(l2) && c1 == c2 && n1 == n2
    ensures IsAscii(l1) && IsAscii(l2) ==> l1 == l2
  {
    KdfLabelRoundTrip(l1, c1, n1);
    KdfLabelRoundTrip(l2, c2, n2);
    DecodesUnique(DecodeKdfLabel, EncodeKdfLabel(l1, c1, n1), (n1, MlsLabel(l1), c1), (n2, MlsLabel(l2), c2));
    assert Utf8(l1) == MlsLabel(l1)[8..] == MlsLabel(l2)[8..] == Utf8(l2);
    if IsAscii(l1) && IsAscii(l2) {
      AsciiUtf8Injective(l1, l2);
    }
  }

  function ExpandWithLabel(kdf: Kdf, secret: seq<byte>, lbl: string, context: seq<byte>, length: uint16): seq<byte>
  {
    kdf.expand(secret, EncodeKdfLabel(lbl, context, length), length)
  }

  function DeriveSecret(kdf: Kdf, secret: seq<byte>, lbl: string): seq<byte>
  {
    ExpandWithLabel(kdf, secret, lbl, [], kdf.size)
  }

  /** struct { opaque label<V>; opaque content<V>; } SignContent, also the EncryptContext of HPKE. */
  function EncodeLabelledContent(lbl: string, content: seq<byte>): seq<byte>
  {
    EncodeVarLenData(MlsLabel(lbl)) + EncodeVarLenData(content)
  }

  function SignWithLabel(s: SignatureScheme, privateKey: seq<byte>, lbl: string, content: seq<byte>): seq<byte>
  {
    s.sign(privateKey, EncodeLabelledContent(lbl, content))
  }

  function VerifyWithLabel(s: SignatureScheme, publicKey: seq<byte>, lbl: string, content: seq<byte>, signature: seq<byte>): bool
  {
    s.verify(publicKey, EncodeLabelledContent(lbl, content), signature)
  }

  /** A labelled signature by a consistent scheme verifies under the same label and content. */
  lemma SignThenVerify(s: SignatureScheme, publicKey: seq<byte>, privateKey: seq<byte>, lbl: string, content: seq<byte>)
    requires SignatureConsistent(s, publicKey, privateKey)
    ensures VerifyWithLabel(s, publicKey, lbl, content, SignWithLabel(s, privateKey, lbl, content))
  {
  }

  /** A provider whose HPKE open recovers what its seal encrypted to a matching key pair. */
  ghost predicate HpkeConsistent(h: Hpke, publicKey: seq<byte>, privateKey: seq<byte>) {
    forall info: seq<byte>, aad: seq<byte>, pt: seq<byte> {:trigger h.seal(publicKey, info, aad, pt)} ::
      h.open(privateKey, h.seal(publicKey, info, aad, pt).0, info, aad, h.seal(publicKey, info, aad, pt).1) == Some(pt)
  }

  /** A provider whose AEAD decryption recovers what its encryption produced under the same key, nonce and aad. */
  ghost predicate AeadConsistent(h: Hpke) {
    forall key: seq<byte>, nonce: seq<byte>, aad: seq<byte>, pt: seq<byte> {:trigger h.encryptAead(key, nonce, aad, pt)} ::
      h.decryptAead(key, nonce, aad, h.encryptAead(key, nonce, aad, pt)) == Some(pt)
  }

  function EncryptWithLabel(h: Hpke, publicKey: seq<byte>, lbl: string, context: seq<byte>, plaintext: seq<byte>): (seq<byte>, seq<byte>)
  {
    h.seal(publicKey, EncodeLabelledContent(lbl, context), [], plaintext)
  }

  function DecryptWithLabel(h: Hpke, privateKey: seq<byte>, lbl: string, context: seq<byte>,
    kemOutput: seq<byte>, ciphertext: seq<byte>): Option<seq<byte>>
  {
    h.open(privateKey, kemOutput, EncodeLabelledContent(lbl, context), [], ciphertext)
  }

  /** A labelled encryption to a consistent key pair decrypts under the same label and context. */
  lemma EncryptThenDecrypt(h: Hpke, publicKey: seq<byte>, privateKey: seq<byte>, lbl: string, context: seq<byte>, plaintext: seq<byte>)
    requires HpkeConsistent(h, publicKey, privateKey)
    ensures var (kemOutput, ciphertext) := EncryptWithLabel(h, publicKey, lbl, context, plaintext);
      DecryptWithLabel(h, privateKey, lbl, context, kemOutput, ciphertext) == Some(plaintext)
  {
    var _ := h.seal(publicKey, EncodeLabelledContent(lbl, context), [], plaintext);
  }

  // crypto/hash.ts

  /** The var-len UTF-8 label, then the var-len value, and no other bytes. */
  function EncodeRefHash(lbl: string, value: seq<byte>): (r: seq<byte>)
  {
    EncodeVarLenData(Utf8(lbl)) + EncodeVarLenData(value)
  }

  /** A reference is a single digest of the encoded label and value. */
  function RefHash(h: Hash, lbl: string, value: seq<byte>): seq<byte>
  {
    h.digest(EncodeRefHash(lbl, value))
  }

  const DecodeRefHashInput: Decoder<(seq<byte>, seq<byte>)> :=
    MapDecoders2(DecodeVarLenData, DecodeVarLenData, (l: seq<byte>, v: seq<byte>) => (l, v))

  /** The reference input splits back into the label bytes and the value. */
  lemma RefHashInputRoundTrip(lbl: string, value: seq<byte>)
    ensures Decodes(DecodeRefHashInput, EncodeRefHash(lbl, value), (Utf8(lbl), value))
  {
    VarLenDataRoundTrip(Utf8(lbl));
    VarLenDataRoundTrip(value);
    MapDecoders2Decodes(DecodeVarLenData, DecodeVarLenData, (l: seq<byte>, v: seq<byte>) => (l, v),
      EncodeVarLenData(Utf8(lbl)), EncodeVarLenData(value), Utf8(lbl), value);
  }

  /** Two references are computed over the same bytes only for the same label and value. */
  lemma RefHashInputInjective(l1: string, v1: seq<byte>, l2: string, v2: seq<byte>)
    requires EncodeRefHash(l1, v1) == EncodeRefHash(l2, v2)
    ensures Utf8(l1) == Utf8(l2) && v1 == v2
    ensures IsAscii(l1) && IsAscii(l2) ==> l1 == l2
  {
    RefHashInputRoundTrip(l1, v1);
    RefHashInputRoundTrip(l2, v2);
    DecodesUnique(DecodeRefHashInput, EncodeRefHash(l1, v1), (Utf8(l1), v1), (Utf8(l2), v2));
    if IsAscii(l1) && IsAscii(l2) {
      AsciiUtf8Injective(l1, l2);
    }
  }
}
