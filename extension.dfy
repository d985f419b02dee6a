/**
 * Extensions of src/extension.ts. An extension type is either a name from the
 * default table or a bare number.
 */
module Extension {
  import opened Wrappers
  import opened Bytes
  import opened TlsDecoder
  import opened Number
  import opened VariableLength
  import opened DefaultExtensionType

  datatype ExtensionType = Named(name: DefaultExtensionTypeName) | Numbered(number: uint16)

  function EncodeExtensionType(t: ExtensionType): seq<byte> {
    match t
    case Numbered(n) => EncodeUint16(n)
    case Named(d) => EncodeDefaultExtensionType(d)
  }

  /** The default table is tried first; any other code is kept as a number. */
  const DecodeExtensionType: Decoder<ExtensionType> :=
    OrDecoder(MapDecoder(DecodeDefaultExtensionType, (d: DefaultExtensionTypeName) => Named(d)),
              MapDecoder(DecodeUint16, (n: uint16) => Numbered(n)))

  /** The code an extension type is written with: the number itself, or the table's code for a name. */
  function ExtensionTypeToNumber(t: ExtensionType): (r: uint16)
    ensures EncodeExtensionType(t) == EncodeUint16(r)
    ensures t.Numbered? ==> r == t.number
  {
    match t
    case Numbered(n) => n
    case Named(d) => DefaultExtensionTypeValue(d)
  }

  /** The form a decoder returns: a number with a table entry becomes its name. */
  function NormalizeExtensionType(t: ExtensionType): (r: ExtensionType)
    ensures ExtensionTypeToNumber(r) == ExtensionTypeToNumber(t)
    ensures r.Numbered? ==> DefaultExtensionTypeFromValue(r.number).None?
    ensures t.Named? ==> r == t
  {
    match t
    case Named(_) => t
    case Numbered(n) =>
      var d := DefaultExtensionTypeFromValue(n);
      if d.Some? then Named(d.value) else t
  }

  /** Every extension type reads back in normalised form; so numeric 1..5 comes back as a name. */
  lemma ExtensionTypeRoundTrip(t: ExtensionType)
    ensures |EncodeExtensionType(t)| == 2
    ensures Decodes(DecodeExtensionType, EncodeExtensionType(t), NormalizeExtensionType(t))
  {
    var n := ExtensionTypeToNumber(t);
    var e := EncodeExtensionType(t);
    var named := MapDecoder(DecodeDefaultExtensionType, (d: DefaultExtensionTypeName) => Named(d));
    var numbered := MapDecoder(DecodeUint16, (n: uint16) => Numbered(n));
    var d := DefaultExtensionTypeFromValue(n);
    Uint16RoundTrip(n);
    if d.Some? {
      DefaultExtensionTypeRoundTrip(d.value);
      assert EncodeDefaultExtensionType(d.value) == e;
      MapDecoderDecodes(DecodeDefaultExtensionType, (d: DefaultExtensionTypeName) => Named(d), e, d.value);
      OrDecoderFirst(named, numbered, e, Named(d.value));
    } else {
      DefaultExtensionTypeUnknownRejected(n);
      MapDecoderDecodes(DecodeUint16, (n: uint16) => Numbered(n), e, n);
      forall b: seq<byte>, o: nat | o + |e| <= |b| && b[o..o + |e|] == e
        ensures named(b, o).None?
      {
        assert DecodeDefaultExtensionType(b, o).None?;
      }
      assert e + [] == e;
      OrDecoderSecond(named, numbered, e, [], Numbered(n));
    }
  }

  datatype Extension = Extension(extensionType: ExtensionType, extensionData: seq<byte>)

  /** The type is in normalised form, so the extension reads back unchanged. */
  predicate CanonicalExtension(e: Extension) {
    NormalizeExtensionType(e.extensionType) == e.extensionType
  }

  predicate CanonicalExtensions(es: seq<Extension>) {
    forall i :: 0 <= i < |es| ==> CanonicalExtension(es[i])
  }

  function EncodeExtension(e: Extension): seq<byte> {
    EncodeExtensionType(e.extensionType) + EncodeVarLenData(e.extensionData)
  }

  const DecodeExtension: Decoder<Extension> :=
    MapDecoders2(DecodeExtensionType, DecodeVarLenData, (t: ExtensionType, d: seq<byte>) => Extension(t, d))

  lemma ExtensionRoundTrip(e: Extension)
    ensures |EncodeExtension(e)| > 0
    ensures Decodes(DecodeExtension, EncodeExtension(e), Extension(NormalizeExtensionType(e.extensionType), e.extensionData))
  {
    ExtensionTypeRoundTrip(e.extensionType);
    VarLenDataRoundTrip(e.extensionData);
    MapDecoders2Decodes(DecodeExtensionType, DecodeVarLenData, (t: ExtensionType, d: seq<byte>) => Extension(t, d),
      EncodeExtensionType(e.extensionType), EncodeVarLenData(e.extensionData),
      NormalizeExtensionType(e.extensionType), e.extensionData);
  }

  /** A list of canonical extensions reads back unchanged. */
  lemma ExtensionsRoundTrip(es: seq<Extension>)
    requires CanonicalExtensions(es)
    ensures Decodes(DecodeVarLenType(DecodeExtension), EncodeVarLenType(EncodeExtension, es), es)
  {
    forall k | 0 <= k < |es|
      ensures |EncodeExtension(es[k])| > 0 && Decodes(DecodeExtension, EncodeExtension(es[k]), es[k])
    {
      ExtensionRoundTrip(es[k]);
    }
    VarLenTypeRoundTrip(DecodeExtension, EncodeExtension, es);
  }

  /** Both types identical (a name never equals a number) and the data bytes equal. */
  function ExtensionEqual(a: Extension, b: Extension): (r: bool)
    ensures r <==> a == b
  {
    a.extensionType == b.extensionType && a.extensionData == b.extensionData
  }

  /** False for lists of different length, otherwise pointwise; two empty lists are equal. */
  function ExtensionsEqual(a: seq<Extension>, b: seq<Extension>): (r: bool)
    ensures r <==> a == b
  {
    if |a| != |b| then false
    else (forall i :: 0 <= i < |a| ==> ExtensionEqual(a[i], b[i]))
  }

  function IsDefaultExtension(t: ExtensionType): bool {
    t.Named?
  }

  /** The extensions whose type is not a name of the default table, in order. */
  function FilterNonDefault(es: seq<Extension>): (r: seq<Extension>)
    ensures forall x :: x in r <==> x in es && !IsDefaultExtension(x.extensionType)
    decreases |es|
  {
    if es == [] then []
    else
      var rest := FilterNonDefault(es[1..]);
      assert es == [es[0]] + es[1..];
      if IsDefaultExtension(es[0].extensionType) then rest else [es[0]] + rest
  }

  /** Every required extension of a numeric type is listed among the capabilities' extensions. */
  function ExtensionsSupportedByCapabilities(requiredExtensions: seq<Extension>, capabilityExtensions: seq<uint16>): (r: bool)
    ensures r <==> forall i :: 0 <= i < |requiredExtensions| && requiredExtensions[i].extensionType.Numbered? ==>
      requiredExtensions[i].extensionType.number in capabilityExtensions
  {
    var nonDefault := FilterNonDefault(requiredExtensions);
    var r := forall x :: x in nonDefault ==> ExtensionTypeToNumber(x.extensionType) in capabilityExtensions;
    assert forall i :: 0 <= i < |requiredExtensions| && requiredExtensions[i].extensionType.Numbered? ==>
      requiredExtensions[i] in nonDefault;
    r
  }

  /** The extensions of type `t`, in order (the source's `filter` on the extension type). */
  function ExtensionsOfType(es: seq<Extension>, t: ExtensionType): (r: seq<Extension>)
    ensures |r| <= |es|
    ensures forall x :: x in r <==> x in es && x.extensionType == t
    decreases |es|
  {
    if es == [] then []
    else
      var rest := ExtensionsOfType(es[1..], t);
      assert es == [es[0]] + es[1..];
      if es[0].extensionType == t then [es[0]] + rest else rest
  }

  /** Filtering a concatenation filters each part. */
  lemma {:induction false} ExtensionsOfTypeAppend(a: seq<Extension>, b: seq<Extension>, t: ExtensionType)
    ensures ExtensionsOfType(a + b, t) == ExtensionsOfType(a, t) + ExtensionsOfType(b, t)
    decreases |a|
  {
    if a == [] {
      assert a + b == b;
    } else {
      assert (a + b)[1..] == a[1..] + b;
      ExtensionsOfTypeAppend(a[1..], b, t);
    }
  }

  /**
   * An extension of type `t` at position `k` of the full list sits in the
   * filtered list at the position given by how many of its predecessors
   * have type `t`.
   */
  lemma FilteredPosition(es: seq<Extension>, t: ExtensionType, k: nat)
    requires k < |es| && es[k].extensionType == t
    ensures |ExtensionsOfType(es[..k], t)| < |ExtensionsOfType(es, t)|
    ensures ExtensionsOfType(es, t)[|ExtensionsOfType(es[..k], t)|] == es[k]
  {
    assert es == es[..k] + ([es[k]] + es[k + 1..]);
    ExtensionsOfTypeAppend(es[..k], [es[k]] + es[k + 1..], t);
    assert ([es[k]] + es[k + 1..])[1..] == es[k + 1..];
  }

  /** Without an extension of type `t` the filtered list is empty. */
  lemma {:induction false} ExtensionsOfTypeNone(es: seq<Extension>, t: ExtensionType)
    requires forall j :: 0 <= j < |es| ==> es[j].extensionType != t
    ensures ExtensionsOfType(es, t) == []
    decreases |es|
  {
    if es != [] {
      ExtensionsOfTypeNone(es[1..], t);
    }
  }
}
