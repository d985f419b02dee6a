# ts-mls core, modelled in Dafny

ts-mls is a TypeScript implementation of the Messaging Layer Security protocol (RFC 9420). This project models its core and proves properties of that model:

- the TLS-style codec layer: decoder combinators, the optional and variable-length encodings, and the encoders and decoders of every protocol structure (extensions, credentials, leaf nodes, key packages, proposals, commits, framed content, public and private messages, group info, secrets and welcome), each with a decode-after-encode round trip;
- the key schedule's pre-shared-key folding (section 8.4 of RFC 9420) and its PSK index;
- the tree hash and the parent hash of the ratchet tree (sections 7.8 and 7.9 of RFC 9420), including parent-hash verification;
- path secrets and update paths: their derivation, encryption to the copath resolution, and application on the receiving side;
- message protection: signing, membership tags, sender-data and content encryption of private messages, and their removal on receipt;
- the confirmed and interim transcript hashes, confirmation tags, group-info signing and the welcome message;
- the creation of proposals, application messages and commits from a member's state, external proposals, external joins and resumption (reinit and branch).

Cryptography is modelled as a record of function values, `Crypto.CiphersuiteImpl`, passed to every operation as the source passes its ciphersuite implementation. Each property therefore holds for every provider. Where a property needs the primitives to behave (a signature that verifies under the matching key, an AEAD that opens what it sealed), it says so in a `requires` of the form `SignatureConsistent`, `AeadConsistent` or `MacConsistent`. Errors are a `Result` whose error cases follow the source's error classes: `CodecError`, `ValidationError`, `CryptoVerificationError`, `UsageError`, and `InternalError` for what the source leaves to a thrown `TypeError` outside the decoders (a decoder that would throw is a decoding failure, see "Left out").

Source files that this model needs but does not have are modelled from RFC 9420 or passed in as parameters. Each module's header comment says which.

## Model

| member | source | states |
|---|---|---|
| TlsDecoder.DecodesUnique | src/codec/tlsDecoder.ts:1 | an encoding that a decoder reads back determines the value, so encoders with a decoder are injective |
| TlsDecoder.DecodesPrefixUnique | src/codec/tlsDecoder.ts:1 | two readable encodings at the start of the same buffer are the same encoding of the same value |
| TlsDecoder.MapDecoderBehaviour | src/codec/tlsDecoder.ts:3-11 | mapDecoder fails exactly when the inner decoder does, and otherwise maps the value and keeps the length |
| TlsDecoder.MapDecoderOptionBehaviour | src/codec/tlsDecoder.ts:61-70 | mapDecoderOption fails when the inner decoder fails or the function gives nothing, and otherwise keeps the length |
| TlsDecoder.MapDecoderOptionRejects | src/codec/tlsDecoder.ts:61-70 | a value the table lookup rejects is a failure wherever its encoding sits |
| TlsDecoder.SucceedDecoderBehaviour | src/codec/tlsDecoder.ts:102-104 | succeedDecoder returns its value and consumes nothing |
| TlsDecoder.OrDecoderBehaviour | src/codec/tlsDecoder.ts:76-81 | orDecoder is the first decoder's success, and otherwise the second decoder's answer at the same offset |
| TlsDecoder.FlatMapDecoderAndMapBehaviour | src/codec/tlsDecoder.ts:83-100 | the second decoder, chosen from the first value, reads just after it; the lengths add and either failure is the failure |
| TlsDecoder.FlatMapDecoderAndMapRejects | src/codec/tlsDecoder.ts:83-100 | when the first decoder rejects the bytes, so does the whole flat map |
| TlsDecoder.ReduceAfterFailure | src/codec/tlsDecoder.ts:40-44 | once the accumulator is undefined no later decoder is consulted |
| TlsDecoder.ReduceIsChain | src/codec/tlsDecoder.ts:32-54 | the left fold agrees with the decoders applied one after the other from any accumulator |
| TlsDecoder.MapDecodersIsChain | src/codec/tlsDecoder.ts:27-59 | mapDecoders succeeds exactly when the chain does, with the values read and the total of the lengths |
| TlsDecoder.ChainValues | src/codec/tlsDecoder.ts:40-52 | on success each decoder succeeded at its offset and the values come back in order, one per decoder |
| TlsDecoder.ChainFailsAt | src/codec/tlsDecoder.ts:40-56 | a decoder failing at the offset the earlier ones reach makes the whole of mapDecoders fail |
| TlsDecoder.MapDecodersDecodes | src/codec/tlsDecoder.ts:27-59 | encodings concatenated in order decode to the function of their values |
| TlsDecoder.MapDecodersOptionBehaviour | src/codec/tlsDecoder.ts:13-25 | mapDecodersOption succeeds exactly when mapDecoders does and the function gives a value, with the same length |
| TlsDecoder.MapDecoders2IsReduce | src/codec/tlsDecoder.ts:27-59 | the two-decoder tuple form used by the model equals the reduce over the list of both decoders |
| Optional.PrependPresenceOctet | src/codec/optional.ts:22-24 | the result is the octet 1 followed by the value's bytes |
| Optional.EncodeOptional | src/codec/optional.ts:6-8 | absence, and only absence, is written as the single octet 0; a present value is 1 then its encoding |
| Optional.EncodeOptionalAgrees | src/codec/optional.ts:6-8 | the encoder as written agrees with the intended one on every value its truthiness test lets through |
| Optional.EncodeOptionalDropsZero | src/codec/optional.ts:6-8 | the encoder as written turns a present 32-bit 0 into the absent encoding, which decodes back as absent |
| Optional.DecodeOptionalAsWrittenPastEnd | src/codec/optional.ts:10-20 | with no presence octet in the buffer, the decoder as written succeeds with absent and claims one byte |
| Optional.DecodeOptionalStaysInBuffer | src/codec/optional.ts:10-20 | the intended decoder fails past the end and never consumes more than the buffer holds |
| Optional.DecodeOptionalPresent | src/codec/optional.ts:13-15 | after presence octet 1 the inner value is read just after it, its failure is the failure and its length grows by one |
| Optional.DecodeOptionalOtherOctet | src/codec/optional.ts:16-18 | any presence octet other than 1 reads as absent, consuming that one octet |
| Optional.OptionalRoundTrip | src/codec/optional.ts:6-20 | an optional value encoded by the intended encoder decodes back to itself |
| Optional.OptionalAsWrittenRoundTrip | src/codec/optional.ts:6-20 | the decoder as written also reads back every optional value the intended encoder writes |
| ContentType.ContentTypeFromValue | src/contentType.ts:8-12 | the name read from a code is exactly the name whose table code it is, none for a code outside the table |
| ContentType.ContentTypeRoundTrip | src/contentType.ts:17-19 | every name encodes as its 1-byte code and decodes back to itself |
| ContentType.ContentTypeUnknownRejected | src/contentType.ts:19 | a code outside the table is a decode failure |
| Wireformat.WireformatFromValue | src/wireformat.ts:8-14 | the name read from a code is exactly the name whose table code it is, none for a code outside the table |
| Wireformat.WireformatRoundTrip | src/wireformat.ts:19-22 | every name encodes as its 2-byte code and decodes back to itself |
| Wireformat.WireformatUnknownRejected | src/wireformat.ts:22 | a code outside the table is a decode failure |
| ProtocolVersion.ProtocolVersionFromValue | src/protocolVersion.ts:6-8 | the name read from a code is exactly the name whose table code it is, none for a code outside the table |
| ProtocolVersion.ProtocolVersionRoundTrip | src/protocolVersion.ts:13-21 | every name encodes as its 2-byte code and decodes back to itself |
| ProtocolVersion.ProtocolVersionUnknownRejected | src/protocolVersion.ts:21 | a code outside the table is a decode failure |
| NodeType.NodeTypeFromValue | src/nodeType.ts:6-9 | the name read from a code is exactly the name whose table code it is, none for a code outside the table |
| NodeType.NodeTypeRoundTrip | src/nodeType.ts:14-16 | every name encodes as its 1-byte code and decodes back to itself |
| NodeType.NodeTypeUnknownRejected | src/nodeType.ts:16 | a code outside the table is a decode failure |
| LeafNodeSource.LeafNodeSourceFromValue | src/leafNodeSource.ts:6-10 | the name read from a code is exactly the name whose table code it is, none for a code outside the table |
| LeafNodeSource.LeafNodeSourceRoundTrip | src/leafNodeSource.ts:15-23 | every name encodes as its 1-byte code and decodes back to itself |
| LeafNodeSource.LeafNodeSourceUnknownRejected | src/leafNodeSource.ts:23 | a code outside the table is a decode failure |
| DefaultExtensionType.DefaultExtensionTypeFromValue | src/defaultExtensionType.ts:6-12 | the name read from a code is exactly the name whose table code it is, none for a code outside the table |
| DefaultExtensionType.DefaultExtensionTypeRoundTrip | src/defaultExtensionType.ts:17-25 | every name encodes as its 2-byte code and decodes back to itself |
| DefaultExtensionType.DefaultExtensionTypeUnknownRejected | src/defaultExtensionType.ts:25 | a code outside the table is a decode failure |
| DefaultProposalType.DefaultProposalTypeFromValue | src/defaultProposalType.ts:6-14 | the name read from a code is exactly the name whose table code it is, none for a code outside the table |
| DefaultProposalType.DefaultProposalTypeRoundTrip | src/defaultProposalType.ts:19-27 | every name encodes as its 2-byte code and decodes back to itself |
| DefaultProposalType.DefaultProposalTypeUnknownRejected | src/defaultProposalType.ts:27 | a code outside the table is a decode failure |
| ProposalOrRef.ProposalOrRefTypeFromValue | src/proposalOrRefType.ts:11-14 | the name read from a code is exactly the name whose table code it is, none for a code outside the table |
| ProposalOrRef.ProposalOrRefTypeRoundTrip | src/proposalOrRefType.ts:19-27 | every name encodes as its 1-byte code and decodes back to itself |
| ProposalOrRef.ProposalOrRefTypeUnknownRejected | src/proposalOrRefType.ts:27 | a code outside the table is a decode failure |
| CredentialType.CredentialTypeFromValue | src/credentialType.ts:6-22 | every code has a name: basic for 1, x509 for 2, a custom type of that number otherwise |
| CredentialType.CredentialTypeRoundTrip | src/credentialType.ts:14-22 | a canonical name encodes as its 2-byte code and decodes back to itself |
| CredentialType.CredentialTypeReadsEveryCode | src/credentialType.ts:19-22 | no 2-byte code is rejected: each reads back as the canonical name with that code |
| ProposalOrRef.EncodeProposalOrRef | src/proposalOrRefType.ts:40-57 | the encoding starts with the tag of its kind, proposal or reference |
| ProposalOrRef.ProposalOrRefRoundTrip | src/proposalOrRefType.ts:40-69 | an inline proposal or a var-len reference decodes back to itself, the body reader chosen by the decoded tag |
| Commit.CommitLayout | src/commit.ts:13-16 | a commit encodes as its var-len proposal list, then 0 for no path or 1 followed by the encoded path |
| Commit.CommitRoundTrip | src/commit.ts:13-21 | a canonical commit (proposals and optional path) decodes back to itself |
| Commit.CommitTruncatedAfterProposals | src/commit.ts:18-21 | a buffer that ends right after the proposal list decodes, as written, to a commit without a path that claims one byte more than the buffer holds |
| Capabilities.CapabilitiesRoundTrip | src/capabilities.ts:22-48 | versions, cipher suites, extension and proposal numbers and credential types decode back in that order |
| Capabilities.Uint16ListRoundTrip | src/capabilities.ts:26-27 | a var-len list of 2-byte numbers decodes back to itself |
| Capabilities.CredentialTypeListRoundTrip | src/capabilities.ts:28 | a var-len list of canonical credential types decodes back to itself |
| ExternalSender.ExternalSenderRoundTrip | src/externalSender.ts:14-22 | signature key and basic or x509 credential decode back to the same external sender |
| ExternalSender.ExternalSenderRejectsCredential | src/externalSender.ts:19-22 | an entry whose credential part does not decode is rejected as a whole |
| GroupSecrets.GroupSecretsRoundTrip | src/groupSecrets.ts:13-21 | joiner secret, optional path secret and PSK ids decode back to the same group secrets |
| GroupSecrets.AbsentPathSecretLayout | src/groupSecrets.ts:13-16 | an absent path secret is the single presence octet 0 between the joiner secret and the PSK list |
| GroupSecrets.GroupSecretsRejectsPsks | src/groupSecrets.ts:18-21 | group secrets whose PSK list does not decode are rejected |
| HpkeCiphertext.HpkeCiphertextRoundTrip | src/hpkeCiphertext.ts:12-20 | KEM output and ciphertext decode back in order |
| HpkeCiphertext.HpkeCiphertextFails | src/hpkeCiphertext.ts:17-20 | decoding fails exactly when one of the two var-len fields fails, and a success consumes both |
| Lifetime.EncodeLifetime | src/lifetime.ts:10-13 | a lifetime is 16 bytes on the wire |
| Lifetime.LifetimeRoundTrip | src/lifetime.ts:10-18 | not-before and not-after decode back from their two 8-byte fields |
| Lifetime.DefaultLifetimeSpan | src/lifetime.ts:20-23 | the default lifetime runs from 0 to 2^63 - 1 and encodes as eight zero bytes then 7F FF FF FF FF FF FF FF |
| ParentNode.ParentNodeRoundTrip | src/parentNode.ts:12-24 | HPKE key, parent hash and unmerged leaves decode back to the same parent node |
| ParentNode.ParentNodeRejectsBadKey | src/parentNode.ts:17-24 | bytes whose first var-len field does not decode are no parent node |
| RequiredCapabilities.RequiredCapabilitiesRoundTrip | src/requiredCapabilities.ts:16-24 | extension types, proposal types and canonical credential types decode back in that order |
| Credential.CredentialRoundTrip | src/credential.ts:25-71 | a basic credential's identity or an x509 credential's certificate list decodes back, the body reader chosen by the decoded type |
| Credential.CustomCredentialRejected | src/credential.ts:61-71 | a credential of any type other than basic or x509 does not decode |
| Extension.ExtensionTypeToNumber | src/extension.ts:59-61 | the 2-byte encoding of an extension type is that of its number, a bare number being its own number |
| Extension.NormalizeExtensionType | src/extension.ts:20 | the type as the decoder reports it: same number, named whenever the number is in the default table |
| Extension.ExtensionTypeRoundTrip | src/extension.ts:17-20 | an extension type is 2 bytes and decodes back to its normal form, a bare number of a default type coming back as its name |
| Extension.ExtensionRoundTrip | src/extension.ts:27-35 | type and var-len data decode back, the type in normal form |
| Extension.ExtensionsRoundTrip | src/extension.ts:27-35 | a var-len list of extensions with normal-form types decodes back to itself |
| Extension.ExtensionEqual | src/extension.ts:37-39 | true exactly when type and data are equal |
| Extension.ExtensionsEqual | src/extension.ts:41-44 | true exactly when the lists are equal element by element |
| Extension.FilterNonDefault | src/extension.ts:50-57 | keeps exactly the extensions whose type is a bare number |
| Extension.ExtensionsSupportedByCapabilities | src/extension.ts:46-53 | true exactly when every required extension of a bare-number type has its number among the capability's extensions |
| Crypto.RefHashInputRoundTrip | src/crypto/hash.ts:12-19 | the bytes a reference digests split back into the UTF-8 label and the value |
| Crypto.RefHashInputInjective | src/crypto/hash.ts:12-19 | two references digest the same bytes only for the same label bytes and value, and the same label when both are ASCII |
| LeafNode.EncodeLeafNodeInfo | src/leafNode.ts:61-85 | the info's encoding starts with the octet of its leaf node source |
| LeafNode.LeafNodeInfoRoundTrip | src/leafNode.ts:61-109 | a lifetime, nothing or a parent hash decodes back after its source octet, an update info being that octet alone |
| LeafNode.LeafNodeDataRoundTrip | src/leafNode.ts:33-46 | encryption key, signature key, credential and capabilities decode back in that order |
| LeafNode.LeafNodeRoundTrip | src/leafNode.ts:163-176 | data, info, extensions and signature decode back to the same leaf node |
| LeafNode.CustomCredentialLeafRejected | src/leafNode.ts:33-46 | a leaf whose credential type is neither basic nor x509 is rejected by the leaf decoder and by every source-filtered decoder, whatever follows the type |
| LeafNode.SourceFilteredRoundTrip | src/leafNode.ts:180-194 | each source-filtered decoder reads back a leaf of its own source and rejects the encoding of a leaf of any other source |
| LeafNode.EncodeLeafNodeGroupInfo | src/leafNode.ts:131-146 | nothing for a key-package leaf, the var-len group id and 4-byte leaf index for an update or commit leaf |
| LeafNode.ToTbs | src/leafNode.ts:196-198 | the leaf's data, info and extensions, bound to the given group id and leaf index under the leaf's own source |
| LeafNode.SignLeafNode | src/leafNode.ts:200-214 | the signed leaf keeps the data, info and extensions of its TBS |
| LeafNode.SignedCommitLeafVerifies | src/leafNode.ts:200-229 | a commit leaf signed for a group and index verifies for that group and index |
| LeafNode.SignedKeyPackageLeafVerifies | src/leafNode.ts:208-239 | a key-package leaf signed without group binding verifies with the key-package verifier and with the group verifier for any group and index |
| LeafNode.KeyPackageLeafIgnoresGroup | src/leafNode.ts:216-239 | for a key-package leaf the two verifiers agree whatever group and index are passed |
| KeyPackage.KeyPackageTbsOf | src/keyPackage.ts:66 | a key package is its TBS with the signature added, and nothing else |
| KeyPackage.KeyPackageTbsRoundTrip | src/keyPackage.ts:37-64 | version, cipher suite, init key, key-package leaf and extensions decode back in that order |
| KeyPackage.KeyPackageRoundTrip | src/keyPackage.ts:68-79 | the TBS followed by the var-len signature decodes back to the same key package |
| KeyPackage.CustomCredentialKeyPackageRejected | src/keyPackage.ts:37-79 | a key package whose leaf carries a credential type other than basic or x509 is rejected, whatever follows the type |
| KeyPackage.KeyPackageRejectsOtherLeaf | src/keyPackage.ts:49-56 | a TBS whose leaf has an update or commit source does not decode |
| KeyPackage.KeyPackageRefInputInjective | src/keyPackage.ts:89-91 | two canonical key packages digest the same reference input only when they are equal |
| KeyPackage.SignKeyPackage | src/keyPackage.ts:81-83 | signing leaves every TBS field as given |
| KeyPackage.SignedKeyPackageVerifies | src/keyPackage.ts:81-87 | a package signed with the private key of its leaf's signature key verifies |
| KeyPackage.GenerateKeyPackage | src/keyPackage.ts:99-136 | version mls10, the suite's name, the init public key, a key-package leaf with the encryption and signature public keys, credential, capabilities and lifetime, the extensions in both leaf and package; the private package holds the three private keys |
| KeyPackage.GeneratedKeyPackageVerifies | src/keyPackage.ts:99-136 | with a consistent signature key pair both the generated package and its leaf verify |
| KeyPackage.ComparisonsOnlySeeSignatureKeys | src/keyPackageEqualityConfig.ts:10-17 | the default comparisons look only at the signature keys: they are reflexive, symmetric and transitive, and comparing to a package's leaf is comparing to the package |
| Proposal.DefaultTypeOf | src/proposal.ts:127-135 | each of the seven default proposals is named by its own type |
| Proposal.ProposalTypeNumber | src/proposal.ts:177-196 | a default proposal's number is its table entry; a custom one keeps its own |
| Proposal.ReinitRoundTrip | src/proposal.ts:56-64 | a reinit (group id, version, cipher suite, extensions) decodes back from its encoding |
| Proposal.EncodeProposal | src/proposal.ts:137-196 | a default proposal is its 2-byte type then its body; a custom one is its number then its var-len data |
| Proposal.AddBodyRoundTrip | src/proposal.ts:25-26 | an add body decodes back from its encoding |
| Proposal.UpdateBodyRoundTrip | src/proposal.ts:32-33 | an update body decodes back from its encoding |
| Proposal.RemoveBodyRoundTrip | src/proposal.ts:39-40 | a remove body decodes back from its encoding |
| Proposal.PskBodyRoundTrip | src/proposal.ts:46-47 | a PSK body decodes back from its encoding |
| Proposal.ReinitBodyRoundTrip | src/proposal.ts:56-64 | a reinit body decodes back from its encoding |
| Proposal.ExternalInitBodyRoundTrip | src/proposal.ts:70-71 | an external-init body decodes back from its encoding |
| Proposal.GroupContextExtensionsBodyRoundTrip | src/proposal.ts:77-85 | a group-context-extensions body decodes back from its encoding |
| Proposal.DefaultBodyRoundTrip | src/proposal.ts:198-249 | every default proposal's body decodes back under the body decoder its type selects |
| Proposal.CustomReadingRoundTrip | src/proposal.ts:227-229 | the custom reading reads a custom proposal back |
| Proposal.DefaultReadingRejects | src/proposal.ts:231-249 | the default reading fails on a proposal type it does not know |
| Proposal.CustomProposalRoundTrip | src/proposal.ts:231-251 | a custom proposal fails the default reading and is read back by the fallback |
| Proposal.DefaultProposalRoundTrip | src/proposal.ts:231-251 | a default proposal is read back by the default reading, so the fallback is not consulted |
| Proposal.ProposalRoundTrip | src/proposal.ts:177-251 | every canonical proposal decodes back from its encoding |
| Proposal.MalformedRemoveReadsAsCustom | src/proposal.ts:231-251 | type 3 followed by a single zero byte is no remove, so it reads as a custom proposal of number 3 with empty data |
| Proposal.FallbackOnRejectedBody | src/proposal.ts:231-251 | a default proposal type followed by a body its decoder rejects leaves the whole read to the custom reading |
| Proposal.CustomCredentialUpdateReadsAsCustom | src/proposal.ts:231-251 | an update whose leaf carries a credential type other than basic or x509 fails as an update and reads as a custom proposal of number 2 |
| Proposal.CustomCredentialAddReadsAsCustom | src/proposal.ts:231-251 | an add whose key package's leaf carries such a credential fails as an add and reads as whatever the custom reading makes of the bytes |
| Message.MlsMessageBodyRoundTrip | src/message.ts:87-103 | each of the five bodies decodes back with the reader its own wireformat selects |
| Message.MlsMessageContentRoundTrip | src/message.ts:47-103 | the wireformat followed by the body decodes back to the same content |
| Message.MlsMessageRoundTrip | src/message.ts:105-113 | the version followed by the tagged content decodes back to the same message |
| Message.DecodedPublicTagged | src/message.ts:87-92 | a content decoded after the public-message wireformat is a public message |
| Message.DecodedWelcomeTagged | src/message.ts:93-94 | a content decoded after the welcome wireformat is a Welcome |
| Message.DecodedPrivateTagged | src/message.ts:95-96 | a content decoded after the private-message wireformat is a private message |
| Message.DecodedGroupInfoTagged | src/message.ts:97-98 | a content decoded after the group-info wireformat is a group info |
| Message.DecodedKeyPackageTagged | src/message.ts:99-100 | a content decoded after the key-package wireformat is a key package |
| FramedContent.FramedContentInfoRoundTrip | src/framedContent.ts:65-103 | the content-type tag selects the body decoder, and every canonical application, proposal or commit body decodes back to itself |
| FramedContent.FramedContentRoundTrip | src/framedContent.ts:127-141 | group id, epoch, sender, authenticated data and body decode back to the same framed content |
| FramedContent.TbsBindsContent | src/framedContent.ts:105-174 | equal to-be-signed bytes built by toTbs imply equal content and wireformat, and also equal group context when the sender is a member or a new member committing |
| FramedContent.AuthDataRoundTrip | src/framedContent.ts:187-229 | signature and, for a commit, confirmation tag decode back with the reader that the content type selects |
| FramedContent.NonCommitAuthIsSignatureOnly | src/framedContent.ts:222-227 | for application and proposal content the auth data is only the var-len signature |
| FramedContent.SignFramedContentApplicationOrProposal | src/framedContent.ts:252-262 | the auth data it returns is well formed and carries the content type of the signed content |
| FramedContent.SignedContentVerifies | src/framedContent.ts:231-262 | content signed over its own toTbs verifies under the matching public key |
| FramedContent.CreateContentCommitSignature | src/framedContent.ts:280-306 | the framed content takes the group id and epoch of the context and the given sender, authenticated data and commit |
| FramedContent.CommitSignatureVerifies | src/framedContent.ts:280-306 | a commit signature from a member or a new_member_commit sender verifies against the receiver's toTbs |
| FramedContent.CommitTbsDiffersForOtherSenders | src/framedContent.ts:289-302 | for an external or new_member_proposal sender, the signed bytes (fixed member sender info) differ from the bytes the receiver rebuilds |
| FramedContent.ConfirmationTagVerifies | src/framedContent.ts:264-279 | a confirmation tag created by the MAC verifies for the same key and confirmed transcript hash |
| AuthenticatedContent.AuthenticatedContentRoundTrip | src/authenticatedContent.ts:47-63 | wireformat, content and auth data decode back, the auth reader being chosen by the decoded content's type |
| AuthenticatedContent.AuthenticatedContentEncodingInjective | src/authenticatedContent.ts:47-50 | two canonical authenticated contents with equal encodings are equal |
| AuthenticatedContent.MembershipTagVerifies | src/authenticatedContent.ts:70-90 | a membership tag created over the encoded TBM verifies for it under the same key |
| AuthenticatedContent.ProposalRefInputBindsContent | src/authenticatedContent.ts:92-94 | the bytes hashed into a proposal reference determine the authenticated content |
| PublicMessage.PublicMessageInfoRoundTrip | src/publicMessage.ts:30-53 | a member's var-len membership tag, or nothing for other senders, decodes back with the reader its sender type selects |
| PublicMessage.PublicMessageRoundTrip | src/publicMessage.ts:59-73 | content, auth data and sender-dependent info decode back to the same public message |
| PublicMessage.SenderFromExtension | src/publicMessage.ts:102-113 | indexes the list filtered to external_senders: none exactly past its end, CodecError exactly when the selected entry does not decode |
| PublicMessage.SenderFromExtensionFindsEncoded | src/publicMessage.ts:102-113 | an external sender stored encoded at a filtered position is the one returned |
| PublicMessage.FindSignaturePublicKey | src/publicMessage.ts:75-100 | per sender type: the leaf's key for a member; the extension sender's key for an external sender, ValidationError when missing; the key package's key for a new-member add and the path leaf's key for a new-member commit with path, ValidationError otherwise |
| PublicMessage.MemberKeyIsLeafKey | src/publicMessage.ts:81-82 | a member whose leaf was written into the tree resolves to that leaf's signature key |
| PublicMessage.MemberWithoutLeafFails | src/publicMessage.ts:81-82 | a member whose slot is blank or a parent node gets an InternalError |
| PublicMessage.ExternalKeyFromExtension | src/publicMessage.ts:83-87 | an external sender whose index selects an entry holding that sender encoded resolves to its key |
| PublicMessage.ExternalKeyMissingFails | src/publicMessage.ts:83-87 | an index past the external_senders extensions is a ValidationError |
| PrivateMessage.PrivateContentAadRoundTrip | src/messageProtection.ts:176-186 | the content's additional data (group id, epoch, content type, authenticated data) decodes back from its encoding |
| PrivateMessage.PrivateMessageRoundTrip | src/messageProtection.ts:204-212 | a private message is non-empty on the wire and decodes back from its encoding |
| PrivateMessage.SenderDataRoundTrip | src/messageProtection.ts:190-194 | well-formed sender data (leaf index, generation, 4-byte reuse guard) decodes back from its encoding |
| PrivateMessage.SenderDataAadRoundTrip | src/messageProtection.ts:196-200 | the sender data's additional data decodes back from its encoding |
| PrivateMessage.CiphertextSample | src/messageProtection.ts:202 | the sample keying the sender data is a prefix of the content ciphertext, at most the KDF's size long |
| PrivateMessage.SenderDataDecrypts | src/messageProtection.ts:202-234 | sender data encrypted for a message's own group id, epoch, content type and ciphertext decrypts back to itself |
| PrivateMessage.PrivateMessageContentRoundTrip | src/messageProtection.ts:183-251 | a decrypted plaintext that is exactly an encoded content, zero padding included, decodes back as that content |
| PrivateMessage.NonZeroPaddingRejected | src/messageProtection.ts:249-251 | a non-zero byte in the padding makes the content undecodable |
| PrivateMessage.ToAuthenticatedContent | src/messageProtection.ts:253 | the decrypted body and auth framed with the message's clear fields, the private wireformat and the member sender named by the sender data |
| GroupContext.GroupContextRoundTrip | src/groupContext.ts:28-61 | version, cipher suite, group id, epoch, tree hash, transcript hash and extensions decode back in that order |
| GroupContext.GroupContextEncodingInjective | src/groupContext.ts:28-40 | two canonical contexts with the same encoding are the same context |
| GroupContext.PskSecretOrZeros | src/groupContext.ts:69 | without a PSK secret the epoch uses `kdf.size` zero bytes, otherwise the one given |
| GroupContext.EpochSecretDefaultPsk | src/groupContext.ts:63-73 | omitting the PSK secret gives the same epoch secret as passing `kdf.size` zeros |
| GroupContext.EpochSecretBindsContext | src/groupContext.ts:63-73 | two canonical contexts whose "epoch" expansions read the same info bytes are equal |
| GroupContext.JoinerAndEpochSeparated | src/groupContext.ts:63-84 | the "joiner" and "epoch" expansions never read the same info bytes, whatever the contexts |
| GroupInfo.GroupInfoTbsRoundTrip | src/groupInfo.ts:27-40 | group context, extensions, confirmation tag and 4-byte signer decode back in that order |
| GroupInfo.GroupInfoRoundTrip | src/groupInfo.ts:46-57 | the TBS followed by the var-len signature decodes back to the same group info |
| GroupInfo.RatchetTreeFromExtension | src/groupInfo.ts:59-67 | none exactly when no ratchet_tree extension is present; the only error is CodecError |
| GroupInfo.RatchetTreeFromFirstExtension | src/groupInfo.ts:59-67 | the tree returned is the one encoded in the first ratchet_tree extension, whatever follows it |
| GroupInfo.SignGroupInfo | src/groupInfo.ts:69-72 | signing keeps the TBS fields unchanged |
| GroupInfo.SignedGroupInfoVerifies | src/groupInfo.ts:69-76 | a group info signed under "GroupInfoTBS" verifies under the matching public key |
| GroupInfo.ConfirmationTagOfEpochVerifies | src/groupInfo.ts:78-87 | a tag computed as the MAC of the confirmed transcript hash under deriveSecret(epochSecret, "confirm") passes the check |
| Welcome.EncryptedGroupSecretsRoundTrip | src/welcome.ts:25-33 | the new member's reference and the HPKE ciphertext decode back |
| Welcome.WelcomeRoundTrip | src/welcome.ts:41-49 | cipher suite, list of encrypted secrets and encrypted group info decode back to the same Welcome |
| Welcome.DecryptGroupInfo | src/welcome.ts:71-85 | a decryption failure is the only error; undecodable plaintext gives none |
| Welcome.GroupInfoDecryptsForJoiner | src/welcome.ts:51-85 | with the committer's joiner and PSK secrets, decryption under the welcome key and nonce returns the group info that was encrypted |
| Welcome.FindSecret | src/welcome.ts:102 | returns the first entry whose newMember equals the reference, or none when no entry does |
| Welcome.DecryptGroupSecrets | src/welcome.ts:96-113 | ValidationError exactly when no entry is addressed to the reference; otherwise only a decryption failure is an error |
| Welcome.GroupSecretsDecryptForMember | src/welcome.ts:87-113 | a member whose entry is the first for its reference recovers the group secrets sealed to its init key with label "Welcome" and the encrypted group info as context |
| PreSharedKey.PskTypeFromValue | src/presharedkey.ts:12-21 | the inverse of the PSK-type table (external 1, resumption 2) |
| PreSharedKey.PskTypeRoundTrip | src/presharedkey.ts:20-21 | every PSK type is one byte and decodes back as itself |
| PreSharedKey.PskTypeUnknownRejected | src/presharedkey.ts:21 | a code outside the table is a decode failure |
| PreSharedKey.ResumptionPskUsageFromValue | src/presharedkey.ts:23-40 | the inverse of the usage table (application 1, reinit 2, branch 3) |
| PreSharedKey.ResumptionPskUsageRoundTrip | src/presharedkey.ts:32-40 | every usage is one byte and decodes back as itself |
| PreSharedKey.ResumptionPskUsageUnknownRejected | src/presharedkey.ts:37-40 | a code outside the table is a decode failure |
| PreSharedKey.EncodePskInfo | src/presharedkey.ts:54-78 | external: the type then the var-len id; resumption: the type, usage, var-len group id and 8-byte epoch |
| PreSharedKey.PskInfoRoundTrip | src/presharedkey.ts:54-93 | both kinds of PSK info decode back from their encoding |
| PreSharedKey.PskIdRoundTrip | src/presharedkey.ts:99-107 | a PSK id (info and nonce) decodes back from its encoding |
| PreSharedKey.PskIdsRoundTrip | src/presharedkey.ts:99-107 | a var-len list of PSK ids decodes back from its encoding |
| PreSharedKey.PskLabelRoundTrip | src/presharedkey.ts:115-123 | the PSK label (id, 16-bit index, 16-bit count) decodes back from its encoding |
| PreSharedKey.PskLabelInjective | src/presharedkey.ts:115-123 | PSK labels that differ in any field encode to different bytes |
| PreSharedKey.PskFoldIsRecurrence | src/presharedkey.ts:128-156 | the reduce computes the recurrence of section 8.4 of RFC 9420: step i uses position i and the total count |
| PreSharedKey.ComputePskSecret | src/presharedkey.ts:128-135 | zeros of the KDF size when there are no PSKs, else the recurrence over all of them in order |
| PskIndex.EmptyPskIndexFindsNothing | src/pskIndex.ts:9-13 | the empty index finds no PSK for any id |
| PskIndex.AccumulateFoldFound | src/pskIndex.ts:21-30 | when every id is found, the reduce is the PSK fold and collects the ids in order |
| PskIndex.AccumulateFoldMissing | src/pskIndex.ts:24-25 | when some id is missing, the reduce ends in a ValidationError |
| PskIndex.AccumulateFoldSpec | src/pskIndex.ts:21-30 | the reduce from any position either yields the PSK fold and the ids seen, or a ValidationError when an id is missing |
| PskIndex.AccumulatePskSecret | src/pskIndex.ts:15-31 | fails with ValidationError exactly when some id is not found; otherwise returns the ids in input order and the section 8.4 recurrence with the list length as count, from the caller's starting secret |
| PskIndex.AccumulateMatchesCompute | src/pskIndex.ts:15-31 | starting from zeros of the KDF size, the accumulated secret is computePskSecret of the found PSKs |
| PskIndex.EmptyIndexRejects | src/pskIndex.ts:9-31 | with the empty index, any non-empty list of PSK ids fails with a ValidationError |
| TreeHash.LeafNodeHashInputRoundTrip | src/treeHash.ts:27-39 | a leaf hash input (leaf index and optional leaf node) decodes back from its encoding |
| TreeHash.ParentNodeHashInputRoundTrip | src/treeHash.ts:41-54 | a parent hash input (optional parent node and both child hashes) decodes back from its encoding |
| TreeHash.TreeHashInputRoundTrip | src/treeHash.ts:56-74 | both kinds of input decode back through the decoder that dispatches on the node type |
| TreeHash.TreeHash | src/treeHash.ts:80-104 | the hash of a subtree fails with an InternalError, and only that, exactly when a node of the wrong kind lies in it |
| TreeHash.TreeHashRoot | src/treeHash.ts:76-78 | the tree hash at the root of the tree's node width |
| TreeHash.TreeHashOfLeaf | src/treeHash.ts:81-89 | a leaf slot hashes an input that decodes back as its leaf index and its leaf node, absent when blank |
| TreeHash.TreeHashOfParent | src/treeHash.ts:90-103 | a parent slot hashes an input that decodes back as its parent node, absent when blank, and the tree hashes of its two children |
| TreeHash.TreeHashLocal | src/treeHash.ts:80-104 | the hash of a subtree depends on the slots of that subtree and nothing else |
| TreeHash.UpdateOutsideKeepsHash | src/treeHash.ts:80-104 | writing a slot outside a subtree keeps that subtree's hash |
| ParentHash.ParentHashInputRoundTrip | src/parentHash.ts:34-46 | the parent-hash input (key, parent hash, sibling tree hash) decodes back from its encoding |
| ParentHash.CalculateParentHash | src/parentHash.ts:127-160 | the root has no parent hash; a blank root ancestor gives the empty hash; otherwise the hash comes from the first non-blank ancestor, which it names |
| ParentHash.CalculateParentHashOfParent | src/parentHash.ts:145-159 | below a non-blank parent ancestor the hash is the digest of that parent's key, its parent hash and the copath child's tree hash with its unmerged leaves removed, failing exactly when that subtree is malformed |
| ParentHash.ParentHashLinkSound | src/parentHash.ts:127-160 | calculateParentHash always names a first non-blank ancestor above the node, as the coverage walk needs |
| ParentHash.CoverageCounts | src/parentHash.ts:74-117 | the coverage of a node is the number of non-blank leaves whose chain of matching parent hashes reaches it |
| ParentHash.CoverageError | src/parentHash.ts:96-98 | computing the coverage can fail only with an InternalError |
| ParentHash.CoverFromLeaf | src/parentHash.ts:77-114 | the walk from one leaf adds one to each ancestor reached while parent hashes match, and stops at the first mismatch |
| ParentHash.ParentHashCoverage | src/parentHash.ts:74-117 | the reduce over the leaves skips blank ones and stops at the first error |
| ParentHash.CoverLeaves | src/parentHash.ts:76-116 | the fold over the leaves from a given index is the leaf walks applied in order |
| ParentHash.ValidateParentHashCoverage | src/parentHash.ts:48-55 | true exactly when every listed index has count one, a missing index counting zero |
| ParentHash.ParentNodeIndices | src/parentHash.ts:58-62 | exactly the indices of the tree's parent nodes, in increasing order |
| ParentHash.VerifyParentHashes | src/parentHash.ts:57-69 | true with no parent node; otherwise the coverage succeeds and covers every parent node once |
| ParentHash.VerifyParentHashesMeaning | src/parentHash.ts:57-117 | the tree passes exactly when every parent node is reached by the chain of exactly one non-blank leaf (section 7.9.2 of RFC 9420) |
| ParentHash.CalculateParentHashLocal | src/parentHash.ts:127-160 | the parent hash at a node reads only slots outside that node's subtree |
| ParentHash.UpdateInsideKeepsParentHash | src/parentHash.ts:127-160 | writing a slot inside a node's subtree keeps that node's parent hash |
| PathSecrets.PathToPathSecretsLastWins | src/pathSecrets.ts:16-24 | the keys are the node indices listed, each mapped to the secret of its last occurrence |
| PathSecrets.PathSecretsFromShape | src/pathSecrets.ts:39-57 | the map holds the start node with its given secret and exactly the first-non-blank-ancestor chain above it, which always reaches the root |
| PathSecrets.PathSecretsFromChain | src/pathSecrets.ts:48-54 | each chain node's successor maps to the secret derived with label "path" from that node's secret |
| PathSecrets.PathToRoot | src/pathSecrets.ts:39-57 | the loop's result is the chain map from the start node |
| PathSecrets.PathSecretsStep | src/pathSecrets.ts:48-54 | one iteration keeps the union of what is stored and what is still to come |
| PathSecrets.GetCommitSecret | src/pathSecrets.ts:25-37 | the root's secret from the chain, derived once more with label "path"; the missing-root error cannot arise |
| PathSecrets.CommitSecretAlongChain | src/pathSecrets.ts:25-57 | starting from any node's secret on the chain gives the same commit secret as starting from the bottom |
| PathSecrets.RootSecretAfterStep | src/pathSecrets.ts:48-54 | the root secret from a node equals the root secret from the next node up, given the derived secret |
| UpdatePath.UpdatePathNodeRoundTrip | src/updatePath.ts:46-54 | an update-path node (key and ciphertexts) decodes back from its encoding |
| UpdatePath.UpdatePathNodesRoundTrip | src/updatePath.ts:46-54 | a var-len list of update-path nodes decodes back from its encoding |
| UpdatePath.UpdatePathRoundTrip | src/updatePath.ts:61-69 | a path whose leaf is a canonical commit leaf decodes back unchanged |
| UpdatePath.UpdatePathRejectsOtherLeaf | src/updatePath.ts:66-69 | a path whose leaf is not of source commit is rejected, whatever follows it |
| UpdatePath.InitialTreeFold | src/updatePath.ts:203-226 | after k steps: the path secrets so far with the latest first, each derived with label "path" from the one before, and each step's slot written with the fresh parent |
| UpdatePath.ApplyInitialTreeUpdate | src/updatePath.ts:196-227 | the whole fold, with the path secrets from the root down to the leaf |
| UpdatePath.InitialPathSecrets | src/updatePath.ts:196-227 | one path secret per step plus the leaf's: the leaf's last with nobody to send to, each other sent to its step's resolution and derived from the one after it |
| UpdatePath.InitialTreeUpdate | src/updatePath.ts:203-226 | each step's slot holds the fresh parent (derived key, empty parent hash, no unmerged leaves), every other slot is kept and the root stays |
| UpdatePath.HashFold | src/updatePath.ts:173-190 | the pass from the highest node down to a position: each node gets calculateParentHash on the tree so far; a failing hash or a non-parent node is an InternalError |
| UpdatePath.HashFoldErrSticks | src/updatePath.ts:178-189 | once the pass fails it fails with the same error to the end |
| UpdatePath.HashFoldElsewhere | src/updatePath.ts:178-189 | the pass leaves every slot it does not visit |
| UpdatePath.HashFoldShape | src/updatePath.ts:173-190 | after a successful pass over nested nodes every node holds the parent hash of the final tree, because later writes lie inside its subtree |
| UpdatePath.HashFoldSimulates | src/updatePath.ts:173-190 | passes over trees that differ only at the nodes and one slot inside their subtrees succeed together and their results differ only there |
| UpdatePath.FilteredPathNested | src/updatePath.ts:92 | a leaf's filtered direct path is nested under the root and every node of it has the leaf in its subtree |
| UpdatePath.InstallPath | src/updatePath.ts:270-277 | the loop from the root down writes each path node's key, no unmerged leaves and the parent hash computed on the copy so far |
| UpdatePath.ApplyUpdatePath | src/updatePath.ts:229-284 | the checks of lines 237-268 in order with their errors, for any sender index in a member commit; when they pass, the result is the copy after the loop, and the input tree is left as it was |
| UpdatePath.ApplyUpdatePathOutsideTree | src/updatePath.ts:236-240 | a member commit whose sender index has no slot in the tree is the InternalError of a missing leaf |
| UpdatePath.ApplyUpdatePathResult | src/updatePath.ts:229-284 | a success passed every check and gives the sender leaf the path's leaf, each filtered-direct-path node the path's key and a parent hash holding in the result, and keeps every other slot and the root |
| UpdatePath.FirstCommonAncestorOf | src/updatePath.ts:286-296 | the first node of the sender's filtered direct path that is an ancestor of the leaf, or a ValidationError when there is none |
| UpdatePath.FirstCommonAncestor | src/updatePath.ts:286-296 | the loop returns the node FirstCommonAncestorOf names |
| UpdatePath.FirstMatchAncestorOf | src/updatePath.ts:298-313 | as firstCommonAncestor, with that step's resolution and the path node at the same position, absent when the path is shorter |
| UpdatePath.FirstMatchAncestor | src/updatePath.ts:298-313 | the loop returns the match FirstMatchAncestorOf names |
| UpdatePath.EncryptToAll | src/updatePath.ts:156-167 | one ciphertext per node sent to, in order, failing when any of their slots is blank |
| UpdatePath.EncryptPath | src/updatePath.ts:136-138 | encryptSecretsForPath mapped over the path secrets, in order |
| UpdatePath.EncryptedPathNodeDecrypts | src/updatePath.ts:145-171 | an encrypted path node carries its node's key in the updated tree, and the holder of the k-th recipient's private key reads the path secret back with label "UpdatePathNode" over the same context |
| UpdatePath.CommitLeafTbs | src/updatePath.ts:106-115 | the new leaf keeps the old leaf's fields except the fresh HPKE key, the parent hash and the commit info naming the group and leaf |
| UpdatePath.CommitterTree | src/updatePath.ts:84-122 | the committer's tree: the initial update, the parent-hash pass, then the signed leaf with the parent hash calculateParentHash gives it |
| UpdatePath.CreatedPathSecrets | src/updatePath.ts:77-143 | the returned path secrets form the chain of section 7.4 of RFC 9420 along the filtered direct path, one path node per step, and the private key returned is the leaf's, from deriving "node" from the leaf secret |
| UpdatePath.PathSecretsLeafFirst | src/updatePath.ts:133 | dropping the leaf's secret and reversing the rest gives the chain from the bottom up |
| UpdatePath.CreateUpdatePathParts | src/updatePath.ts:77-143 | a successful createUpdatePath is a successful committer tree, its tree hash and the encrypted path |
| UpdatePath.CommitterTreeShape | src/updatePath.ts:84-122 | the filtered direct path holds the keys derived from the path secrets and parent hashes holding in the tree itself; the sender's slot holds the refreshed commit leaf with its computed parent hash; everything else and the root are the original's |
| UpdatePath.ApplyAccepts | src/updatePath.ts:229-284 | applyUpdatePath accepts a path with a fresh commit leaf, keys new to the tree and one node per step whose leaf carries the parent hash computed on the result, and returns that result |
| UpdatePath.CreateThenApply | src/updatePath.ts:77-284 | another member's applyUpdatePath accepts the path createUpdatePath sends, when the leaf key is new and no path key is already a parent's, and gets the committer's own tree |
| UpdatePath.CreatedTreeShape | src/updatePath.ts:77-143 | the tree createUpdatePath returns has the committer-tree shape with the keys from its returned path secrets, and has a tree hash |
| UpdatePath.CreatedPathKeys | src/updatePath.ts:136-140 | each returned path node carries the key its node holds in the committer's tree |
| UpdatePath.CommitLeafVerifies | src/updatePath.ts:106-117 | the signed commit leaf verifies under the old leaf's signature key for a matching signing key |
| UpdatePath.CreatedLeafVerifies | src/updatePath.ts:77-143 | the leaf createUpdatePath returns verifies in the group and at the sender's leaf index |
| UpdatePath.CreatedCiphertextSealedTo | src/updatePath.ts:145-168 | the k-th ciphertext of the j-th path node is step j's path secret sealed to the k-th node of the step's unfiltered copath resolution (sendTo at line 220) |
| UpdatePath.CreatedPathDecrypts | src/updatePath.ts:124-138 | the holder of the k-th resolution key at step j decrypts the j-th path node's k-th ciphertext to the j-th path secret, under the next epoch's context with the new tree hash |
| TranscriptHash.TranscriptInputOfCommit | src/transcriptHash.ts:24-35 | an input is built exactly when the content is a commit |
| TranscriptHash.TranscriptInputRoundTrip | src/transcriptHash.ts:19-35 | wireformat, commit content and signature decode back to the same input |
| TranscriptHash.TranscriptInputRejectsNonCommit | src/transcriptHash.ts:24-35 | the same fields around application or proposal content are rejected |
| TranscriptHash.ConfirmedHashInputBinds | src/transcriptHash.ts:37-43 | for interim hashes of equal length, the bytes digested into the confirmed hash determine the interim hash and the commit input |
| TranscriptHash.InterimHashInputBinds | src/transcriptHash.ts:45-51 | for confirmed hashes of equal length, the bytes digested into the interim hash determine the confirmation tag |
| MessageProtection.Protect | src/messageProtection.ts:156-215 | an InternalError without a secret-tree node for the sender, a ratchet failure passed on; otherwise the message carries the context's group id and epoch, the content ciphertext under the content AAD, and sender data encrypted under the sender-data AAD, and the ratchet's new tree comes back |
| MessageProtection.ProtectSigned | src/messageProtection.ts:51-87 | the member content built from the context, signed as a private message and protected with the configured padding |
| MessageProtection.ProtectApplicationData | src/messageProtection.ts:40-88 | application data from a member is protected as a private message of content type application |
| MessageProtection.ProtectProposal | src/messageProtection.ts:96-149 | a member's proposal is protected as a private message, with the reference of the private-message authenticated content it carries |
| MessageProtection.ValidateSenderData | src/messageProtection.ts:274-276 | a ValidationError exactly when the sender's slot does not hold a leaf node |
| MessageProtection.DecryptContent | src/messageProtection.ts:247-251 | a decryption failure is a CryptoVerificationError and a plaintext that does not decode as content of the message's type a CodecError |
| MessageProtection.SenderSignatureKey | src/messageProtection.ts:255-258 | the override key when one is given, else the sender leaf's signature key |
| MessageProtection.UnprotectWithSenderData | src/messageProtection.ts:238-271 | ratchet to the sender's generation, decrypt and decode, frame the content and check its signature, a CryptoVerificationError when that fails |
| MessageProtection.UnprotectPrivateMessageAsWritten | src/messageProtection.ts:222-272 | as written: undecryptable sender data is a CodecError, and the result of validateSenderData is ignored, so the later steps run whatever the sender's slot holds |
| MessageProtection.UnprotectPrivateMessage | src/messageProtection.ts:222-272 | with the validation acted on: undecryptable sender data is a CodecError, and sender data naming a slot without a leaf a ValidationError before any ratchet is touched |
| MessageProtection.ProtectedSenderDataDecrypts | src/messageProtection.ts:190-202 | the sender data protect encrypts decrypts back to the sender's leaf, generation and reuse guard |
| MessageProtection.ProtectedContentDecrypts | src/messageProtection.ts:183-188 | under the key and nonce protect used, the ciphertext decrypts and decodes back to the content |
| MessageProtection.ProtectThenUnprotect | src/messageProtection.ts:156-272 | a receiver in step with the sender's ratchet, holding a leaf for the sender, whose key accepts the signature, recovers the member content and its auth data |
| MessageProtection.ApplicationDataUnprotects | src/messageProtection.ts:40-88 | application data protected by a member is unprotected by a receiver in step with it as the same data and authenticated data from the member's leaf |
| MessageProtection.ProtectSignedThenUnprotect | src/messageProtection.ts:40-272 | a member's signed and protected application data or proposal comes back out of unprotectPrivateMessage at a receiver that is in step and holds the member's public key |
| MessageProtection.ProposalRefMatchesReceived | src/messageProtection.ts:141-146 | the reference protectProposal returns is that of the authenticated content the receiver unprotects |
| MessageProtection.DiscardedValidationAcceptsBlankSender | src/messageProtection.ts:236 | as written, a message whose sender data names a slot without a leaf is accepted when an override key verifies it, and fails with the key lookup's InternalError otherwise; with the validation acted on it is a ValidationError either way |
| MessageProtectionPublic.ProtectPublicMessage | src/messageProtectionPublic.ts:104-132 | application content is a UsageError; a member's message carries the membership tag over its TBS and auth data; any other sender's carries only its sender type |
| MessageProtectionPublic.PublicSignatureKey | src/messageProtectionPublic.ts:157-160 | the override key when one is given, else the key findSignaturePublicKey resolves for the sender |
| MessageProtectionPublic.UnprotectPublicMessage | src/messageProtectionPublic.ts:138-178 | application content is a UsageError; a member's message must carry a verifying membership tag and every message a verifying signature, a CryptoVerificationError otherwise; success returns the public-message authenticated content |
| MessageProtectionPublic.ProtectProposalPublic | src/messageProtectionPublic.ts:29-66 | a member's proposal framed for the group, signed, and tagged with the membership key |
| MessageProtectionPublic.ProtectExternalProposalPublic | src/messageProtectionPublic.ts:68-102 | a proposal from an external sender or new member, framed for the group and signed, with no membership tag and the sender's type |
| MessageProtectionPublic.PublicProposalUnprotects | src/messageProtectionPublic.ts:29-178 | a member's public proposal passes the membership-tag and signature checks of a receiver who shares the membership key and holds the member's public key |
| MessageProtectionPublic.ExternalProposalUnprotects | src/messageProtectionPublic.ts:68-178 | an external proposal passes the receiver's checks whenever the key its sender resolves to is the signer's public key |
| MessageProtectionPublic.NewMemberAddUnprotects | src/messageProtectionPublic.ts:68-178 | a new member's add proposal resolves to the key of the added key package, so it passes when that package carries the signer's public key |
| UnappliedProposals.Lookup | src/unappliedProposals.ts:8 | a reference looks up nothing exactly when it is not in the table, and otherwise an entry stored under it |
| UnappliedProposals.AddUnappliedProposal | src/unappliedProposals.ts:9-20 | the reference now maps to the proposal and its sender, every other lookup is unchanged, references stay distinct, and a new reference goes last while an existing one keeps its place |
| UnappliedProposals.PutLookup | src/unappliedProposals.ts:16-19 | overwriting keeps every other key's lookup and gives the new value to the key when present |
| UnappliedProposals.LookupAt | src/unappliedProposals.ts:8 | in a table without repeated references each entry is what its reference looks up |
| UnappliedProposals.ReAddOverwrites | src/unappliedProposals.ts:9-20 | adding under the same reference twice keeps the second value and the table's order |
| CreateMessage.CreateProposal | src/createMessage.ts:11-67 | public: protected with the membership key and handed to processProposal, whose result is the new state; private: fails exactly when the ratchet does, and otherwise only the secret tree and the table of unapplied proposals change, the proposal filed under its reference with the member's own leaf index |
| CreateMessage.CreateApplicationMessage | src/createMessage.ts:69-90 | a UsageError while proposals are pending or the group is not active; otherwise a private application message, and only the secret tree changes, to the ratchet's new tree |
| CreateMessage.SentProposalFiledUnderReceivedRef | src/createMessage.ts:39-60 | the sender files a private proposal under the same reference the receiver computes from the message |
| CreateMessage.PublicProposalAccepted | src/createMessage.ts:18-37 | a member's public proposal is accepted by any member sharing the membership key and the leaf's signature key |
| ClientState.CheckCanSendApplicationMessages | src/createMessage.ts:75 | a UsageError, and only that, while proposals of the epoch are uncommitted or the group is not active |
| ClientState.CheckCanSendHandshakeMessages | src/createCommit.ts:87 | a UsageError, and only that, when the group is not active |
| CreateCommit.BundleAllProposals | src/createCommit.ts:228-237 | a reference to every unapplied proposal, in the table's order, then the extra proposals inline, in their order |
| CreateCommit.BundledReferencesResolve | src/createCommit.ts:228-237 | every reference of the bundle resolves in the member's table to the proposal stored under it, and every inline entry is an extra proposal |
| CreateCommit.CommitSecret | src/createCommit.ts:130-135 | zeros of the KDF's size without path secrets, else the last path secret derived with label "path" |
| CreateCommit.UpdatedExtensions | src/createCommit.ts:116-121 | a member commit's group-context-extensions proposal gives the next epoch's extensions, else the current ones stay |
| CreateCommit.NextActiveState | src/createCommit.ts:201-205 | removed if the commit removed the committer, else suspended pending the reinit, else active |
| CreateCommit.PlanCommit | src/createCommit.ts:77-135 | sending needs an active group; the bundle is applied; an external-commit result is a UsageError; an update path is made only when the proposals need one; a committer leaf outside the new tree is an InternalError |
| CreateCommit.CreateGroupInfo | src/createCommit.ts:311-326 | the group info signed by the committer, naming its own leaf as signer |
| CreateCommit.CreatedGroupInfoVerifies | src/createCommit.ts:311-326 | a group info a member signs verifies under the public key of that member's signing key |
| CreateCommit.CreateGroupInfoWithRatchetTree | src/createCommit.ts:328-347 | the extensions followed by a ratchet_tree extension holding the encoded tree |
| CreateCommit.JoinerFindsRatchetTree | src/createCommit.ts:328-347 | a joiner reading such a group info finds the committer's tree, when the other extensions hold no ratchet_tree extension |
| CreateCommit.CreateGroupInfoWithExternalPub | src/createCommit.ts:349-366 | the current epoch's group info with an external_pub extension holding the key derived from the external secret |
| CreateCommit.CreateGroupInfoWithExternalPubAndRatchetTree | src/createCommit.ts:368-391 | as above, followed by the ratchet_tree extension with the encoded current tree |
| CreateCommit.FindPathSecret | src/createCommit.ts:297 | the secret of the first path secret for the node, none when there is none |
| CreateCommit.NewMemberGroupSecrets | src/createCommit.ts:285-305 | a new member receives the joiner secret, the path secret of its first common ancestor with the committer, and the PSK ids |
| CreateCommit.CreateEncryptedGroupSecrets | src/createCommit.ts:285-309 | the group secrets sealed to the key package's init key, addressed by the key package reference |
| CreateCommit.NewMemberEntries | src/createCommit.ts:257-282 | one entry per added member, in order, or the first failure |
| CreateCommit.WelcomeGroupInfo | src/createCommit.ts:251-254 | the group info a Welcome carries, with the encoded tree when asked for |
| CreateCommit.CreateWelcome | src/createCommit.ts:239-283 | the group info encrypted under the welcome secret and one entry per added member; a Welcome exists only for a member commit that adds someone |
| CreateCommit.WelcomedMemberDecrypts | src/createCommit.ts:239-309 | each added member, finding the first entry addressed to its key package, recovers the joiner secret, the PSK ids and the path secret of its common ancestor with the committer |
| CreateCommit.ProtectCommit | src/createCommit.ts:393-432 | a public message with the membership tag, leaving the secret tree as it is, or a private message consuming the committer's handshake ratchet |
| CreateCommit.NextEpochOf | src/createCommit.ts:137-171 | the commit signed in the current context, the context advanced with the new extensions and tree hash, the epoch secrets and the confirmation tag; fails only when the new tree has no hash |
| CreateCommit.NextState | src/createCommit.ts:207-223 | the new context, tree, key schedule and private keys, a fresh secret tree, the confirmation tag, no pending proposals, the planned active state, and the same signing key and padding |
| CreateCommit.CreateCommit | src/createCommit.ts:77-226 | the plan, the next epoch, the protected commit, the Welcome and the next state, each failing exactly as its part does |
| CreateCommit.PublicCommitAccepted | src/createCommit.ts:77-226 | a public commit passes the checks of any member in the current epoch that shares the membership key and holds the committer's public key |
| CreateCommit.SignedPublicCommitUnprotects | src/createCommit.ts:393-432 | the public message protectCommit makes of a member's signed commit passes those checks |
| CreateCommit.FilterNewLeaves | src/createCommit.ts:622-625 | the resolution without the excluded nodes, in its order |
| CreateCommit.FilterNewLeavesAppend | src/createCommit.ts:622-625 | filtering a concatenation concatenates the filtered parts |
| CreateCommit.FilterNewLeavesNothingExcluded | src/createCommit.ts:622-625 | with nothing of the resolution excluded the filter keeps it whole |
| CreateCommit.FilterNewLeavesDrops | src/createCommit.ts:622-625 | the filter drops a node exactly when some node of the resolution is excluded |
| CreateCommit.FirstKeyedPosition | src/createCommit.ts:449-451 | the first position, from a given one on, of a node the member holds a private key for |
| CreateCommit.ApplyUpdatePathSecret | src/createCommit.ts:434-467 | the early-return loop gives the matching ancestor and the decrypted secret at the first keyed position, or the no-overlap InternalError |
| CreateCommit.NoKeyNoSecret | src/createCommit.ts:449-466 | a member keyed for no filtered resolution node gets the no-overlap InternalError |
| CreateCommit.KeyedMemberFindsSecret | src/createCommit.ts:449-466 | a member keyed for some filtered resolution node, at an update node with a ciphertext per filtered node, gets the path secret or a CryptoVerificationError, never an InternalError |
| CreateCommit.AppliedSecretIsCommittersSecret | src/createCommit.ts:434-467 | for a path createUpdatePath made from the member's tree, the member recovers the committer's path secret for their first common ancestor, when no node of that step's resolution up to the member's keyed node is excluded |
| CreateCommit.ExcludedNodeShiftsCiphertext | src/createCommit.ts:449-463 | when an excluded node precedes the member's keyed node in that resolution, the member opens with its key the ciphertext at its filtered position s < k, which createUpdatePath sealed to the s-th node of the resolution |
| CreateCommit.SecretAtKeyedPosition | src/createCommit.ts:449-463 | with nothing excluded up to the member's first keyed node, the secret is that node's ciphertext, decrypted |
| CreateCommit.SecretAtShiftedPosition | src/createCommit.ts:449-463 | the ciphertext opened is the one at the keyed node's position in the filtered resolution, which falls short of its position in the resolution exactly when an earlier node is excluded |
| CreateCommit.FirstMatchIsStep | src/createCommit.ts:443-447 | the match firstMatchAncestor returns is the one at the first step above the member |
| CreateCommit.GetCredentialFromLeafIndex | src/createCommit.ts:508 | the credential of the leaf at the slot; a blank or parent slot is an InternalError |
| CreateCommit.FirstMatchingLeaf | src/createCommit.ts:521-526 | the first slot from a position on holding a leaf the key package matches |
| CreateCommit.ExternalJoinTree | src/createCommit.ts:491-493 | the tree of the ratchet_tree extension, else the one passed in, else a UsageError |
| CreateCommit.FormerLeafIndex | src/createCommit.ts:518-529 | on a resync, the leaf of the first slot the key package matches |
| CreateCommit.ExternalJoinChecks | src/createCommit.ts:479-516 | an external_pub extension and supported extensions are required (UsageErrors), a tree must be found and validate, the signer's credential must validate (a ValidationError), and the group info's signature must verify (a CryptoVerificationError) |
| CreateCommit.ExternalCommitProposals | src/createCommit.ts:555-562 | the removal of the former leaf on a resync, then the external init with the KEM output |
| CreateCommit.JoinerPathOf | src/createCommit.ts:531-541 | the update path from the joiner's new leaf; a new leaf outside the tree is an InternalError |
| CreateCommit.JoinerPathKeepsSignatureKey | src/createCommit.ts:531-541 | when addLeafNode puts the key package's leaf at the slot it reports, the path carries the key package's signature key |
| CreateCommit.CreatedLeafKeepsSignatureKey | src/updatePath.ts:106-117 | the leaf of a path createUpdatePath makes keeps the signature key of the leaf it replaces |
| CreateCommit.ExternalJoinEpoch | src/createCommit.ts:548-620 | the next context, the key schedule from the exported init secret with a zero PSK secret, no pending proposals, an active group, and the commit as a public message with a new_member_commit sender |
| CreateCommit.JoinGroupExternal | src/createCommit.ts:469-621 | the checks' errors first; then the joiner exports the init secret, adds its leaf (replacing its former one on a resync), makes an update path and commits the external init as a new member |
| CreateCommit.ExternalEpochCommitAccepted | src/createCommit.ts:566-620 | a new-member commit signed with its path leaf's key passes the checks of any member, whatever its tree and membership key |
| CreateCommit.ExternalCommitAccepted | src/createCommit.ts:469-621 | an external commit passes every member's checks when the joiner signs with its key package leaf's key and addLeafNode places that leaf where it reports |
| ExternalProposal.ProposeAddExternal | src/externalProposal.ts:12-46 | a UsageError unless the key package's capabilities cover the group's non-default extensions; otherwise an add of that key package, signed by the new member, sent as a new_member_proposal public message in the group's version |
| ExternalProposal.ProposedAddAccepted | src/externalProposal.ts:12-46 | a new member's add proposal is accepted by any member when the key package carries the public key of the signing key used |
| ExternalProposal.FindExternalSenderFrom | src/externalProposal.ts:56-63 | from a position on: the first extension matching the key, none when all are passed over, and a ValidationError when an undecodable external_senders entry comes first |
| ExternalProposal.FindExternalSender | src/externalProposal.ts:56-66 | the whole findIndex scan over the group context's extensions |
| ExternalProposal.ProposeExternalAsWritten | src/externalProposal.ts:48-82 | as written: the sender index is the matching extension's position in the full extension list; no match is a ValidationError |
| ExternalProposal.ProposeExternal | src/externalProposal.ts:48-82 | as intended: the same scan and errors, with the sender index counting only the external_senders extensions before the match |
| ExternalProposal.ProposedExternalResolvesToSigner | src/externalProposal.ts:48-82 | every proposal ProposeExternal sends names a sender the receiver resolves to the signer's public key, so the receiver accepts it |
| ExternalProposal.FullListIndexMisnamesSender | src/externalProposal.ts:56-73 | with one application_id extension ahead of the external sender, the index as written is 1, which resolves to no sender at the receiver, while the corrected index 0 resolves to the signer |
| Resumption.DefaultCommitOptions | src/resumption.ts:43-45 | createCommit's options when only extra proposals are given: a private message, no ratchet-tree extension, no group-info extensions, no authenticated data |
| Resumption.ReinitGroup | src/resumption.ts:19-47 | not active is a UsageError; a commit bundles the pending proposals by reference and then one inline reinit with the given group id, version, cipher suite and extensions, and the new state's activity follows the applied proposals |
| Resumption.MakeResumptionPsk | src/resumption.ts:88-106 | a resumption PSK for the state's group id and epoch with the given usage and a nonce of the KDF's size; its secret is the epoch's resumption PSK |
| Resumption.ResumptionPskIdRoundTrip | src/resumption.ts:88-106 | the PSK id decodes back to the group, epoch and usage it names |
| Resumption.ResumptionPskNamesItsEpoch | src/resumption.ts:97-103 | resumption PSKs of different groups, epochs or usages have different encoded ids, whatever the nonces |
| Resumption.ResumptionProposals | src/resumption.ts:62-83 | an add for each member key package, in order, then the PSK proposal |
| Resumption.ResumptionCommit | src/resumption.ts:60-85 | the first commit of a freshly created group carries the adds and then a resumption PSK of the given usage from the old state |
| Resumption.BundledResumption | src/resumption.ts:76-85 | bundled after the pending references, the adds and the PSK proposal keep their order |
| Resumption.ReinitCreateNewGroup | src/resumption.ts:49-86 | a new group with the given id, extensions and the named cipher suite, whose first commit adds the members in order and then a reinit-usage resumption PSK of the old group's epoch |
| Resumption.BranchGroup | src/resumption.ts:108-146 | a new group with the new id and the old group's extensions, whose first commit adds the members in order and then a branch-usage resumption PSK of the old group's epoch |
| Resumption.JoinGroupFromBranch | src/resumption.ts:148-159 | the join receives the old state as the state resumed from, whatever its activity |
| Resumption.JoinGroupFromReinit | src/resumption.ts:161-178 | a UsageError unless the state is suspended pending a reinit; otherwise the join uses the cipher suite the reinit names and the suspended state |
| Resumption.ReinitCommitAllowsReinitJoin | src/resumption.ts:19-178 | after a reinit commit that applies as that reinit without removing the committer, the new state allows joining the reinitialised group, with the reinit's cipher suite |

## Left out

- src/clientState.ts is not part of this model. The member state is the datatype `ClientState.ClientState`. The following are parameters of the operations that call them: applyProposals, nextEpochContext, processProposal, joinGroup, createGroup and makePskIndex. The state checks checkCanSendApplicationMessages and checkCanSendHandshakeMessages are modelled from their call sites.
- src/keySchedule.ts is not part of this model. Epoch secrets are fields of the key-schedule record, whose derivation is passed in where an operation derives them.
- The ratchet-tree operations of src/ratchetTree.ts are not part of this model: adding and removing leaves, resolution, and the filtered direct path. They are defined from sections 4.1, 7.5 and 7.9.2 of RFC 9420. The array-index arithmetic of src/treemath.ts is defined from Appendix C of RFC 9420.
- src/privateKeyPath.ts, src/secretTree.ts and src/privateMessage.ts are not part of this model. The secret tree's ratchets (consume, ratchet to generation) are function values passed in. The private-message wire form is defined from section 6.3 of RFC 9420.
- src/codec/number.ts, src/codec/variableLength.ts and src/codec/tlsEncoder.ts are not part of this model.
  - Fixed-width integers are written big-endian.
  - The variable-length header is modelled as a prefix-free length header of unbounded range. The exact byte layout and the 2^30 limit of section 2.1.2 of RFC 9420 are not modelled.
- src/sender.ts and src/util/enumHelpers.ts are not part of this model. Sender is the wire form of section 6 of RFC 9420, and the enum codecs are written from the enum tables. A sender index beyond 32 bits is not modelled.
- The crypto providers and getCiphersuiteImpl are not modelled. Hashing, MAC, KDF, HPKE, signatures and AEAD are function values. Every property that needs them to behave states that as a requirement.
- Randomness is a parameter: the fresh path secret of a commit, and the PSK nonce of a resumption PSK, of the KDF's output length. HPKE's encapsulation randomness is folded into `seal`, a deterministic function value, so two seals of the same plaintext are not told apart.
- Async and Promise plumbing is not modelled; every operation is a function or method on values.
- constantTimeEqual is plain equality, without its timing behaviour.
- The decoding of a custom credential calls an undefined decoder in the source (src/credential.ts:61-71). The TypeError this throws is not caught by the proposal decoder's fallback to a custom proposal, so it aborts the whole decode. The model cannot throw through a decoder and reads it as a decoding failure instead. That failure is absorbed by the fallback: an add or update whose leaf has such a credential reads as a custom proposal of number 1 or 2. LeafNode.CustomCredentialLeafRejected, Proposal.CustomCredentialUpdateReadsAsCustom and Proposal.CustomCredentialAddReadsAsCustom state this behaviour.
- Outside the decoders, a thrown TypeError or a failed non-null assertion in the source is an InternalError in the model.
- On an external resync where no leaf matches the key package, the source goes on with the index −1. The model stops with an InternalError.
- The ValidationError raised when a reinit's parameters mismatch on join lives inside joinGroup, which is not part of this model.
- The historical receiver data that a member keeps for past epochs is not modelled.
- Key-retention configuration is not modelled: which generations the secret tree keeps is up to the ratchet functions passed in.
- PreSharedKey.ComputePskSecret: requires fewer than 65536 PSKs, because the index and the count are written as 16-bit fields of the PSK label.
- PskIndex.AccumulatePskSecret: requires fewer than 65536 PSKs, for the same 16-bit index and count.
- CreateCommit.AppliedSecretIsCommittersSecret: proved only when no node of the step's copath resolution up to the member's keyed node is excluded. createUpdatePath encrypts to the whole resolution of the tree it is given (src/updatePath.ts:220), while applyUpdatePathSecret indexes the resolution with the excluded nodes taken out (src/createCommit.ts:449-452). When an excluded node, such as a leaf added by the same commit, comes first, the two positions differ. The member then opens a ciphertext sealed to another node, as CreateCommit.ExcludedNodeShiftsCiphertext states. Section 12.4.1 of RFC 9420, on creating a commit, has the committer leave the new members out of the resolution. The caller that chooses the excluded nodes is not part of this model, so whether it passes exactly the added leaves is left open.
- UpdatePath.ApplyUpdatePath: for an external commit the sender index must lie inside the tree. There the source writes the new leaf past the end of the array, and the model does not follow that.
- CreateCommit.ApplyUpdatePathSecret: requires the sender's leaf index to lie inside the tree. The source receives it from a commit whose sender has already been checked against the tree.

## Findings

| source | as written | input that shows it | evidently intended | confidence | as-written member | corrected member |
|---|---|---|---|---|---|---|
| src/codec/optional.ts:7 | a value is written as present only when it is truthy | `encodeOptional(encodeUint32)` on the present number 0 gives the single octet 0, which decodes as absent | absence, and only absence, is written as the octet 0 | not executed; every in-library caller passes an object or a byte array, so the defect is latent there | Optional.EncodeOptionalAsWritten, shown by Optional.EncodeOptionalDropsZero | Optional.EncodeOptional, with Optional.OptionalRoundTrip |
| src/codec/optional.ts:12-17 | a missing presence octet reads as an absent value of length 1 | an empty buffer at offset 0 decodes to absent, consuming one byte that is not there | a decoding failure when no octet is left | not executed | Optional.DecodeOptionalAsWritten, shown by Optional.DecodeOptionalAsWrittenPastEnd | Optional.DecodeOptional, with Optional.DecodeOptionalStaysInBuffer; the decoders of commits, group secrets and tree-hash inputs keep the reading as written, as the source does, and Commit.CommitTruncatedAfterProposals shows its effect there |
| src/messageProtection.ts:236 | the result of validateSenderData is discarded | sender data naming a slot with no leaf, with an override signature key that verifies, is accepted | such a message is refused with a ValidationError | not executed | MessageProtection.UnprotectPrivateMessageAsWritten, shown by MessageProtection.DiscardedValidationAcceptsBlankSender | MessageProtection.UnprotectPrivateMessage |
| src/externalProposal.ts:56-73 | the sender index is the position of the matching extension in the whole extension list | one application_id extension ahead of the single external_senders extension gives index 1, while receivers look up external sender 0 | the position of the matching sender within the external_senders list | not executed | ExternalProposal.ProposeExternalAsWritten, shown by ExternalProposal.FullListIndexMisnamesSender | ExternalProposal.ProposeExternal, with ExternalProposal.ProposedExternalResolvesToSigner |
