# DER writer and PKCS #15 token codec — a Dafny model

This project models two layers of a DER (ITU-T X.690) codec.

- **The TLV writer and primitive encoders** of `source/asn_processor/ak_asn_write_new.c`:
  - the length-octet count and the length and tag writers (X.690 8.1.3.4, 8.1.3.5 and 10.1);
  - the INTEGER, BOOLEAN, BIT STRING, OBJECT IDENTIFIER and GeneralizedTime writers (X.690 8.3, 11.1, 8.6.2, 8.19, 11.7);
  - the UTF8String, VisibleString and OCTET STRING copies;
  - the byte counts of identifiers and times;
  - the recursive tree encoder `ak_asn_encode_tlv` with its driver `ak_asn_encode`, and `ak_asn_add`.
- **The PKCS #15 token encoder and decoder** of `source/pkcs_15_cryptographic_token/ak_pkcs_15_token.c`:
  - `pkcs_15_generate_token` and its `pkcs_15_put_*` helpers, which build the token backwards inside one 2000-octet buffer;
  - `pkcs_15_parse_token` and its `pkcs_15_get_*` helpers, which read it forwards through nested read windows.

## Modules

| module | file | what it holds |
|---|---|---|
| `Common` | `common.dfy` | Octets, C strings (text up to the first NUL), status and error codes, `Result`/`Option`. |
| `AsnLength` | `asn_length.dfy` | Length-octet count, length field, its reader, and the tag and length writers over an `array`. |
| `AsnPrimitives` | `asn_primitives.dfy` | The INTEGER, BOOLEAN, string and BIT STRING writers, with the readers that invert them. |
| `AsnOid` | `asn_oid.dfy` | The identifier writer and its byte count as written, plus a reference X.690 encoder and decoder. |
| `AsnTime` | `asn_time.dfy` | The GeneralizedTime writer, its byte count, and a DER time reader. |
| `AsnTree` | `asn_tree.dfy` | The TLV tree, the size invariant, the DER of a tree, the tree encoder over an `array`, and `ak_asn_add`. |
| `TokenModel` | `token_model.dfy` | The token structures, the tags, the two fixed identifiers, and the TLV of a value. |
| `TokenEncoder` | `token_encoder.dfy` | Specification functions of every `pkcs_15_put_*`, and the class `DerBuffer`. `DerBuffer` is an `array` written from its end towards its start; the methods that mirror the C functions run over it. |
| `TokenLayout` | `token_layout.dfy` | The shapes of well-formed token octets, and what a reader fills in from each. |
| `TokenDecoder` | `token_decoder.dfy` | Read windows; the `pkcs_15_get_*` readers as functions, with methods for the loops; proofs that every layout reads back. |
| `TokenRoundTrip` | `token_roundtrip.dfy` | What the generator writes, as a layout, and the round trip through the parser. |

Modelling conventions:

- **C pointers.** A pointer the writer leaves past its output is reported as the offset it is left at (`cursor` of `PutResult`).
- **Heap blocks.** A heap block is `Allocated(capacity, stored)`; `stored` longer than `capacity` is a write past the block. A pointer array the decoder fills is a sequence of cells; a store past its end makes the sequence longer, so the cells from the block's length on are memory past the block.
- **Fixed-width counters.** `uint8`/`int8` counters are reduced explicitly (`% 256`, `Int8`).
- **The token buffer.** Its writing functions take the room left in front of the cursor, so running out of the 2000 octets is an exact error path.
- **The reader helpers.** The reader functions see the whole input. A window may claim more than the input holds, because the C helpers read through the cursor without looking at the window's end.

## Model

| member | source | states |
|---|---|---|
| `AsnLength.LenByteCnt` | source/asn_processor/ak_asn_write_new.c:768-782 | The count is 1 exactly for lengths below 128, 0 exactly for lengths above 0xFFFFFFFF, and never more than 5. |
| `AsnLength.LenByteCntMinimal` | source/asn_processor/ak_asn_write_new.c:768-782 | In the long form the count is one more than the minimal number of big-endian octets of the length, as X.690 10.1 requires. |
| `AsnLength.PutTag` | source/asn_processor/ak_asn_write_new.c:155-164 | One octet, the tag, is stored at the position; the position advances by one and nothing else changes. |
| `AsnLength.PutLen` | source/asn_processor/ak_asn_write_new.c:172-198 | Exactly `cnt` octets are written: the length itself for a count of 1, otherwise 0x80 + (cnt - 1) and the big-endian octets. The position advances by `cnt` and the rest of the buffer is unchanged. |
| `AsnLength.LenFieldRoundTrip` | source/asn_processor/ak_asn_write_new.c:172-198 | The length field read back gives the length and its octet count, whatever follows it. |
| `AsnLength.LenFieldExamples` | tests/test-internal-asn-handler.c:10 | 0, 127, 128, 0x86, 255, 256 and 825 give 00, 7F, 81 80, 81 86, 81 FF, 82 01 00 and 82 03 39. |
| `AsnPrimitives.IntOctetCount` | source/asn_processor/ak_asn_write_new.c:213-226 | The magnitude octet count is the minimal big-endian octet count of the value, 1 to 4 (0 takes one octet). |
| `AsnPrimitives.IntContentRoundTrip` | source/asn_processor/ak_asn_write_new.c:206-257 | The INTEGER content reads back as the value. Its length is the minimal octet count plus one exactly when the top bit of the top octet is set. |
| `AsnPrimitives.PutInt` | source/asn_processor/ak_asn_write_new.c:206-257 | Above 0xFFFFFFFF: `ak_error_invalid_value`, NULL buffer, size 0. Otherwise the block holds the INTEGER content, the size is its length, and the pointer is left on the last octet. |
| `AsnPrimitives.IntContentExamples` | tests/test-internal-asn-handler.c:10 | 2000, 128, 0 and 0xFFFFFFFF give 07 D0, 00 80, 00 and 00 FF FF FF FF. |
| `AsnPrimitives.PutBool` | source/asn_processor/ak_asn_write_new.c:445-464 | One octet that reads back as the value (FF for true, 00 for false); size 1. |
| `AsnPrimitives.PutUtf8String` | source/asn_processor/ak_asn_write_new.c:289-306 | `strlen` octets, each the code of the corresponding character. |
| `AsnPrimitives.PutVisibleString` | source/asn_processor/ak_asn_write_new.c:334-350 | The same block and size as the UTF8String writer. |
| `AsnPrimitives.PutOctetString` | source/asn_processor/ak_asn_write_new.c:314-326 | NULL content gives `ak_error_null_pointer`; otherwise the block is a copy of the content. `*p_size` is never changed. |
| `AsnPrimitives.PutBitString` | source/asn_processor/ak_asn_write_new.c:415-437 | Succeeds exactly for present, non-empty bits with at most 7 unused bits. Then the size is 1 + length and the block reads back as the unused count and the bits. The other cases give the null-pointer or invalid-value error. |
| `AsnPrimitives.BitStringExample` | source/asn_processor/ak_asn_write_new.c:415-437 | Bits FF F0 with 4 unused give the block 04 FF F0. |
| `AsnOid.PutObjId` | source/asn_processor/ak_asn_write_new.c:361-407 | NULL gives `ak_error_null_pointer`. Otherwise the block has the capacity `new_asn_get_oid_byte_cnt` reports, holds the octets as written (first octet 40·X+Y, then each later component), and the pointer is left past them. |
| `AsnOid.PutArc` | source/asn_processor/ak_asn_write_new.c:389-403 | The octets of one later component, as the group loop writes them. |
| `AsnOid.OidByteCount` | source/asn_processor/ak_asn_write_new.c:788-819 | The counting loop computes the 8-bit byte count of the identifier text. |
| `AsnOid.OidCountMatchesWritten` | source/asn_processor/ak_asn_write_new.c:788-819 | When every later component is below 0x4000, the byte count equals the number of octets the writer stores (mod 256). |
| `AsnOid.CountZeroForLargeArc` | source/asn_processor/ak_asn_write_new.c:803-816 | A component above 0x0FFFFFFF makes the byte count 0. |
| `AsnOid.ArcAsWrittenIsBase128` | source/asn_processor/ak_asn_write_new.c:384-404 | Below 0x4000 a component is written as its X.690 base-128 encoding, and its octet count is what the counter adds. |
| `AsnOid.ArcOfThreeGroups` | source/asn_processor/ak_asn_write_new.c:389-403 | From 0x4000 on, the middle 7-bit group is written only when it is non-zero. |
| `AsnOid.FirstOctetIsBase128` | source/asn_processor/ak_asn_write_new.c:379-382 | The first octet 40·X+Y is the X.690 first subidentifier whenever that is below 128. |
| `AsnOid.OidRoundTrip` | source/asn_processor/ak_asn_write_new.c:361-407 | The reference X.690 encoding of an identifier decodes back to its components. |
| `AsnOid.HmacOid` | tests/test-internal-asn-handler.c:10 | "1.2.643.7.1.1.4.2" is written as 2A 85 03 07 01 01 04 02, the X.690 encoding. |
| `AsnOid.Pbkdf2Oid` | tests/test-internal-asn-handler.c:10 | "1.2.840.113549.1.5.12" is written as 2A 86 48 86 F7 0D 01 05 0C, the X.690 encoding. |
| `AsnOid.Arc16384` | source/asn_processor/ak_asn_write_new.c:389-403 | The component 16384 is written 81 00, where X.690 gives 81 80 00. |
| `AsnOid.ZeroGroupWritten` | source/asn_processor/ak_asn_write_new.c:396-398 | "1.2.16384" is written as 2A 81 00. |
| `AsnOid.ZeroGroupEncoded` | source/asn_processor/ak_asn_write_new.c:361-407 | X.690 encodes 1.2.16384 as 2A 81 80 00. |
| `AsnOid.ZeroGroupMisread` | source/asn_processor/ak_asn_write_new.c:396-398 | The octets written for 1.2.16384 decode as 1.2.128. |
| `AsnTime.GenTimeByteCnt` | source/asn_processor/ak_asn_write_new.c:825-835 | `strlen - 8` taken as an 8-bit value; 0 for NULL. |
| `AsnTime.PutGeneralizedTime` | source/asn_processor/ak_asn_write_new.c:473-566 | The writer's status, block, pointer offset and size, for every input, as `GenTimeAsWritten` gives them. |
| `AsnTime.PutDate` | source/asn_processor/ak_asn_write_new.c:489-540 | The date loops store the run of date digits, stopping at the first non-digit field position. |
| `AsnTime.PutFraction` | source/asn_processor/ak_asn_write_new.c:542-561 | The fraction part, checks included, as `FractionRun` gives it. |
| `AsnTime.GenTimeReadBack` | source/asn_processor/ak_asn_write_new.c:473-566 | On success the stored octets read back, as DER GeneralizedTime, as the input's date digits and fraction. They number 15, or 16 plus the fraction length, and the pointer is left on the final 'Z'. |
| `AsnTime.GenTimeBlock` | source/asn_processor/ak_asn_write_new.c:478-482 | On success the block and the reported size are the byte count of the text. |
| `AsnTime.GenTimeFits` | source/asn_processor/ak_asn_write_new.c:473-566 | For text that ends in a four-character zone (" UTC"), the stored octets fill the block exactly. |
| `AsnTime.GenTimeFieldError` | source/asn_processor/ak_asn_write_new.c:489-540 | The first non-digit date position fails with `ak_error_wrong_asn1_encode`, naming its field, after the digits before it were stored. |
| `AsnTime.GenTimeShortRefused` | source/asn_processor/ak_asn_write_new.c:478-480 | A text of 8 to 22 characters gives `ak_error_invalid_value` before anything is allocated. |
| `AsnTime.GenTimeVeryShort` | source/asn_processor/ak_asn_write_new.c:825-835 | Below 8 characters the count wraps to at least 248 and the model refuses the text in the digit checks. For 4 or 7 characters that refusal rests on reading NUL past the terminator (`GenTimeShortReads`). |
| `AsnTime.GenTimeShortReads` | source/asn_processor/ak_asn_write_new.c:489-540 | A text of 0-3, 5 or 6 characters is read no further than its terminator. A text of 4 or 7 characters whose read positions hold digits is read one position past it. |
| `AsnTime.GenTimeFractionChecks` | source/asn_processor/ak_asn_write_new.c:542-561 | After a '.', an empty fraction, a last digit '0' and a non-digit each fail with their own field error. Success holds exactly when every fraction position is a digit. |
| `AsnTime.FractionDigitsChecked` | source/asn_processor/ak_asn_write_new.c:545-560 | The fraction loop succeeds exactly when every fraction character is a digit, and otherwise fails with the fraction-digit error. |
| `AsnTime.SeparatorsIgnored` | source/asn_processor/ak_asn_write_new.c:489-540 | Texts differing only at the separator positions give the same result. |
| `AsnTime.AsWrittenFraction` | source/asn_processor/ak_asn_write_new.c:542-561 | With a fraction, the writer runs with the fraction length taken as an `int8_t`. |
| `AsnTime.FractionWrapNotDer` | source/asn_processor/ak_asn_write_new.c:542-561 | A fraction length of 128..255 modulo 256 is cast to a negative count. When the character at 19 plus that count is not '0', the write succeeds with 16 octets, no fraction digit among them, and these are not DER GeneralizedTime. |
| `AsnTime.FractionTruncated` | source/asn_processor/ak_asn_write_new.c:542-561 | A fraction length L of 1..127 modulo 256, with the first L % 256 characters digits and the last of them not '0', succeeds with 16 + L % 256 octets. These read back as the date and only the first L % 256 fraction digits, which for L of 256 or more is not the value the text spells. |
| `AsnTime.FractionCountZero` | source/asn_processor/ak_asn_write_new.c:544-546 | A fraction length that is a multiple of 256 is cast to 0 and refused as an absent fraction, with the date octets stored. |
| `AsnTime.GenTimeOverrun` | source/asn_processor/ak_asn_write_new.c:825-835 | A text with a fraction and one trailing character stores three octets more than the block holds. |
| `AsnTime.GenTimeOverrunExample` | source/asn_processor/ak_asn_write_new.c:825-835 | "2023-01-01 00:00:00.55 " gets a 15-octet block and 18 stored octets. |
| `AsnTime.GenTimeIntendedByteCnt` | source/asn_processor/ak_asn_write_new.c:825-835 | The corrected count is at least 15: the octets the writer stores. |
| `AsnTime.GenTimeIntendedFits` | source/asn_processor/ak_asn_write_new.c:473-566 | With the corrected count, success stores exactly a block-full, which reads back as the input time. |
| `AsnTime.GenTimeIntendedAgrees` | source/asn_processor/ak_asn_write_new.c:473-566 | For text ending in a four-character zone and a fraction below 128 digits, the corrected writer and the writer as written give the same result. |
| `AsnTree.Emit` | source/asn_processor/ak_asn_write_new.c:24-63 | What the encoder writes never passes the end; nothing is written when the node does not fit. A success writes at least a tag and a length octet. The only codes are ok, `ak_error_null_pointer` and `ak_error_out_of_memory`. The child walk uses the 8-bit `index` of line 40, wrapping after 255. |
| `AsnTree.EmitWellSized` | source/asn_processor/ak_asn_write_new.c:24-63 | Under the size invariant, encoding succeeds exactly when no in-use slot is NULL and no node has 256 or more in-use children. It then writes the node's DER, exactly `size` octets. Without such a wide node, a NULL slot gives `ak_error_null_pointer`. |
| `AsnTree.EmitNotNarrow` | source/asn_processor/ak_asn_write_new.c:40-52 | A node with 256 or more in-use children, at any depth, is never encoded successfully: the 8-bit index wraps to 0 before it reaches the count. |
| `AsnTree.EmitWraps` | source/asn_processor/ak_asn_write_new.c:40-52 | A node with 256 or more in-use children whose first 256 are encodable is walked from its first child again and again until the buffer is exhausted. It fails with `ak_error_out_of_memory` whatever the room. |
| `AsnTree.DerSize` | source/asn_processor/ak_asn_write_new.c:24-63 | Under the size invariant, a node's DER occupies exactly the size it caches. |
| `AsnTree.EncodeTlv` | source/asn_processor/ak_asn_write_new.c:24-63 | The encoder over the buffer writes exactly `Emit`'s octets, from the position on, with `Emit`'s code; the 8-bit child index and its wrap are included. Nothing else in the buffer changes. A node too big leaves buffer and position unchanged. |
| `AsnTree.EncodeChildren` | source/asn_processor/ak_asn_write_new.c:40-52 | The child loop, with its `ak_uint8` index that wraps after 255, writes the in-use children in array order and stops at the first failure. It terminates because each pass writes at least two octets. |
| `AsnTree.PutHeader` | source/asn_processor/ak_asn_write_new.c:42-46 | The tag and the cached length field are stored in front of the content. |
| `AsnTree.CopyBytes` | source/asn_processor/ak_asn_write_new.c:58-59 | The primitive payload is copied and the position advanced past it. |
| `AsnTree.UpdateSizeWellSized` | source/asn_processor/ak_asn_write_new.c:74-76 | Recomputing the lengths establishes the size invariant and keeps completeness. |
| `AsnTree.UpdateSizeFixes` | source/asn_processor/ak_asn_write_new.c:74-76 | Recomputing is the identity on a tree already sized. |
| `AsnTree.Encode` | source/asn_processor/ak_asn_write_new.c:65-98 | NULL gives `ak_error_null_pointer`. Otherwise `*p_size` is the recomputed size. Success comes exactly for a complete tree with no node of 256 or more in-use children, and gives the tree's DER with the pointer rewound to its start. Without a wide node, failure is `ak_error_null_pointer`. A root with 256 or more encodable children fails with `ak_error_out_of_memory`. After a failure the pointer stays past the octets written. |
| `AsnTree.AddOutcomes` | source/asn_processor/ak_asn_write_new.c:116-143 | A primitive tag is a no-op returning ok; a full array gives -1. Otherwise a new constructed node is stored at `m_curr_size`; the count and every other slot stay as they were. |
| `AsnTree.AddNotEncoded` | source/asn_processor/ak_asn_write_new.c:137-139 | After a successful add, the encoded tree is the same as before: the new child is never encoded. |
| `AsnTree.AddBreaksSize` | source/asn_processor/ak_asn_write_new.c:137-139 | After a successful add, the cached length breaks the size invariant. |
| `AsnTree.AddIntendedEncoded` | source/asn_processor/ak_asn_write_new.c:116-143 | The corrected add keeps the size invariant and completeness. It appends the new empty child's two octets to the encoded children. |
| `AsnTree.DerHeaderReadBack` | source/asn_processor/ak_asn_write_new.c:24-63 | A complete, sized node's DER starts with its tag, and its length field reads back as the cached length and count. |
| `AsnTree.EncodeExample` | source/asn_processor/ak_asn_write_new.c:65-98 | SEQUENCE { INTEGER 2000 } encodes as 30 04 02 02 07 D0. |
| `TokenModel.HintRoundTrip` | source/pkcs_15_cryptographic_token/ak_pkcs_15_token.c:322-327 | The hint's UTF8String octets read back as the hint's text. |
| `TokenModel.PrfOidText` | source/pkcs_15_cryptographic_token/ak_pkcs_15_token.c:774-776 | The PRF identifier's octets read back as its dotted text. |
| `TokenModel.Pbkdf2OidText` | source/pkcs_15_cryptographic_token/ak_pkcs_15_token.c:713-715 | The PBKDF2 identifier's octets read back as its dotted text. |
| `TokenEncoder.DerBuffer.constructor` | source/pkcs_15_cryptographic_token/ak_pkcs_15_token.c:38 | A fresh 2000-octet buffer with nothing written. |
| `TokenEncoder.DerBuffer.Wrap` | source/pkcs_15_cryptographic_token/ak_pkcs_15_token.c:92-98 | A tag and length are written in front of the last `len` octets. Running out of room is an error that changes nothing. |
| `TokenEncoder.DerBuffer.Prim` | source/pkcs_15_cryptographic_token/ak_pkcs_15_token.c:89-90 | A whole primitive TLV is written in front of what is there. |
| `TokenEncoder.PutParamsPbkdf2` | source/pkcs_15_cryptographic_token/ak_pkcs_15_token.c:400-474 | Null and wrong-PRF errors come in the source's order. Otherwise prf, keyLength, iterationCount and salt are written back to front inside a SEQUENCE, as `PutParamsSpec` says. |
| `TokenEncoder.PutPrf` | source/pkcs_15_cryptographic_token/ak_pkcs_15_token.c:436-446 | The PRF identifier is written inside its own SEQUENCE. |
| `TokenEncoder.PutAlgId` | source/pkcs_15_cryptographic_token/ak_pkcs_15_token.c:354-390 | A missing or non-PBKDF2 algorithm is refused. The parameters are written only when a salt is present, and are followed by the identifier, inside a SEQUENCE. |
| `TokenEncoder.PutPasswordInfo` | source/pkcs_15_cryptographic_token/ak_pkcs_15_token.c:306-345 | NULL is refused. The algorithm identifier, then the hint when present, go inside [0]. |
| `TokenEncoder.PutKeyManagementInfo` | source/pkcs_15_cryptographic_token/ak_pkcs_15_token.c:255-297 | A key id over 255 octets gives `ak_error_wrong_length`. Otherwise the type's information, then the key id, go inside a SEQUENCE. |
| `TokenEncoder.PutKmiInfo` | source/pkcs_15_cryptographic_token/ak_pkcs_15_token.c:273-284 | Password information is written; KEKRI and PWRI give `ak_error_invalid_value`; other types write nothing. |
| `TokenEncoder.PutObjDirect` | source/pkcs_15_cryptographic_token/ak_pkcs_15_token.c:205-246 | Anything but a secret key gives `ak_error_invalid_value`; the key goes inside [0]. |
| `TokenEncoder.PutObj` | source/pkcs_15_cryptographic_token/ak_pkcs_15_token.c:157-196 | The direct element goes inside [3]. |
| `TokenEncoder.PutPkcsObjects` | source/pkcs_15_cryptographic_token/ak_pkcs_15_token.c:119-147 | A count of 0 gives `ak_error_null_pointer`. Otherwise the loop runs for the `int8_t` count, writes each object in front of the previous one, stops at the first NULL or refused object, and wraps the result in a SEQUENCE. |
| `TokenEncoder.PutKeyInfos` | source/pkcs_15_cryptographic_token/ak_pkcs_15_token.c:51-86 | A count of 0 writes nothing; a NULL array or entry gives `ak_error_null_pointer`. Otherwise the entries are written last-first inside [0], which is omitted when they are empty. |
| `TokenEncoder.PutKmiAndVersion` | source/pkcs_15_cryptographic_token/ak_pkcs_15_token.c:51-90 | The version INTEGER is written in front of the key management part. |
| `TokenEncoder.PutTokenFields` | source/pkcs_15_cryptographic_token/ak_pkcs_15_token.c:41-90 | Objects, key management information and version are written in that order, back to front. |
| `TokenEncoder.GenerateToken` | source/pkcs_15_cryptographic_token/ak_pkcs_15_token.c:21-109 | NULL gives `ak_error_null_pointer`; missing objects give `ak_error_invalid_value`. Otherwise the output is exactly `Generate`'s octets, or empty with its error. |
| `TokenDecoder.GetKeyManagementInfo` | source/pkcs_15_cryptographic_token/ak_pkcs_15_token.c:540-576 | The loop gives the outcome of `KeyInfos`, including the stores past the block that `KeyInfosOverrun` exhibits. |
| `TokenDecoder.GetPkcsObjects` | source/pkcs_15_cryptographic_token/ak_pkcs_15_token.c:795-834 | The loop gives the outcome of `Objects`. |
| `TokenDecoder.ReadTokenFields` | source/pkcs_15_cryptographic_token/ak_pkcs_15_token.c:511-531 | The version, the key management information when [0] comes next, and the objects, with the leftover check. |
| `TokenDecoder.GetTokenWindow` | source/pkcs_15_cryptographic_token/ak_pkcs_15_token.c:497-509 | The outer SEQUENCE's window, as its own length field gives it. |
| `TokenDecoder.ParseToken` | source/pkcs_15_cryptographic_token/ak_pkcs_15_token.c:485-532 | The parser gives the outcome of `Parse`. |
| `TokenDecoder.ParamsDecodes` | source/pkcs_15_cryptographic_token/ak_pkcs_15_token.c:737-787 | Well-formed PBKDF2 parameters read back: salt, iteration count, keyLength when an INTEGER comes next, and the PRF text. Leftover octets give `ak_error_invalid_token`. |
| `TokenDecoder.AlgIdDecodes` | source/pkcs_15_cryptographic_token/ak_pkcs_15_token.c:700-729 | An algorithm identifier reads back its identifier text, with parameters exactly when any follow. |
| `TokenDecoder.PwdInfoDecodes` | source/pkcs_15_cryptographic_token/ak_pkcs_15_token.c:661-692 | Password information reads back, with its hint exactly when a UTF8String comes first. |
| `TokenDecoder.KmiDecodes` | source/pkcs_15_cryptographic_token/ak_pkcs_15_token.c:584-653 | A key management entry reads back as its key id and password information. |
| `TokenDecoder.KmisDecodes` | source/pkcs_15_cryptographic_token/ak_pkcs_15_token.c:564-569 | The entries of a list fill the array in order and advance `m_info_size` by one each. |
| `TokenDecoder.KmisCount` | source/pkcs_15_cryptographic_token/ak_pkcs_15_token.c:555-556 | The element count of a list of entries is its length. |
| `TokenDecoder.KeyInfosDecodes` | source/pkcs_15_cryptographic_token/ak_pkcs_15_token.c:540-576 | The [0] element reads back into an array as long as the list, with `m_info_size` the number of entries. |
| `TokenDecoder.PutAt` | source/pkcs_15_cryptographic_token/ak_pkcs_15_token.c:649 | A store inside the array replaces one cell. A store past its end lands past the block and keeps the block's cells. |
| `TokenDecoder.StoreKmi` | source/pkcs_15_cryptographic_token/ak_pkcs_15_token.c:649-650 | The entry is at index `m_info_size`, and the array reaches past it. |
| `TokenDecoder.KmisPastBlock` | source/pkcs_15_cryptographic_token/ak_pkcs_15_token.c:565-569 | Entries stored from the end of the array on are appended past the block, and the 8-bit `m_info_size` counts them modulo 256. |
| `TokenDecoder.KeyInfosOverrun` | source/pkcs_15_cryptographic_token/ak_pkcs_15_token.c:555-569 | A [0] element of 256 entries counts 256, gets a block of 256 % 256 = 0 cells, and reads with success: 256 entries, all past the block, and `m_info_size` 0. |
| `TokenDecoder.StoreKmiChecked` | source/pkcs_15_cryptographic_token/ak_pkcs_15_token.c:649-650 | The corrected store succeeds exactly when `m_info_size` is inside the block, and keeps the array's length. Otherwise it gives `ak_error_invalid_token`. |
| `TokenDecoder.ReadKmisChecked` | source/pkcs_15_cryptographic_token/ak_pkcs_15_token.c:565-569 | The corrected loop never changes the number of cells, whatever the input. |
| `TokenDecoder.KeyInfosChecked` | source/pkcs_15_cryptographic_token/ak_pkcs_15_token.c:540-576 | On success the array has exactly the element count modulo 256 cells, the block `calloc` handed out. |
| `TokenDecoder.ReadKmisCheckedAgrees` | source/pkcs_15_cryptographic_token/ak_pkcs_15_token.c:565-569 | Wherever the corrected loop succeeds, the loop as written gives the same. Wherever the loop as written succeeds without writing past the block, the corrected one gives the same. |
| `TokenDecoder.KeyInfosCheckedDecodes` | source/pkcs_15_cryptographic_token/ak_pkcs_15_token.c:540-576 | The corrected reader reads every well-formed [0] element of at most 255 entries as `KeyInfosDecodes` states, padded entries refused included. |
| `TokenDecoder.KeyInfosCheckedRefuses` | source/pkcs_15_cryptographic_token/ak_pkcs_15_token.c:555-569 | The corrected reader refuses a [0] element of 256 entries with `ak_error_invalid_token`. |
| `TokenDecoder.DirectDecodes` | source/pkcs_15_cryptographic_token/ak_pkcs_15_token.c:919-954 | The [0] direct element reads back its key. |
| `TokenDecoder.ObjDecodes` | source/pkcs_15_cryptographic_token/ak_pkcs_15_token.c:842-911 | A [3] object reads back as a secret key holding its key. |
| `TokenDecoder.ObjsDecodes` | source/pkcs_15_cryptographic_token/ak_pkcs_15_token.c:815-827 | The objects of a list fill the array slots in order. |
| `TokenDecoder.ObjsCount` | source/pkcs_15_cryptographic_token/ak_pkcs_15_token.c:811-812 | The element count of a list of objects is its length. |
| `TokenDecoder.ObjectsDecodes` | source/pkcs_15_cryptographic_token/ak_pkcs_15_token.c:795-834 | The SEQUENCE of objects reads back into an array, with `m_obj_size` the number of objects. |
| `TokenDecoder.TokenFieldsDecodes` | source/pkcs_15_cryptographic_token/ak_pkcs_15_token.c:511-531 | The token's fields read back, the key management part exactly when it is present. |
| `TokenDecoder.TokenDecodes` | source/pkcs_15_cryptographic_token/ak_pkcs_15_token.c:485-532 | Every token layout reads back, whatever follows it. |
| `TokenDecoder.ParseRejectsStart` | source/pkcs_15_cryptographic_token/ak_pkcs_15_token.c:497-502 | Empty input gives `ak_error_null_pointer`; a first octet other than 0x30 gives `ak_error_invalid_token`. |
| `TokenDecoder.KmiSkipFails` | source/pkcs_15_cryptographic_token/ak_pkcs_15_token.c:626-643 | A PWRI or KEKRI entry moves the list's cursor instead of the entry's. The entry's leftover check then fails, unless the skip fails first. |
| `TokenDecoder.ObjSkipFails` | source/pkcs_15_cryptographic_token/ak_pkcs_15_token.c:864-879 | A private or public key object is skipped short of its end by one octet. Unless that octet repeats its tag, the object cannot be read. |
| `TokenDecoder.ObjSkipEnter` | source/pkcs_15_cryptographic_token/ak_pkcs_15_token.c:864-879 | After the short skip, the element entered must carry the skipped tag, or reading fails. |
| `TokenDecoder.ProtectedFails` | source/pkcs_15_cryptographic_token/ak_pkcs_15_token.c:895-901 | A protected object ([2] inside [3]) followed by anything fails with `ak_error_invalid_token`. |
| `TokenDecoder.ProtectedSkip` | source/pkcs_15_cryptographic_token/ak_pkcs_15_token.c:895-901 | Any protected object whose skip leaves an octet unread fails the leftover check. |
| `TokenDecoder.ObjectsCountWraps` | source/pkcs_15_cryptographic_token/ak_pkcs_15_token.c:803-834 | A list of 256 objects counts as 0 in 8 bits and is refused as an invalid token. |
| `TokenDecoder.ParseIgnoresTrailing` | source/pkcs_15_cryptographic_token/ak_pkcs_15_token.c:497-509 | The parser as written reads a token the same way whatever octets follow it. |
| `TokenDecoder.ParseStrict` | source/pkcs_15_cryptographic_token/ak_pkcs_15_token.c:497-509 | The strict parser accepts only what the parser as written accepts, with the same result. |
| `TokenDecoder.ParseStrictDecodes` | source/pkcs_15_cryptographic_token/ak_pkcs_15_token.c:497-509 | The strict parser reads back every layout that fills the input, and refuses one followed by anything. |
| `TokenRoundTrip.ParamsWritten` | source/pkcs_15_cryptographic_token/ak_pkcs_15_token.c:400-474 | Written parameters imply salt, iteration count and the expected PRF, and are the well-formed parameters layout of those fields. |
| `TokenRoundTrip.AlgIdWritten` | source/pkcs_15_cryptographic_token/ak_pkcs_15_token.c:354-390 | A written algorithm identifier is PBKDF2, with parameters exactly when a salt is present, in the algorithm-identifier layout. |
| `TokenRoundTrip.PwdInfoWritten` | source/pkcs_15_cryptographic_token/ak_pkcs_15_token.c:306-345 | Written password information is the password-information layout of its fields. |
| `TokenRoundTrip.KmiWritten` | source/pkcs_15_cryptographic_token/ak_pkcs_15_token.c:255-297 | A written entry is password information with its information present, or a type that adds nothing, in the entry layout. |
| `TokenRoundTrip.KmisWritten` | source/pkcs_15_cryptographic_token/ak_pkcs_15_token.c:57-69 | The key management loop writes every entry present, last first, as a list layout. |
| `TokenRoundTrip.ObjWritten` | source/pkcs_15_cryptographic_token/ak_pkcs_15_token.c:157-196 | A written object is a secret key holding a key, in the object layout. |
| `TokenRoundTrip.ObjsWritten` | source/pkcs_15_cryptographic_token/ak_pkcs_15_token.c:128-140 | The object loop writes every object, last first, as a list layout. |
| `TokenRoundTrip.ObjectsWritten` | source/pkcs_15_cryptographic_token/ak_pkcs_15_token.c:119-147 | The objects SEQUENCE holds as many objects as the loop runs. |
| `TokenRoundTrip.KeyInfosWritten` | source/pkcs_15_cryptographic_token/ak_pkcs_15_token.c:51-86 | The key management part is nothing for a count of 0, and otherwise the [0] element of the entries. |
| `TokenRoundTrip.KmiAndVersionWritten` | source/pkcs_15_cryptographic_token/ak_pkcs_15_token.c:51-90 | The version INTEGER stands in front of the key management part. |
| `TokenRoundTrip.FieldsWritten` | source/pkcs_15_cryptographic_token/ak_pkcs_15_token.c:41-90 | The token's fields are the token layout: version, [0] entries when present, objects. |
| `TokenRoundTrip.TokenWritten` | source/pkcs_15_cryptographic_token/ak_pkcs_15_token.c:21-109 | Whatever the generator writes is a well-formed token layout with no leftover octets. |
| `TokenRoundTrip.KmisReadBack` | source/pkcs_15_cryptographic_token/ak_pkcs_15_token.c:57-69 | The entries read back are those written, in reverse order. |
| `TokenRoundTrip.ObjsReadBack` | source/pkcs_15_cryptographic_token/ak_pkcs_15_token.c:128-140 | The objects read back are those written, in reverse order. |
| `TokenRoundTrip.ReadBack` | source/pkcs_15_cryptographic_token/ak_pkcs_15_token.c:485-532 | Reading the generator's layout gives `Readback`: counts, version, reversed entries and reversed objects. |
| `TokenRoundTrip.RoundTripWith` | source/pkcs_15_cryptographic_token/ak_pkcs_15_token.c:21-109 | Whatever the generator writes, for any loop count, parses back into `Readback`. |
| `TokenRoundTrip.RoundTrip` | source/pkcs_15_cryptographic_token/ak_pkcs_15_token.c:21-109 | The corrected generator's output parses back into the token's version, counts, entries and objects, with both lists reversed. |
| `TokenRoundTrip.GenerateSmallCount` | source/pkcs_15_cryptographic_token/ak_pkcs_15_token.c:41-47 | Below 128 objects the generator as written and the corrected one agree. |
| `TokenRoundTrip.GenerateDropsObjects` | source/pkcs_15_cryptographic_token/ak_pkcs_15_token.c:41-47 | From 128 objects on, the generator as written writes no object, and the token parses back with none. |
| `TokenRoundTrip.GenerateCountWraps` | source/pkcs_15_cryptographic_token/ak_pkcs_15_token.c:41-47 | 128 object slots with a NULL first slot: the generator as written succeeds with an empty object list, while the corrected one gives `ak_error_null_pointer`. |

## Left out

- `source/ak_hash.c` is not part of this model. The hash context calls compression functions defined elsewhere, and it does file I/O.
- Memory is not modelled: allocation failures, teardown (`free_pkcs_15_token`, `free_key_management_info`, `free_pwd_info`, `free_pkcs_15_object`) and leaks on error paths. Every `malloc`/`calloc` is taken to succeed.
- `ak_error_message` logging is not modelled; only the returned codes are kept.
- The bodies of helpers outside these two files are not part of this model: `ps_*`, `asn_put_universal_tlv`, `asn_get_expected_tlv`, `asn_get_tag`, `asn_get_len`, `asn_get_num_of_elems_in_constructed_obj`, `pkcs_15_put_gost_key`, `pkcs_15_get_gost_key`, `ak_asn_get_size`, `ak_asn_update_size`, `ak_asn_create_constructed_tlv` and `ak_asn_decode`. Each is given the contract its callers rely on:
  - an element is read only when its tag matches and it lies inside the window, and a failure there is `ReadFailed`;
  - the element count is the number of TLVs that fill the window exactly;
  - the contents of INTEGER, OCTET STRING and UTF8String elements are written and read verbatim.
  - an OBJECT IDENTIFIER is written by `asn_put_universal_tlv` as the X.690 octets of its dotted text. `asn_get_expected_tlv` reads those octets back through `TokenModel.OidText`, which is `AsnOid.DecodeOid`. `AsnOid.HmacOid` and `AsnOid.Pbkdf2Oid` show that the OID writer of ak_asn_write_new.c, as written, gives exactly these octets for the two identifiers the token uses.
- The commented-out `new_asn_put_universal_tlv` (lines 568-761) and `ak_asn_fill_root_tlv` (lines 100-114, whose primitive branch is empty) are not modelled.
- `AsnTree.Add`: `ak_asn_add` is modelled on values, with the tree returned rather than updated in place. The aliasing of a child shared by two parents is not captured.
- `AsnTree.Encode`: trees whose recomputed lengths exceed four length octets are excluded by the precondition. For a tree with a node of 256 or more in-use children, only the failure is stated, and its exact code only for a root whose first 256 children are encodable.
- `TokenModel.Token`: the counts `m_obj_size` and `m_info_size` are taken to be 8 bits wide, as `byte`. The header that declares them is not part of this model. Were they wider, they would not wrap at 256 as the model has them do; the store past the block (`TokenDecoder.KeyInfosOverrun`) would still occur, through the `uint8_t` count given to `calloc`. The choice follows the source's own handling of them:
  - `ak_pkcs_15_token.c:57` walks the entries with an `ak_uint8` index bounded by `m_info_size`;
  - the counts are filled from the `uint8_t` element counts at lines 542 and 798.
- The width of `m_curr_size` is taken to exceed 8 bits, so the 8-bit `index` of `ak_asn_encode_tlv` can wrap below it. The header that declares the field is not part of this model; were the field 8 bits wide, no node could have 256 children and `AsnTree.Narrow` would always hold.
- `AsnPrimitives.PutUtf8String` and `AsnPrimitives.PutVisibleString`: a NULL string is not modelled, because the source calls `strlen` on it before its NULL check. A NULL output pointer is not modelled for any writer.
- `AsnOid.OidCountMatchesWritten` holds only for later components below 0x4000, as the writer's own comment limits it. Above that the writer and the counter disagree.
- `AsnTime.GenTimeVeryShort`: for a text of 4 or 7 characters whose read positions hold digits, such as "2023-01", the date loop reads one position past the terminator (`AsnTime.GenTimeShortReads`). The refusal is then a property of the model, which reads NUL there, and not necessarily of the program.
- `TokenDecoder.Parse` and `TokenDecoder.ParseToken`: `pkcs_15_parse_token` fills the caller's structure in place. A failing parse leaves in it the version, the arrays allocated and the entries stored so far; the model returns only the error.
- `AsnTime.GenTimeReadBack` assumes a fraction shorter than 128 digits. The `int8_t` cast of longer fractions is covered by three lemmas, one per class of length L modulo 256:
  - 1..127: `AsnTime.FractionTruncated`, where the fraction is cut to L % 256 digits;
  - 0: `AsnTime.FractionCountZero`, which refuses the fraction as absent;
  - 128..255: `AsnTime.FractionWrapNotDer`, where no digit is stored.
- `AsnTime.FractionWrapNotDer`: for L of 128..236 modulo 256, the trailing-zero check reads `time[ms_cnt]` before the start of the text. The model reads NUL there, so the check passes. In C the outcome depends on the memory before the string.
- C strings are Dafny strings read up to the first NUL. A read before the start of the string, a read at any index past the terminator (`Common.At` gives NUL there), or a `strchr` that finds no space, is taken to see a NUL; in C each of these reads memory outside the string. `strtoul` is modelled on decimal digits only, saturating at the `unsigned long` maximum, with no sign, whitespace or base prefix.
- The numeric values of the enumerations `KEKRI`, `PWRI`, `PRI_KEY` and `PUB_KEY` are taken from CMS RecipientInfo and from the PKCS #15 object choice; the headers that define them are not part of this model.
- `TokenEncoder.PutGostKey` and `TokenDecoder.GetGostKey` take the key to be the content of one [27] element, which is all their callers rely on.

## Findings

| source | as written | input that shows it | evidently intended | confidence | as-written member | corrected member |
|---|---|---|---|---|---|---|
| source/asn_processor/ak_asn_write_new.c:396-398 | An inner 7-bit group of zero in an identifier component is not written. | "1.2.16384" is written 2A 81 00, which decodes as 1.2.128. | X.690 8.19.2: every group after the first non-zero one is written, giving 2A 81 80 00. | high, not executed | `AsnOid.ZeroGroupWritten` | `AsnOid.OidRoundTrip` |
| source/asn_processor/ak_asn_write_new.c:825-835 | The block size is `strlen - 8`, which fits only a text ending in a four-character zone. | "2023-01-01 00:00:00.55 " gets a 15-octet block and 18 stored octets. | The block is the number of octets stored: 15 without a fraction, 16 plus its length with one. | high, not executed | `AsnTime.GenTimeOverrunExample` | `AsnTime.GenTimeIntendedFits` |
| source/asn_processor/ak_asn_write_new.c:137-139 | `ak_asn_add` stores the child but never increments `m_curr_size`, and caches the length 1 + 2·len. | Any successful add to a constructed node: the new child is never encoded, and the cached length is wrong. | The count grows by one, so the child is encoded and the cached lengths stay consistent. | high, not executed | `AsnTree.AddNotEncoded` | `AsnTree.AddIntendedEncoded` |
| source/pkcs_15_cryptographic_token/ak_pkcs_15_token.c:497-509 | The outer SEQUENCE length is never compared with `size`. | A valid token followed by any octets parses as the token alone. | Input that is not exactly one token is refused. | medium, not executed | `TokenDecoder.ParseIgnoresTrailing` | `TokenDecoder.ParseStrictDecodes` |
| source/pkcs_15_cryptographic_token/ak_pkcs_15_token.c:555-569 | The entry array is `calloc`ed with the 8-bit element count, yet the loop stores every entry it reads at `m_info_size` (line 649), with no bounds check. | A [0] element of 256 entries: a block of 0 cells, 256 stores past it, and success. | An entry that does not fit the block is refused, so the array keeps the cells it was given. | high, not executed | `TokenDecoder.KeyInfosOverrun` | `TokenDecoder.KeyInfosCheckedRefuses` |
| source/pkcs_15_cryptographic_token/ak_pkcs_15_token.c:41-47 | `m_obj_size` is passed to an `int8_t` parameter, so 128 or more objects become a negative count. | 128 object slots with a NULL first slot: success with no objects written. | The loop runs once per object, and a NULL slot is refused. | high, not executed | `TokenRoundTrip.GenerateCountWraps` | `TokenRoundTrip.RoundTrip` |
