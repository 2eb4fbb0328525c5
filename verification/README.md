# pet: device files and the DPET container, in Dafny

A model of the two file formats of the `pet` Go package and of the
conversion between them:

- **dpetk**: the 930 device file. A run of fixed-width little-endian
  sections follows the magic: public info, device info, then acquisition,
  image and data info depending on the file type. An optional payload
  comes last: raw sample blocks, listmode records or a mich histogram.
  `DpetkParse.Parse` reads the whole stream and either decodes the payload
  or keeps it verbatim.
- **dpet**: the "DPET" container. It holds the magic `DPET`, a 16-bit
  marshal-method tag, a 32-bit header length, the serialised header, and
  the deflated payload. Write and read are `DpetWriter.Write` and
  `DpetReader.Parse`. The payload layout depends on the device named in
  the header ("930" or "e180") and on the file type.
- **convert**: `DpetConvert.ParseFrom930` parses a device file and
  re-packages it as a container data set. It copies section fields by
  name into the header sections the file type uses.
- **options**: `DpetOption.GenParseOption` folds a list of parse options
  into a flag set.

Bytes are `seq<UInt8>` and integers of every width are bounded subranges
of `int`. Floats are kept as their IEEE bit patterns. A Go panic becomes an
`Err`:
- a short read is `IncompleteData`;
- `bs[len(bs)]` is `IndexOutOfRange`;
- a nil pointer, or a payload left nil by a failed type assertion, is
  `NilDereference`.

Text fields are read under a `TextPolicy`. `Verbatim` keeps the bytes, as
the parser does with trimming off. `FirstBlank` is the trimming the package
switches on, as written, panics included. `Trimmed` is the corrected
trimming of the first finding below. `DpetkParse.Parse` and
`DpetConvert.ParseFrom930` take the policy as a parameter.

The two writer findings below each have an as-written and a corrected
member. `DpetWriter.WriteData930` packs crosstalk channel words as
written, and `DpetWriter.WriteData930Corrected` packs them as the parser
reads them. `DpetWriter.WriteAsWritten` hands the payload writers the data
set itself, and `DpetWriter.Write` hands them its payload and uses the
corrected 930 writer.

Three things are parameters of the model:
- The deflate stage is the identity (`Compress`, `Decompress`): the model
  works on the uncompressed payload stream.
- The protobuf codec of the header is a pair of function parameters,
  `marshal` and `unmarshal`.
- The field names each generated header section declares form the
  parameter `Schemas`.

Modules, one file each:
- `Errors`: `Result`/`Option` and the error values.
- `LittleEndian`: fixed-width encodings.
- `Cursor`: reads over a byte stream.
- `DpetkText`: text fields and IP strings.
- `DpetkModel`, `DpetkParse`: the device file.
- `DpetModel`, `DpetWriter`, `DpetReader`: the container.
- `DpetRoundTrip`: the writer/reader partners.
- `DpetConvert`: the conversion.
- `DpetOption`: the options.

## Model

| member | source | states |
|---|---|---|
| LittleEndian.FromLE | dpetk/parse.go:226-242 | the value `binary.LittleEndian` reads from `n` bytes is below `256^n` |
| LittleEndian.ToLE | dpet/writer.go:76-84 | the little-endian encoding at width `n` is exactly `n` bytes |
| LittleEndian.ToLETruncates | dpet/writer.go:76-84 | writing a value at width `n` keeps it modulo `256^n`, as a Go conversion to a narrower unsigned type does |
| LittleEndian.FromLEOfToLE | dpetk/parse.go:226-242 | decoding a little-endian encoding of a value that fits the width gives the value back |
| LittleEndian.ToLEOfFromLE | dpetk/parse.go:226-242 | re-encoding a decoded byte string at its own width gives the same bytes |
| LittleEndian.ToLEInjective | dpet/writer.go:76-84 | two values that fit the width and encode to the same bytes are equal |
| LittleEndian.ToInt8 | dpet/reader.go:81 | `int8(b)` is the byte itself below 128 and the byte minus 256 otherwise |
| LittleEndian.FromInt8 | dpet/writer.go:125 | the byte written for an `int8` reads back as that `int8` |
| Cursor.Take | dpetk/parse.go:286-293 | succeeds exactly when `n` bytes remain; then it returns those `n` bytes and the rest, which concatenate to the input; otherwise `IncompleteData` |
| Cursor.Next | dpet/reader.go:25 | `buf.Next(n)` never fails: the prefix and the rest concatenate to the input, the prefix has `n` bytes when that many remain, and otherwise everything is consumed |
| Cursor.ReadUInt | dpetk/parse.go:226-242 | succeeds exactly when `width` bytes remain; the value fits the width, and its encoding followed by the rest is the input |
| Cursor.ReadUIntOfEncoded | dpetk/parse.go:226-242 | reading an encoded value back yields the value and the bytes after it |
| Cursor.ReadU8 | dpet/reader.go:65 | one byte when one remains, else `IncompleteData` |
| Cursor.ReadLE16 | dpetk/parse.go:226-233 | a 16-bit read succeeds exactly when two bytes remain, and consumes exactly the two bytes that encode the value |
| Cursor.ReadLE32 | dpetk/parse.go:235-242 | the same for 32 bits and four bytes |
| Cursor.ReadLE64 | dpetk/parse.go:253-260 | the same for 64 bits and eight bytes (the bits of a float64) |
| Cursor.ReadLE16OfEncoded | dpetk/parse.go:226-233 | reading back an encoded 16-bit value yields it and the rest |
| Cursor.ReadLE32OfEncoded | dpetk/parse.go:235-242 | reading back an encoded 32-bit value yields it and the rest |
| Cursor.ReadLE64OfEncoded | dpetk/parse.go:253-260 | reading back an encoded 64-bit value yields it and the rest |
| Cursor.U16At | dpetk/parse.go:295-301 | a 16-bit field at a fixed offset of a checked region is the value encoded by those two bytes |
| Cursor.U32At | dpetk/parse.go:303-309 | a 32-bit field at a fixed offset is the value encoded by those four bytes |
| Cursor.U64At | dpetk/parse.go:335-341 | a 64-bit field at a fixed offset is the value encoded by those eight bytes |
| Cursor.ReadF32s | dpetk/parse.go:274-284 | `count` float32 words succeed exactly when `4 * count` bytes remain; otherwise `IncompleteData` |
| Cursor.F32s | dpetk/parse.go:274-284 | word `i` is encoded by bytes `4i .. 4i+4`, and exactly `4 * count` bytes are consumed |
| DpetkText.AsString | dpetk/parse.go:271 | the string has one character per byte, with the same code |
| DpetkText.TrimPadRight | dpetk/parse.go:343-353 | reference: the longest prefix that does not end in a zero or space byte, with only such bytes after it |
| DpetkText.ModifyString | dpetk/parse.go:343-353 | the backward scan returns a prefix that does not end in a pad byte, with only pad bytes dropped, and equals the reference `TrimPadRight` |
| DpetkText.TrimPadRightIdempotent | dpetk/parse.go:343-353 | trimming twice is trimming once |
| DpetkText.ZeroIndex | dpetk/parse.go:357-363 | the forward scan stops at the first zero byte, or at the end when there is none |
| DpetkText.ModifyStringByFirstBlank | dpetk/parse.go:355-371 | as written: it fails (index out of range) exactly when the field holds no zero byte; otherwise it returns exactly the bytes before the first zero |
| DpetkText.FirstBlankFailsWithoutZero | dpetk/parse.go:364-369 | "ABCD" followed by twelve spaces, a full 16-byte field, makes the as-written function fail |
| DpetkText.FirstBlankKeepsSpaces | dpetk/parse.go:364-370 | as written, "AB " followed by a zero byte gives "AB ": spaces before the zero are kept |
| DpetkText.TrimSpacesRight | dpetk/parse.go:364-369 | a prefix that does not end in a space, with only spaces dropped |
| DpetkText.TrimText | dpetk/parse.go:355-371 | corrected policy: a zero-free prefix that does not end in a space; only spaces lie between it and the first zero byte or the end |
| DpetkText.TrimTextAgreesWithFirstBlank | dpetk/parse.go:355-371 | whenever the as-written function does not fail and no space precedes the zero byte, it agrees with the corrected one |
| DpetkText.TrimTextZeroPadded | dpetk/parse.go:355-371 | text followed by zero padding decodes to the text |
| DpetkText.TrimTextSpacePadded | dpetk/parse.go:355-371 | text followed by space padding, with no zero byte, decodes to the text |
| DpetkText.TrimSpacesRightPadded | dpetk/parse.go:364-369 | appending spaces does not change the space-trimmed result |
| DpetkText.TrimTextPetExample | dpetk/parse.go:355-371 | "PET" followed by thirteen zero bytes decodes to "PET" |
| DpetkText.TrimTextAbcdExample | dpetk/parse.go:355-371 | the field on which the as-written function fails decodes to "ABCD" |
| DpetkText.DecodeText | dpetk/parse.go:262-272 | the text read of `nextString` under a policy: with trimming off (`Verbatim`) the field's bytes as characters; under `FirstBlank`, the package's setting, an index-out-of-range panic exactly when the field holds no zero byte, and otherwise exactly the bytes before the first zero byte; under `Trimmed`, as many characters as the corrected trim keeps; every decoded text is a prefix of the field, and a trimmed one holds no zero byte |
| DpetkText.DecodeTextAgrees | dpetk/parse.go:355-371 | the package's policy and the corrected one decode a field to the same text whenever it holds a zero byte with no space right before the first one |
| DpetkText.DigitChar | dpetk/parse.go:375 | a decimal digit character |
| DpetkText.DecimalString | dpetk/parse.go:375-377 | `strconv.Itoa` on a non-negative value: all digits, no leading zero, with lengths bounded by magnitude |
| DpetkText.ParseDecimalOfDecimalString | dpetk/parse.go:375-377 | reading the decimal text back gives the number |
| DpetkText.ToIPStr | dpetk/parse.go:373-379 | the address string starts with the prefix "192.168." and has 3 to 7 more characters |
| DpetkText.ParseIPStrOfToIPStr | dpetk/parse.go:373-379 | the high byte, the dot and the low byte can be read back, so the 16-bit value is recovered |
| DpetkText.ParseOctetsOfParts | dpetk/parse.go:373-379 | two decimal octets below 256 around a dot read back as the high and low byte of the 16-bit value |
| DpetkText.ToIPStrInjective | dpetk/parse.go:373-379 | distinct 16-bit values give distinct address strings |
| DpetkText.ToIPStrExample | dpetk/parse.go:373-379 | 0x0105 gives "192.168.1.5" |
| DpetkParse.F32sAt | dpetk/parse.go:319-325 | word `i` of a float slice inside a checked section is encoded at offset `off + 4i` |
| DpetkParse.ParsePublicInfo | dpetk/parse.go:86-96 | index out of range exactly when the magic or the version text is there in full and the policy cannot decode it; otherwise success exactly when the 44 bytes are there, else a short read; the magic is skipped, and each field is the one at its offset, the version decoded under the policy; under `Verbatim` and `Trimmed` every failure is a short read |
| DpetkParse.FileTypeOf | dpetk/parse.go:87-92 | the public `Type` is the 16-bit value encoded in bytes 22..24, after the 16-byte magic, the CRC and the length |
| DpetkParse.ParseDeviceInfo | dpetk/parse.go:98-114 | index out of range exactly when the device or serial text is there in full and does not decode; otherwise success exactly when the 96 bytes are there; each integer, text and float-slice field is the one encoded at its offset; under `Verbatim` and `Trimmed` every failure is a short read |
| DpetkParse.DeviceNameWithoutZero | dpetk/parse.go:98-102 | a device name with no zero byte in its sixteen bytes makes the package's parser panic with index out of range, while the corrected policy reads the section |
| DpetkParse.ParseAcquisitionInfo | dpetk/parse.go:116-143 | index out of range exactly when one of the six texts is there in full and does not decode; otherwise success exactly when the section is there; each field, including the two-word energy window, is the one encoded at its offset; under `Verbatim` and `Trimmed` every failure is a short read |
| DpetkParse.ParseImageInfo | dpetk/parse.go:145-169 | index out of range exactly when one of the two texts is there in full and does not decode; otherwise success exactly when the section is there; each field, including the three float slices, is the one encoded at its offset; under `Verbatim` and `Trimmed` every failure is a short read |
| DpetkParse.ParseDataInfo | dpetk/parse.go:171-177 | succeeds exactly when the ten bytes are there; the fields are encoded at their offsets |
| DpetkParse.ParseSections | dpetk/parse.go:46-78 | the type switch: index out of range exactly when a text of a section the type reads is there in full and does not decode; otherwise success exactly when that type's sections fit; acquisition info is present exactly for types other than 3-5 and image info exactly for types 6 and up, each the value its reader gives at its place; the data info is the last ten bytes of the sections |
| DpetkParse.UnpackChannel | dpetk/parse.go:204-206 | the flag, the three reserved bits and the twelve channel bits fit their widths and rebuild the word |
| DpetkParse.UnpackChannelOfChannelWord | dpetk/parse.go:204-206 | unpacking inverts packing: a word built from in-range fields splits back into them |
| DpetkParse.RawRecord | dpetk/parse.go:182-189 | the sample block is kept verbatim, and the address string reads back as the 16-bit value after it |
| DpetkParse.ListmodeRecord | dpetk/parse.go:197-209 | the address string reads back as the first word; the channel fields rebuild the second word; energy and time are the float bits at bytes 4 and 8 |
| DpetkParse.ParseRawData | dpetk/parse.go:179-192 | succeeds exactly when the leftover after whole 1154-byte records is shorter than a sample block; then it yields one item per record, each read from its own record |
| DpetkParse.ParseListmodeData | dpetk/parse.go:194-212 | succeeds exactly when the leftover after whole 16-byte records is under two bytes; then it yields one item per record, each read from its own record |
| DpetkParse.ParseMichData | dpetk/parse.go:214-224 | one value per whole two-byte word, value `i` encoded at bytes `2i .. 2i+2`; a trailing odd byte is dropped |
| DpetkParse.ParsePayload | dpetk/parse.go:46-67 | only the payload of the file's own type is decoded: raw records are those of `parseRawData`, listmode records those of `parseListmodeData`, mich values those of `parseMichData`, with the count that type's layout gives; the others stay empty |
| DpetkParse.Parse | dpetk/parse.go:20-84 | the public, device and section readers run in this order on consecutive parts of the stream, and their values are the data set's; success exactly when all of them succeed and, with decoding on, the payload decodes; every failure is a short read or, under the package's text policy only, index out of range; without decoding, everything after the sections is the buffer; with it, the payload is the payload parser's |
| DpetModel.DeviceOf | dpet/writer.go:13 | the `Device` of a scanner section: the text stored under that name when there is one, and the empty string when the field is unset |
| DpetWriter.WriteHead | dpet/writer.go:71-93 | magic, then method 0; a marshal failure stops there with `MarshalError`; otherwise the length is truncated to 32 bits, followed by the serialised header |
| DpetWriter.EncodeBody | dpet/writer.go:119-126 | the fields in declaration order: the two header bytes, the time bytes verbatim, x and y, the energy bytes verbatim, then the temperature as a byte and the tail |
| DpetWriter.EncodeBodies | dpet/writer.go:118-130 | full-width bodies take 16 bytes each |
| DpetWriter.EncodeBlockHeader | dpet/writer.go:109-114 | eleven bytes: index, address, port, group number, group index and length, each at its offset |
| DpetWriter.EncodeBlock | dpet/writer.go:108-131 | the block header followed by the block's bodies |
| DpetWriter.EncodeRawE180 | dpet/writer.go:107-133 | the output is empty exactly when there are no blocks |
| DpetWriter.EncodeCoin | dpet/writer.go:137-139 | sixteen bytes: the crystal index, then the float32 bits and the float64 bits |
| DpetWriter.EncodePair | dpet/writer.go:136-142 | 32 bytes: the first event, then the second |
| DpetWriter.EncodeCoinE180 | dpet/writer.go:135-148 | 32 bytes per pair, with pair `i` at offset `32i` |
| DpetWriter.EncodeMichE180 | dpet/writer.go:150-158 | four bytes per value, with value `i` encoded at offset `4i` |
| DpetWriter.EncodeRawItem | dpet/writer.go:161-169 | the sample block verbatim, then the two-byte address |
| DpetWriter.EncodeRaw930 | dpet/writer.go:160-172 | with 1152-byte blocks: 1154 bytes per item, with item `i` at offset `1154i` |
| DpetWriter.PackChannelAsWritten | dpet/writer.go:177-180 | as written: without crosstalk the word is the packed fields; with crosstalk and in-range fields the `&=` leaves zero |
| DpetWriter.PackChannel | dpet/writer.go:177-180 | corrected: in-range fields give exactly the word the parser unpacks into them, and crosstalk sets bit 15 |
| DpetWriter.EncodeListModeRecord | dpet/writer.go:176-183 | sixteen bytes: address, channel word, energy bits and time bits, each at its offset |
| DpetWriter.EncodeListMode930AsWritten | dpet/writer.go:174-189 | as written: 16 bytes per record, with record `i` at offset `16i` using the as-written channel word |
| DpetWriter.EncodeListMode930 | dpet/writer.go:174-189 | corrected: 16 bytes per record, with record `i` at offset `16i` using the corrected channel word |
| DpetWriter.EncodeMich930 | dpet/writer.go:191-199 | two bytes per word, with word `i` encoded at offset `2i` |
| DpetWriter.WriteData930 | dpet/writer.go:31-49 | as written: `UnknownFileType` exactly for types other than 0-2; a nil dereference exactly when a raw or listmode file does not hold its 930 payload; a mich file without one writes nothing; no bytes on error; a payload of the file's own type is written by its 930 raw or mich encoder, or by the as-written listmode encoder |
| DpetWriter.WriteData930Corrected | dpet/writer.go:31-49 | corrected: the same error in every case as the code as written, and the same outcome for everything but a listmode payload, which the corrected listmode encoder writes |
| DpetWriter.WriteDataE180 | dpet/writer.go:51-69 | the same dispatch for the E180 payloads, each payload of the file's own type written by its E180 block, coincidence or mich encoder |
| DpetWriter.WriteWith | dpet/writer.go:11-29 | whatever payload and 930 writer it is given: a nil public or scanner section is exactly the case that fails before writing anything; a serialiser failure gives `MarshalError` after the magic and tag; otherwise the header comes first, a payload buffer follows verbatim, an unknown device gets `UnknownDrive` after the header, and a known device gets its payload writer's bytes and error after the header |
| DpetWriter.Write | dpet/writer.go:11-29 | corrected: a serialiser failure gives `MarshalError` after the magic and tag; with both sections present and the header marshalled, the header comes first; a payload buffer follows verbatim; the "930" device gets the corrected 930 payload writer's bytes and error, and "e180" its payload writer's; any other device gets `UnknownDrive` after the header |
| DpetWriter.WriteAsWritten | dpet/writer.go:11-29 | as written: nil sections fail before writing anything; a serialiser failure gives `MarshalError` after the magic and tag; a payload buffer follows the header verbatim; an unknown device gets `UnknownDrive` after the header; for either known device, an unknown file type gets `UnknownFileType` after the header, raw and listmode files fail with a nil dereference after the header, and a mich file is the header alone |
| DpetRoundTrip.WriteAsWrittenAgreesWithWrite | dpet/writer.go:11-29 | the as-written and corrected writers give the same outcome whenever no payload writer runs on a known file type: nil sections, a serialiser failure, a payload buffer, an unknown device or an unknown file type |
| DpetReader.ReadFloat32 | dpet/reader.go:120-124 | with four bytes, their value and the rest; with fewer, zero, and everything is consumed |
| DpetReader.ReadFloat64 | dpet/reader.go:126-130 | with eight bytes, their value and the rest; with fewer, zero, and everything is consumed |
| DpetReader.DecodeBody | dpet/reader.go:74-83 | succeeds exactly when 16 bytes remain; then each field comes from its offset, with the temperature as a signed byte, and the result is full-width |
| DpetReader.DecodeBodyIsBodyReads | dpet/reader.go:74-83 | the eight reads of the source, one after another, give the same result as one 16-byte read |
| DpetReader.DecodeBodies | dpet/reader.go:73-85 | `count` bodies succeed exactly when `16 * count` bytes remain; body `i` is the one read at offset `16i`, and exactly those bytes are consumed |
| DpetReader.DecodeBlockHeader | dpet/reader.go:64-71 | succeeds exactly when eleven bytes remain; each field is the one encoded at its offset |
| DpetReader.BlocksFitStep | dpet/reader.go:63-88 | a stream with a whole header splits into blocks exactly when the bodies of that header are there and the rest after them splits |
| DpetReader.DecodeBlocks | dpet/reader.go:61-90 | succeeds exactly when the stream splits into eleven-byte headers each followed by the `DataLen / 16` bodies it announces; any failure is a short read; no blocks exactly for empty input; each block holds `DataLen / 16` full-width bodies; the first block is the header at the start of the stream with the bodies read after it |
| DpetReader.DecodeCoin | dpet/reader.go:96-100 | needs only the four index bytes, which always give the index; the energy comes from bytes 4..8 when they are there, and the time from 8..16; a float that runs short reads as zero, and a short event consumes everything |
| DpetReader.DecodePair | dpet/reader.go:95-106 | succeeds exactly when 20 bytes remain, because the second index must be complete; its events are the ones read at offsets 0 and 16; it consumes 32 bytes, or everything when fewer remain |
| DpetReader.DecodeCoinPairs | dpet/reader.go:92-110 | succeeds exactly when the last pair has 0 or at least 20 bytes; the pair count is the length divided by 32, rounded up; pair `i` is the one read at offset `32i` |
| DpetReader.DecodeMichE180 | dpet/reader.go:112-118 | one value per four bytes, rounded up; value `i` is encoded at offset `4i`, and a partial last word gives zero |
| DpetReader.DecodePayload | dpet/reader.go:50-57 | types 0, 1 and 2 give exactly the results of the E180 block, coincidence and mich readers, failures included; every other type gives no data |
| DpetReader.HeaderEnd | dpet/reader.go:34-36 | the header content ends at the announced length, or at the end of the buffer when fewer bytes remain |
| DpetReader.ParseHead | dpet/reader.go:24-42 | `WrongFileType` exactly without the magic; `UnknownMarshalMethod` exactly for a tag other than 0; a short tag or length is a short read; `UnmarshalError` exactly when the content does not deserialise; success exactly when the magic, tag 0 and the length are there and the content deserialises; then the method, length, content and rest |
| DpetReader.Parse | dpet/reader.go:24-59 | header errors pass through; a nil public section fails; otherwise the data is the payload switch's result on the decompressed rest, whose short read is the only other failure; a read never yields a buffer or a 930 payload |
| DpetReader.HasMagic | dpet/reader.go:25-29 | the file is accepted exactly when the (up to) four bytes `buf.Next(4)` hands back are the magic "DPET" |
| DpetRoundTrip.ParseHeadOfWriteHead | dpet/reader.go:24-42 | the reader takes back the header the writer wrote: method 0, the true length, the same content, and the bytes after it |
| DpetRoundTrip.DecodeBodyOfEncode | dpet/reader.go:74-83 | a full-width body reads back unchanged |
| DpetRoundTrip.DecodeBodiesCons | dpet/reader.go:73-85 | one more full-width body in front of a readable run of bodies reads back in front of them |
| DpetRoundTrip.DecodeBodiesOfEncode | dpet/reader.go:73-85 | a list of full-width bodies reads back unchanged |
| DpetRoundTrip.DecodeBlockHeaderOfEncode | dpet/reader.go:64-71 | a block header reads back unchanged |
| DpetRoundTrip.DecodeBlocksCons | dpet/reader.go:63-88 | a block whose `DataLen` announces its bodies, written in front of a readable stream, reads back as the first block |
| DpetRoundTrip.DecodeBlocksOfEncode | dpet/reader.go:61-90 | the raw reader inverts the raw writer on blocks whose `DataLen` announces their bodies |
| DpetRoundTrip.DecodeCoinOfEncode | dpet/reader.go:96-100 | an event reads back unchanged |
| DpetRoundTrip.DecodePairOfEncode | dpet/reader.go:95-106 | a pair reads back unchanged |
| DpetRoundTrip.DecodeCoinPairsCons | dpet/reader.go:94-108 | a written pair in front of a coincidence stream whose last pair holds 0 or at least 20 bytes reads back as the first pair, followed by the pairs of the stream |
| DpetRoundTrip.DecodeCoinPairsOfEncode | dpet/reader.go:92-110 | the coincidence reader inverts the coincidence writer on every list of pairs |
| DpetRoundTrip.DecodeMichOfEncode | dpet/reader.go:112-118 | the mich reader inverts the mich writer |
| DpetRoundTrip.DecodePayloadOfEncode | dpet/reader.go:50-57 | an E180 payload of the file's own type writes without error and reads back unchanged |
| DpetRoundTrip.ParseOfWriteE180 | dpet/reader.go:24-59 | a data set written for "e180" reads back with its header content and payload, no buffer, and the method and length the writer computed |
| DpetRoundTrip.WriteAsWrittenDropsMich | dpet/writer.go:24-26 | as written, a non-empty e180 mich payload is lost: the file reads back with no values |
| DpetRoundTrip.WriteAsWrittenPanicsOnRawAndCoincidence | dpet/writer.go:24-26 | as written, raw and coincidence data sets fail with a nil dereference after the header |
| DpetRoundTrip.FileE180IsUnknownDrive | dpet/writer.go:22-28 | a scanner named with the package's `FileE180` constant ("180") is not a device `Write` knows, as written or corrected |
| DpetRoundTrip.ParseRawDataOfEncodeRaw930 | dpetk/parse.go:179-192 | the device-file raw parser takes back what the 930 raw writer wrote, with the address in dotted form |
| DpetRoundTrip.RawRecordOfEncodeRawItem | dpetk/parse.go:182-189 | one written raw item parses back into its block and its dotted address |
| DpetRoundTrip.ReadBackFields | dpetk/parse.go:197-209 | a written listmode record parses back into its address, the unpacked channel word, and its energy and time |
| DpetRoundTrip.ListmodeRecordOfPackChannel | dpet/writer.go:177-180 | with the corrected word, a record with in-range fields parses back unchanged |
| DpetRoundTrip.ParseListmodeDataOfEncodeListMode930 | dpetk/parse.go:194-212 | the corrected 930 listmode payload parses back record for record |
| DpetRoundTrip.ParseListmodeDataOfEncodeListMode930AsWritten | dpetk/parse.go:194-212 | the as-written 930 listmode payload parses back record for record, with the flag, reserved bits and channel of every crosstalk record zeroed |
| DpetRoundTrip.ListmodeRecordOfPackChannelAsWritten | dpet/writer.go:177-180 | as written, a crosstalk record parses back with flag, reserved bits and channel all zero |
| DpetRoundTrip.ListmodeRecordOfPackChannelAsWrittenPlain | dpet/writer.go:177-180 | as written, a record without crosstalk still parses back unchanged |
| DpetRoundTrip.CrossTalkExample | dpet/writer.go:177-180 | crosstalk, reserved 2 and channel 291: corrected word 0xA123, which unpacks to those fields; as written, 0 |
| DpetRoundTrip.ParseMichDataOfEncodeMich930 | dpetk/parse.go:214-224 | the device-file mich parser inverts the 930 mich writer |
| DpetRoundTrip.ParsePayloadOfWriteData930 | dpet/writer.go:31-49 | as written: a 930 payload of the file's own type, with full sample blocks and in-range channel fields, writes without error; the device-file payload switch reads it back record for record with dotted addresses, except that a crosstalk listmode record comes back without its flag, reserved bits and channel |
| DpetRoundTrip.ParsePayloadOfWriteData930Corrected | dpet/writer.go:31-49 | corrected: the same payloads write without error and read back record for record, crosstalk records intact |
| DpetRoundTrip.WriteData930CrossTalkExample | dpet/writer.go:174-189 | one crosstalk record (reserved 2, channel 291) in a listmode file: as written, payload bytes 2..4 are zero; corrected, they are 0x23 0xA1 |
| DpetConvert.DeviceFields | dpet/convert.go:54 | the device section, as named fields, carries its `Device` text under that name |
| DpetConvert.FillByFieldName | dpet/convert.go:68-84 | with either side nil, nothing changes; otherwise the target's names gain the source names it declares, those take the source's values, and every other target field keeps its value |
| DpetConvert.SectionsFor | dpet/convert.go:19-52 | public info is the file type, deflate and an empty MD5; which of the sections is allocated (empty) or nil for each type |
| DpetConvert.ConvertFrom930 | dpet/convert.go:18-65 | method 0, length 0, no payload, and the buffer passed through; scanner, acquisition and image sections are filled by name from the device file; the device name carries over when the scanner declares `Device` |
| DpetConvert.ParseFrom930 | dpet/convert.go:9-16 | succeeds exactly when the device file parses under the text policy (the package's is `FirstBlank`), and fails with the parser's error otherwise; public info is the file type, deflate and an empty MD5; without payload decoding, the payload bytes become the buffer |
| DpetConvert.WriteOfConvertedKeepsBuffer | dpet/writer.go:18-20 | a converted file with a buffer writes as the header followed by the untouched buffer |
| DpetConvert.WriteOfConvertedParsedPayload | dpet/convert.go:57-64 | a converted 930 file with a decoded payload has no payload to write: raw and listmode fail after the header, and mich is the header alone |
| DpetOption.Apply | dpet/option.go:19-30 | each option turns on its own flag and leaves the other one alone |
| DpetOption.ApplyAllFlags | dpet/option.go:10-16 | after a list of options, a flag is on exactly when it was on before or some option in the list names it |
| DpetOption.ApplyAllSnoc | dpet/option.go:10-16 | running one more option after a list is running the longer list |
| DpetOption.ApplyAllOrderIndependent | dpet/option.go:10-16 | two lists naming the same options build the same set, whatever the order or repetition |
| DpetOption.GenParseOption | dpet/option.go:10-16 | the loop builds the left fold of the options from the empty set; each flag is on exactly when some option names it; no options give the empty set |

## Left out

- I/O: `ParseFile` in both packages, `io.Reader`/`io.Writer` and their errors, and `os.Open`. The model works on whole byte sequences, and a writer error never happens.
- Deflate: compression and decompression are the identity. The writer only flushes its deflate stream, and the reader ignores decompression errors; neither is modelled.
- Protobuf: the serialised form of `PetFileHeader` is the parameters `marshal` and `unmarshal`. Generated code is not part of this model.
- Floats are kept as bit patterns. No float arithmetic or NaN behaviour is modelled.
- The FileType enumeration of the generated header is assumed to be 0..7 in declaration order: RawData, ListModeCoin, Mich, EnergyCalibrationMap, TimeCalibrationMap, EnergySpectrumData, PositionTable, EnergyMap. The first six match the device-file type codes that `convertFrom930` casts.
- The reader checks neither the device nor the file type. It returns no `UnknownDrive`, and a type other than 0-2 reads with no payload; the model follows the code.
- The parse options are built but never read by the container reader, so `Parse` takes no options.
- Nil elements inside payload slices (a nil `*BDMInfo`, or a nil event in a pair) cannot be expressed. The payload records are values.
- A nil `Header` or nil `Content` pointer is not modelled. A nil public or scanner section is.
- DpetConvert.FillByFieldName: a copied value keeps its representation. The numeric widening of `reflect.Value.Convert`, and its panic on incompatible types, are not modelled.
- The device-info record in dpetk/model.go:39-44 spells four fields `IPCounts`, `IPStart`, `MVTThresholds` and `MVTParameters`. The parser at dpetk/parse.go:107-112 and the test data at dpet/convert_test.go:20-25 spell them `IpCounts`, `IpStart`, `MvtThresholds` and `MvtParameters`. The model follows the parser, so these are the names the conversion copies.
- Short reads in the container reader are all `IncompleteData`. Go reports them as an index-out-of-range panic: `buf.Next(1)[0]`, or `binary.LittleEndian.Uint16`/`Uint32` on a short `Next` result (dpet/reader.go:31-34, 65-82, 97-102). The model keeps `IndexOutOfRange` for the text-trimming panic alone, and treats every read that runs out of bytes as one kind.
- DpetReader.DecodeBlocks: the contract states when the read succeeds, the first block's header and bodies, and the count and width of every block's bodies. It does not name the contents of later blocks; they follow from the same contract on the rest of the stream, and the round-trip lemma `DpetRoundTrip.DecodeBlocksOfEncode` states them for a written stream.
- DpetRoundTrip.DecodeBlocksOfEncode: needs `DataLen / 16` to equal the number of bodies. When it does not, the reader takes a different number of bodies and the stream desynchronises, as in the source.

## Findings

| source | as written | input that shows it | evidently intended | confidence | as-written member | corrected member |
|---|---|---|---|---|---|---|
| dpetk/parse.go:355-371 | the forward scan stops at `len(bs)` when the field has no zero byte, and the backward scan then reads `bs[len(bs)]`; when there is a zero byte, the backward scan starts on it, so trailing spaces are never removed | the 16-byte field "ABCD" plus twelve spaces fails with index out of range; "AB " plus a zero byte gives "AB " | cut at the first zero byte (or the end) and strip the spaces before it | high, not executed | DpetkText.ModifyStringByFirstBlank, DpetkText.FirstBlankFailsWithoutZero, DpetkText.FirstBlankKeepsSpaces, DpetkParse.DeviceNameWithoutZero | DpetkText.TrimText, DpetkText.TrimTextAbcdExample, DpetkText.TrimTextSpacePadded, DpetkText.DecodeTextAgrees |
| dpet/writer.go:177-180 | `ch &= 1 << 15` keeps bit 15 alone, so a crosstalk record with in-range fields is written as the word 0 | crosstalk, reserved 2, channel 291: written as 0x0000 instead of 0xA123, and parsed back as no crosstalk, reserved 0, channel 0 | `ch \|= 1 << 15`, which sets the flag the parser reads from bit 15 | high, not executed | DpetWriter.PackChannelAsWritten, DpetWriter.WriteData930, DpetRoundTrip.ListmodeRecordOfPackChannelAsWritten, DpetRoundTrip.ParsePayloadOfWriteData930, DpetRoundTrip.CrossTalkExample, DpetRoundTrip.WriteData930CrossTalkExample | DpetWriter.PackChannel, DpetWriter.WriteData930Corrected, DpetRoundTrip.ParseListmodeDataOfEncodeListMode930, DpetRoundTrip.ParsePayloadOfWriteData930Corrected |
| dpet/writer.go:24-26 | the payload writers get the `*Dataset` itself, which none of their type assertions match | an "e180" mich data set with one value is written as the header alone and reads back with no values; raw and coincidence data sets fail with a nil dereference | hand the writers `dataset.Data` | high, not executed | DpetWriter.WriteAsWritten, DpetRoundTrip.WriteAsWrittenDropsMich, DpetRoundTrip.WriteAsWrittenPanicsOnRawAndCoincidence | DpetWriter.Write, DpetRoundTrip.ParseOfWriteE180 |
