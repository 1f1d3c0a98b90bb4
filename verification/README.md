# Verified model of the nanopb codec and the Alamofire request machinery

The app carries two libraries whose logic is worth a proof. **nanopb** prints a message struct to
protobuf bytes and parses it back, driven by a table of field descriptors. **Alamofire** runs
requests over several threads and queues. This project models both in Dafny and proves what they
promise. To check it, use `dafny verify dfyconfig.toml`.

## How it is laid out

The codec follows the Protocol Buffers encoding guide (base 128 varints, ZigZag, length-delimited
records, packed repeated fields, last one wins).

- `Words`, `Varint`: fixed-width words, shifts and varints, with every truncation written out.
- `Descriptor`: descriptors, and message structs as one slot a field; a oneof has one shared slot.
- `FieldIterator`: the cyclic pointer iterator of `pb_common.c` as a class, and the struct layout.
- `Decoding`, `Encoding`: what parsing and printing compute, as functions on byte strings.
- `InputStream`, `Decoder`, `RequiredBitmap`: `pb_decode.c` as the loops over a stream cursor that
  it is, each method proved to compute its function, with the accounting of substreams.
- `OutputStream`, `Encoder`: `pb_encode.c` likewise. One contract says of every writer that it
  succeeds exactly when its output exists and fits, and what the buffer then holds.
- `RoundTrip`, `Concatenation`, `FieldRecords`, `PackedArrays`, `RequiredFields`, `ScalarValues`,
  `WireFormat`, `EndToEnd`: the theorems.

A message comes back in *normal form*: bools are 0 or 1, strings end at their first NUL, and absent
optionals and unset oneofs hold their defaults.

Each Alamofire file is a class whose methods are the regions under its lock or on its queue, a state
that those methods are proved to transform, and a world in which the regions of all threads
interleave in any order. The theorems are about every run of that world.

- `AuthenticationInterceptor`, `AuthenticationAnswers`: one credential refresh at a time, calls queued
  behind it, a sliding window that limits refreshes, and what each call is told.
- `RequestTaskMap`: the two-way map of tasks and requests, and the join of a task's two last events.
- `RequestState`: the request's state machine against the commands its tasks are given.
- `DataStreamRequest`: data for every stream, and completion events held back while handlers execute.
- `MultipartFormData`, `MultipartEncoding`: the in-memory and the streaming encoder of a form, and
  a receiver as section 5.1.1 of RFC 2046 describes it.

## Where the code differs from what one would expect

- The string encoder accepts a buffer without a NUL, and the decoder refuses its output
  (`PackedArrays.TextRoundTripsIffTerminated`).
- Only the first 64 required fields are checked; the others are decoded as if they were optional
  (`RequiredFields.LastRequiredUnchecked`, `RequiredFields.BeyondLimitIsOptional`).
- Messages do not merge under concatenation when the second goes on with the fixed-count array that
  the first has just completed (`Concatenation.ConcatenationIsMerge`, and the input of
  `Concatenation.FixedCountsDoNotMerge`).
- `appendResponseSerializer` takes a finished request back to resumed without telling its task
  (`RequestState.ReopeningMirrorsIff`).
- The multipart writer stops without an error when the output has no space, and does not compare a
  body with its declared length, although `encode` does (`MultipartEncoding.FormIsWrittenIff`,
  `MultipartEncoding.OnlyEncodeChecksLength`).
- Nothing keeps a form part from containing the boundary (`MultipartEncoding.ReceivesPartsIff`).

## Model

| member | source | states |
|---|---|---|
| RoundTrip.MessageRoundTrip | Ijara/ijara/Pods/nanopb/pb_encode.c:528-550 | every valid message of every well-formed descriptor, at any nesting, encodes, and pb_decode of the bytes returns the message in normal form and uses them all up |
| EndToEnd.EncodeAndDecode | Ijara/ijara/Pods/nanopb/pb_encode.c:528-550 | pb_encode into a buffer succeeds exactly when the encoding fits, and pb_decode of what was written then gives the normal form back, on the imperative programs |
| RoundTrip.DelimitedRoundTrip | Ijara/ijara/Pods/nanopb/pb_decode.c:1113-1126 | a length-prefixed message decodes to its normal form and leaves what follows it unread |
| RoundTrip.NullTerminatedRoundTrip | Ijara/ijara/Pods/nanopb/pb_decode.c:303-314 | a message ended by a zero byte decodes to its normal form and leaves what follows the zero unread |
| RoundTrip.ValueRoundTrip | Ijara/ijara/Pods/nanopb/pb_encode.c:767-910 | each element, scalar or submessage, survives encoding and decoding up to normal form, with any bytes behind it |
| RoundTrip.ArrayRoundTrip | Ijara/ijara/Pods/nanopb/pb_encode.c:147-236 | a whole repeated or fixed-count array, packed or not, decodes into the array it came from |
| RoundTrip.OmittedIsDefault | Ijara/ijara/Pods/nanopb/pb_encode.c:240-337 | a proto3 field the encoder leaves out holds, in normal form, exactly the default the decoder starts from |
| PackedArrays.TextRoundTripsIffTerminated | Ijara/ijara/Pods/nanopb/pb_decode.c:1487-1523 | a string comes back if and only if its buffer holds a NUL: the encoder accepts an unterminated buffer and the decoder refuses the result |
| Concatenation.ConcatenationIsMerge | Ijara/ijara/Pods/nanopb/pb_decode.c:934-1082 | for every descriptor, decoding `a ++ b` is decoding b into what a left behind, and required fields seen in a need not recur in b; where b decodes, this holds if and only if the first fixed-count array with a record in b is not the one a has just completed (arrays of size zero aside), and otherwise the concatenation does not decode |
| Concatenation.FixedCountsDoNotMerge | Ijara/ijara/Pods/nanopb/pb_decode.c:997-1019 | a concrete input of that kind: the array decodes in each half but not in the concatenation |
| Concatenation.CompletedIsForgotten | Ijara/ijara/Pods/nanopb/pb_decode.c:997-1019 | a run ends alike, with the same struct, whether or not another fixed-count array was complete when it began |
| Concatenation.GoingOnBreaks | Ijara/ijara/Pods/nanopb/pb_decode.c:997-1019 | a run that is good from a blank state breaks when the array it goes on with counts as complete already |
| Concatenation.SplitSubmessageMerges | Ijara/ijara/Pods/nanopb/pb_decode.c:1525-1547 | two records of a required, optional or oneof submessage decode like one record of the whole, unless the second goes on with a fixed-count array the first has just completed, and then the whole breaks |
| Concatenation.SplitValueMerges | Ijara/ijara/Pods/nanopb/pb_decode.c:1525-1547 | the same for the length-prefixed message without its tag |
| Concatenation.RunResumes | Ijara/ijara/Pods/nanopb/pb_decode.c:952-1030 | a run over `a ++ b` goes on with b from the state a ended in, unless a held a zero tag word |
| Concatenation.RunEnds | Ijara/ijara/Pods/nanopb/pb_decode.c:303-314 | a zero tag word ends a message whatever follows it |
| Concatenation.SeenOnlyAccumulates | Ijara/ijara/Pods/nanopb/pb_decode.c:1021-1026 | what a run does to the struct does not depend on the required fields already seen |
| Concatenation.UnknownRecordSkipped | Ijara/ijara/Pods/nanopb/pb_decode.c:966-995 | a record of any of the four wire types whose tag no field carries leaves the whole decoder state as it was, also in the middle of a fixed-count array |
| Concatenation.UnknownFieldsAreTransparent | Ijara/ijara/Pods/nanopb/pb_decode.c:934-1082 | inserting such a record at any record boundary changes neither success nor the decoded message |
| FieldRecords.ScalarRecordWins | Ijara/ijara/Pods/nanopb/pb_decode.c:406-483 | whatever the slot held before, after a record of a required, optional or oneof scalar it holds exactly the value of that record, with has_ true or which_ the tag of the field, and no other slot has changed |
| FieldRecords.LastRecordWins | Ijara/ijara/Pods/nanopb/pb_decode.c:406-483 | of two records of one scalar field, or of two members of one union, only the second matters: the whole run goes as if the first were not there |
| FieldRecords.MessageStartsAfresh | Ijara/ijara/Pods/nanopb/pb_decode.c:456-478 | a submessage that turns a union to another member, or is appended to an array, is exactly the message its bytes decode to alone |
| FieldRecords.WithoutRecordDefault | Ijara/ijara/Pods/nanopb/pb_decode.c:845-915 | a scalar field without a record ends with has_ false and the default of its descriptor, or cleared if it has none |
| FieldRecords.WithoutRecordUnset | Ijara/ijara/Pods/nanopb/pb_decode.c:845-915 | a union without a record of any member ends unset |
| WireFormat.RecordFormat | Ijara/ijara/Pods/nanopb/pb_encode.c:675-707 | every record starts with the varint of eight times the tag plus the wire number 0, 1, 2 or 5 that the encoding guide gives its type, and goes on with a payload of that wire type |
| WireFormat.ReceiverWithoutField | Ijara/ijara/Pods/nanopb/pb_decode.c:966-995 | a receiver whose descriptor lacks one field decodes what the encoder wrote into the message without that field |
| WireFormat.OtherFieldsUnchanged | Ijara/ijara/Pods/nanopb/pb_decode.c:966-995 | and gets every other field as a receiver with the whole descriptor does; a union that held the missing member is unset |
| ScalarValues.VarintRefusedIff | Ijara/ijara/Pods/nanopb/pb_decode.c:1345-1428 | a varint field is refused exactly when no varint ends within ten bytes or the integer it stands for is out of the range of the C type; otherwise that integer is stored |
| ScalarValues.DecodedIsValid | Ijara/ijara/Pods/nanopb/pb_decode.c:1334-1570 | whatever a scalar field reads, from any bytes, is a value the field can hold |
| ScalarValues.SignedFieldsAreWidened | Ijara/ijara/Pods/nanopb/pb_encode.c:776-815 | a signed field of any width is sent as the same 64-bit integer, in ten bytes if it is negative |
| ScalarValues.OmittedIff | Ijara/ijara/Pods/nanopb/pb_encode.c:240-337 | a proto3 singular field is left out if and only if it holds its default and nothing in its type is always sent: fixed-length bytes, required fields or fixed-count arrays |
| PackedArrays.ChunksDecode | Ijara/ijara/Pods/nanopb/pb_decode.c:424-464 | any split of an element sequence into packed runs, empty ones included, and single records decodes to the same array and count, and succeeds exactly when the total fits |
| PackedArrays.SplitsAgree | Ijara/ijara/Pods/nanopb/pb_decode.c:424-464 | two splits of the same elements are the same field |
| RequiredFields.RequiredFieldsExact | Ijara/ijara/Pods/nanopb/pb_decode.c:1032-1079 | decoding succeeds exactly when every record does, the last fixed-count array is complete and each of the first 64 required fields has at least one record |
| RequiredFields.LastRequiredUnchecked | Ijara/ijara/Pods/nanopb/pb_decode.c:1057-1076 | 65 required fields and a message without the last one that decodes |
| RequiredFields.FewRequiredAllPresent | Ijara/ijara/Pods/nanopb/pb_decode.c:1032-1079 | with at most 64 required fields, a message that decodes has a record of each |
| RequiredFields.BeyondLimitIsOptional | Ijara/ijara/Pods/nanopb/pb_decode.c:1021-1026 | a required field behind 64 others makes no difference: on every input decoding gives the same as if the field were optional |
| RequiredFields.RunMarks | Ijara/ijara/Pods/nanopb/pb_decode.c:1021-1026 | a run marks the index of a required field exactly when the input holds a record with its tag |
| RequiredBitmap.AllSeen | Ijara/ijara/Pods/nanopb/pb_decode.c:1039-1076 | the whole-word and partial-mask comparison of the bitmap passes if and only if every index below the count was marked |
| RequiredBitmap.Mark | Ijara/ijara/Pods/nanopb/pb_decode.c:1021-1026 | setting one bit of the two-word bitmap marks that index and no other |
| Varint.EncodeVarintMinimal | Ijara/ijara/Pods/nanopb/pb_encode.c:608-628 | no varint for a value is shorter than the one written, and one as short is the same |
| Varint.EncodeVarintSpells | Ijara/ijara/Pods/nanopb/pb_encode.c:608-628 | the bytes written are one varint group whose base 128 sum is the value |
| Varint.EncodeVarintFits | Ijara/ijara/Pods/nanopb/pb_encode.c:608-628 | ten bytes are enough for every 64-bit value |
| Varint.DecodeVarintAccepts | Ijara/ijara/Pods/nanopb/pb_decode.c:255-275 | exactly the inputs whose group ends within ten bytes are accepted, with the base 128 sum mod 2^64 |
| Varint.VarintRoundTrip | Ijara/ijara/Pods/nanopb/pb_decode.c:255-275 | decoding what was encoded gives every 64-bit value back |
| Varint.Varint32AgreesWith64 | Ijara/ijara/Pods/nanopb/pb_decode.c:187-247 | when the 32-bit decoder succeeds within ten bytes, the 64-bit decoder reads the same bytes and agrees mod 2^32 |
| Varint.Varint32RoundTrip | Ijara/ijara/Pods/nanopb/pb_decode.c:187-247 | the 32-bit decoder gives back every value below 2^32 |
| Varint.DecodeVarint32Exact | Ijara/ijara/Pods/nanopb/pb_decode.c:187-247 | exactly which groups of at most ten bytes the 32-bit decoder accepts, padded and sign-extended ones included, and that it reads them mod 2^32 |
| Varint.ZigZagOrder | Ijara/ijara/Pods/nanopb/pb_encode.c:630-639 | the complement-and-shift form numbers the integers 0, -1, 1, -2 and so on |
| Varint.ZigZagRoundTrip | Ijara/ijara/Pods/nanopb/pb_decode.c:1285-1297 | ZigZag is a bijection between int64 and uint64 |
| FieldIterator.SharedSlotSharedAddress | Ijara/ijara/Pods/nanopb/pb_common.c:53-79 | members of one union have one data address and one which_ word |
| FieldIterator.SlotsDoNotOverlap | Ijara/ijara/Pods/nanopb/pb_common.c:60-79 | the bytes of a field that is not followed by a member of its own union end before any later field begins, whatever unions lie between |
| FieldIterator.PointersAreMembers | Ijara/ijara/Pods/nanopb/pb.h:391-410 | on a descriptor built by the offset macros the data and size pointers are the addresses of the members of the struct |
| FieldIterator.FieldIter.Begin | Ijara/ijara/Pods/nanopb/pb_common.c:8-27 | the iterator stands at the first field with canonical pointers, and tells an empty descriptor |
| FieldIterator.FieldIter.Next | Ijara/ijara/Pods/nanopb/pb_common.c:29-85 | one step round the cycle: position, required index, data and size pointers are those of the layout, and a redirected size pointer is restored |
| FieldIterator.FieldIter.Find | Ijara/ijara/Pods/nanopb/pb_common.c:87-104 | from any position a tag is found if and only if a non-extension field carries it (or the descriptor is empty and the tag zero), and failure restores the position |
| FieldIterator.FieldIter.FindExtension | Ijara/ijara/Pods/nanopb/pb_decode.c:831-842 | on a descriptor without extensions the walk finds nothing and comes back to where it started |
| Encoder.PbEncode | Ijara/ijara/Pods/nanopb/pb_encode.c:528-550 | it succeeds exactly when the message has an encoding and that fits in the space left, then has written exactly those bytes; on a sizing stream it counts them; nothing outside the window of the stream changes |
| Encoder.PbGetEncodedSize | Ijara/ijara/Pods/nanopb/pb_encode.c:567-576 | the size reported is the length of the encoding, and it fails only if there is none |
| Encoder.WriteSubmessage | Ijara/ijara/Pods/nanopb/pb_encode.c:717-765 | sizing pass, prefix and second pass together emit the length-prefixed encoding, on both kinds of stream |
| Encoder.WriteSecondPass | Ijara/ijara/Pods/nanopb/pb_encode.c:740-764 | the second pass writes exactly the size the first counted, so "submsg size changed" cannot happen |
| Encoder.PbEncodeDelimited | Ijara/ijara/Pods/nanopb/pb_encode.c:552-555 | emits the length prefix and the encoding |
| Encoder.PbEncodeNullterminated | Ijara/ijara/Pods/nanopb/pb_encode.c:557-565 | emits the encoding and a zero byte |
| Encoder.WriteFields | Ijara/ijara/Pods/nanopb/pb_encode.c:534-549 | the loop over the iterator emits the fields in order, each once |
| Encoder.WriteBasicField | Ijara/ijara/Pods/nanopb/pb_encode.c:341-426 | each kind of field is sent exactly when it is present: has_ flag, proto3 non-default value, count, matching which_ word |
| Encoder.WriteArray | Ijara/ijara/Pods/nanopb/pb_encode.c:147-236 | arrays over their size are an error; the others are packed whenever the type allows |
| Encoder.WritePackedBody | Ijara/ijara/Pods/nanopb/pb_encode.c:169-204 | the counted size of a packed body is the number of bytes then written |
| Encoder.PackedSize | Ijara/ijara/Pods/nanopb/pb_encode.c:169-189 | 4 or 8 times the count, or a sizing pass: all give the length of the packed body |
| Encoder.WritePacked | Ijara/ijara/Pods/nanopb/pb_encode.c:197-204 | the elements one after another, without tags |
| Encoder.WriteUnpacked | Ijara/ijara/Pods/nanopb/pb_encode.c:208-232 | the elements with a tag each |
| Encoder.WriteTagged | Ijara/ijara/Pods/nanopb/pb_encode.c:381-384 | a tag and one element, or the error of either |
| Encoder.CheckProto3Default | Ijara/ijara/Pods/nanopb/pb_encode.c:240-337 | true exactly for a field whose slot, through any nesting of submessages, is at its zero value |
| Encoder.CheckAllDefault | Ijara/ijara/Pods/nanopb/pb_encode.c:296-308 | a submessage is default if and only if every one of its fields is |
| Encoder.WriteVarint | Ijara/ijara/Pods/nanopb/pb_encode.c:608-628 | emits the minimal varint of every 64-bit value |
| Encoder.FillVarint | Ijara/ijara/Pods/nanopb/pb_encode.c:619-625 | the byte loop leaves the minimal varint in the ten-byte buffer |
| Encoder.WriteSVarint | Ijara/ijara/Pods/nanopb/pb_encode.c:630-639 | emits the varint of the ZigZag form |
| Encoder.WriteFixed32 | Ijara/ijara/Pods/nanopb/pb_encode.c:641-650 | emits the four bytes, least significant first |
| Encoder.WriteFixed64 | Ijara/ijara/Pods/nanopb/pb_encode.c:653-666 | emits the eight bytes, least significant first |
| Encoder.WriteTag | Ijara/ijara/Pods/nanopb/pb_encode.c:669-673 | emits the varint of field number and wire type |
| Encoder.WriteTagForField | Ijara/ijara/Pods/nanopb/pb_encode.c:675-707 | the wire type follows the field type |
| Encoder.WriteString | Ijara/ijara/Pods/nanopb/pb_encode.c:709-715 | emits the length and then the bytes |
| Encoder.EncVarint | Ijara/ijara/Pods/nanopb/pb_encode.c:776-815 | signed and unsigned varint fields, sign-extended to 64 bits; other widths are an error |
| Encoder.EncSVarint | Ijara/ijara/Pods/nanopb/pb_encode.c:817-833 | ZigZag fields; other widths are an error |
| Encoder.EncBytes | Ijara/ijara/Pods/nanopb/pb_encode.c:852-871 | a bytes array longer than its field is an error |
| Encoder.EncString | Ijara/ijara/Pods/nanopb/pb_encode.c:873-897 | the buffer up to its first NUL or its size |
| Encoder.StringLength | Ijara/ijara/Pods/nanopb/pb_encode.c:889-893 | the loop stops at the first NUL of the buffer, or at its end |
| Encoder.EncScalar | Ijara/ijara/Pods/nanopb/pb_encode.c:55-68 | the dispatch on the field type |
| OutputStream.OStream.Write | Ijara/ijara/Pods/nanopb/pb_encode.c:103-124 | succeeds exactly when the bytes fit, or the stream only counts, and then the buffer holds them at the cursor and nothing else has changed |
| OutputStream.OStream.BufWrite | Ijara/ijara/Pods/nanopb/pb_encode.c:74-84 | copies the bytes and advances the cursor |
| OutputStream.OStream.Over | Ijara/ijara/Pods/nanopb/pb_encode.c:86-101 | a stream over part of a buffer |
| OutputStream.EmittedJoin | Ijara/ijara/Pods/nanopb/pb_encode.c:103-124 | writing one thing and then another is writing both, with success exactly when both fit |
| Decoder.PbDecode | Ijara/ijara/Pods/nanopb/pb_decode.c:1084-1096 | computes the decoding function on the bytes left; success leaves the end of the stream where it was, failure never moves it out |
| Decoder.PbDecodeDelimited | Ijara/ijara/Pods/nanopb/pb_decode.c:1113-1126 | success moves the parent past exactly the prefix and that many bytes, whatever fields or early zero word lie inside |
| Decoder.DecodeNoInit | Ijara/ijara/Pods/nanopb/pb_decode.c:934-1082 | records, last fixed-count array and required fields, as the decoding function has them, with the stream accounting; bytes_left is its termination measure |
| Decoder.DecodeRecords | Ijara/ijara/Pods/nanopb/pb_decode.c:952-1030 | the record loop computes the run over the bytes, with the iterator, the bitmap and the fixed-count state in step |
| Decoder.HandleRecord | Ijara/ijara/Pods/nanopb/pb_decode.c:966-1029 | one record: find, unknown field, or field, with the fixed-count switch |
| Decoder.DecodeKnown | Ijara/ijara/Pods/nanopb/pb_decode.c:997-1029 | one record of a field the search has found |
| Decoder.FinalChecks | Ijara/ijara/Pods/nanopb/pb_decode.c:1032-1079 | the checks after the last record |
| Decoder.CountRequired | Ijara/ijara/Pods/nanopb/pb_decode.c:1041-1055 | running the iterator to its end from any position recovers the number of required fields |
| Decoder.DecodeStaticField | Ijara/ijara/Pods/nanopb/pb_decode.c:406-483 | the wire type only chooses the packed path; every kind of field stores what the decoding function says |
| Decoder.DecodeArrayField | Ijara/ijara/Pods/nanopb/pb_decode.c:424-464 | packed runs and single elements go behind the elements already there, and a full array is an error |
| Decoder.DecodePackedField | Ijara/ijara/Pods/nanopb/pb_decode.c:426-456 | a packed run in its substream; success closes it, the overflow error does not |
| Decoder.DecodePackedRun | Ijara/ijara/Pods/nanopb/pb_decode.c:436-445 | elements until the substream or the array ends |
| Decoder.DecSubmessage | Ijara/ijara/Pods/nanopb/pb_decode.c:1525-1547 | defaults are set only for array elements, and closing skips what the message left unread |
| Decoder.DecScalar | Ijara/ijara/Pods/nanopb/pb_decode.c:68-81 | the dispatch on the field type |
| Decoder.DecBool | Ijara/ijara/Pods/nanopb/pb_decode.c:1334-1343 | any non-zero 32-bit varint is true |
| Decoder.DecVarint | Ijara/ijara/Pods/nanopb/pb_decode.c:1345-1380 | values that do not fit the field are an error |
| Decoder.DecUVarint | Ijara/ijara/Pods/nanopb/pb_decode.c:1382-1404 | values that do not fit the field are an error |
| Decoder.DecSVarint | Ijara/ijara/Pods/nanopb/pb_decode.c:1406-1428 | ZigZag values that do not fit the field are an error |
| Decoder.DecFixed | Ijara/ijara/Pods/nanopb/pb_decode.c:1299-1331 | four or eight bytes, least significant first |
| Decoder.DecBytes | Ijara/ijara/Pods/nanopb/pb_decode.c:1447-1485 | bytes over the size of the field are an error |
| Decoder.DecString | Ijara/ijara/Pods/nanopb/pb_decode.c:1487-1523 | strings with no room for their NUL are an error |
| Decoder.DecFixedLengthBytes | Ijara/ijara/Pods/nanopb/pb_decode.c:1549-1570 | an empty value clears the field, any other length must match |
| Decoder.MessageSetToDefaults | Ijara/ijara/Pods/nanopb/pb_decode.c:917-928 | every slot is at its default, nested submessages included |
| Decoder.FieldSetToDefault | Ijara/ijara/Pods/nanopb/pb_decode.c:845-915 | one field: flag, count or which_ word cleared and the value at its default |
| Decoder.MakeStringSubstream | Ijara/ijara/Pods/nanopb/pb_decode.c:372-385 | parent and substream share out the bytes: the substream has the delimited ones, the parent those behind |
| Decoder.CloseStringSubstream | Ijara/ijara/Pods/nanopb/pb_decode.c:387-400 | the parent goes on behind the substream, unread bytes skipped |
| Decoder.ReadTag | Ijara/ijara/Pods/nanopb/pb_decode.c:298-319 | a tag, the end of the message at the end of input or at a zero word, or an error |
| Decoder.Skip | Ijara/ijara/Pods/nanopb/pb_decode.c:321-331 | skips the payload of each wire type, and refuses the others |
| Decoder.SkipVarint | Ijara/ijara/Pods/nanopb/pb_decode.c:278-287 | skips one group |
| InputStream.IStream.Read | Ijara/ijara/Pods/nanopb/pb_decode.c:102-137 | reads exactly the bytes asked for, or fails; never out of bounds |
| InputStream.IStream.ReadByte | Ijara/ijara/Pods/nanopb/pb_decode.c:141-157 | the next byte, or failure at the end |
| InputStream.IStream.Skip | Ijara/ijara/Pods/nanopb/pb_decode.c:102-137 | a read without a destination: the cursor moves past the bytes, or fails |
| InputStream.IStream.DecodeVarint | Ijara/ijara/Pods/nanopb/pb_decode.c:255-275 | the loop computes the 64-bit decoding function |
| InputStream.IStream.DecodeVarint32Eof | Ijara/ijara/Pods/nanopb/pb_decode.c:187-247 | the loop computes the 32-bit decoding function, with its wrapping bit position, and tells the end of input before the first byte |
| AuthenticationInterceptor.RefreshIsSingleFlight | Ijara/ijara/Pods/Alamofire/Source/AuthenticationInterceptor.swift:250-402 | in every interleaving a refresh is outstanding exactly while isRefreshing, never two, and both queues are empty otherwise |
| AuthenticationInterceptor.CallsAreConserved | Ijara/ijara/Pods/Alamofire/Source/AuthenticationInterceptor.swift:250-402 | in every interleaving each completion is in exactly one place (queued, on the serial queue, on its thread, answered); none is called twice, and when all is quiet every one has been called |
| AuthenticationInterceptor.EveryAnswerIsGrounded | Ijara/ijara/Pods/Alamofire/Source/AuthenticationInterceptor.swift:276-317 | in every run requests are adapted only with a credential the interceptor was given and that needs no refresh, and every error comes from the authenticator or is missingCredential or excessiveRefresh |
| AuthenticationInterceptor.WaitingCallsGetTheResult | Ijara/ijara/Pods/Alamofire/Source/AuthenticationInterceptor.swift:370-402 | whatever happens afterwards, a retry that waits when a refresh succeeds is told to go ahead and nothing else, and a failure reaches every waiting call with the error of the authenticator |
| AuthenticationInterceptor.RefreshRateIsBounded | Ijara/ijara/Pods/Alamofire/Source/AuthenticationInterceptor.swift:330-368 | no closed window of the interval holds more recorded refresh starts than max(0, maximumAttempts), though check and record read the clock separately |
| AuthenticationAnswers.AnswersAreDecided | Ijara/ijara/Pods/Alamofire/Source/AuthenticationInterceptor.swift:250-402 | in every run a call is told an answer if and only if some step decided it: the credential held at the lock, a missing credential only where none was held, an excessive refresh only with the window full, the end of a refresh for those that wait; and it is told nothing else |
| AuthenticationAnswers.AdaptUsesTheCredentialHeld | Ijara/ijara/Pods/Alamofire/Source/AuthenticationInterceptor.swift:251-274 | whatever happens afterwards, a call that takes the adapt lock while nothing refreshes is told the fit credential then held, or that it is missing, or that the refresh is excessive |
| AuthenticationAnswers.StepTells | Ijara/ijara/Pods/Alamofire/Source/AuthenticationInterceptor.swift:250-402 | exactly the deciding steps add to what calls are told, and no step takes an answer back |
| AuthenticationAnswers.CredentialIsLatest | Ijara/ijara/Pods/Alamofire/Source/AuthenticationInterceptor.swift:370-371 | in every run the credential held is the one set or refreshed to most recently |
| AuthenticationAnswers.RefreshWithRoomStarts | Ijara/ijara/Pods/Alamofire/Source/AuthenticationInterceptor.swift:330-341 | in every run a call that needs a refresh with room in the window starts it, records the attempt and waits for its end |
| AuthenticationAnswers.EveryAttemptIsRecorded | Ijara/ijara/Pods/Alamofire/Source/AuthenticationInterceptor.swift:330-353 | in every run the recorded attempts are the refreshes queued, outstanding or answered |
| AuthenticationInterceptor.StepKeeps | Ijara/ijara/Pods/Alamofire/Source/AuthenticationInterceptor.swift:250-402 | no single step loses or duplicates a completion or starts a second refresh |
| AuthenticationInterceptor.Interceptor.AdaptInLock | Ijara/ijara/Pods/Alamofire/Source/AuthenticationInterceptor.swift:251-274 | the locked part of adapt: deferred behind a refresh, refused without a credential, deferred with a new refresh, or answered |
| AuthenticationInterceptor.Interceptor.RetryInLock | Ijara/ijara/Pods/Alamofire/Source/AuthenticationInterceptor.swift:319-325 | the locked part of retry: queued, and a refresh started unless one is under way |
| AuthenticationInterceptor.Interceptor.StartRefreshing | Ijara/ijara/Pods/Alamofire/Source/AuthenticationInterceptor.swift:330-353 | refused when excessive, otherwise recorded and dispatched |
| AuthenticationInterceptor.Interceptor.IsRefreshExcessive | Ijara/ijara/Pods/Alamofire/Source/AuthenticationInterceptor.swift:355-368 | the counting loop compares the attempts since the window began with the maximum |
| AuthenticationInterceptor.Interceptor.HandleRefreshSuccess | Ijara/ijara/Pods/Alamofire/Source/AuthenticationInterceptor.swift:370-386 | queues emptied, deferred adapts re-adapted and retries told to go ahead, in order |
| AuthenticationInterceptor.Interceptor.HandleRefreshFailure | Ijara/ijara/Pods/Alamofire/Source/AuthenticationInterceptor.swift:388-402 | queues emptied and every caller given the error, in order |
| RequestTaskMap.CompletionsRunOnce | Ijara/ijara/Pods/Alamofire/Source/Session.swift:1229-1250 | in every run each completion is run once, with its own closure, when both events have arrived in either order, and not before |
| RequestTaskMap.MapsStayInverse | Ijara/ijara/Pods/Alamofire/Source/RequestTaskMap.swift:47-148 | in every run the two maps are mutually inverse with events for the same tasks, and exactly the tasks that completed without metrics wait |
| RequestTaskMap.NeverFatal | Ijara/ijara/Pods/Alamofire/Source/RequestTaskMap.swift:115-148 | no event URLSession owes is ever a consistency error |
| RequestTaskMap.AssociateIsConsistentIff | Ijara/ijara/Pods/Alamofire/Source/RequestTaskMap.swift:62-86 | a setter keeps the maps mutually inverse if and only if neither side is paired with something else |
| RequestTaskMap.DissociateIsConsistent | Ijara/ijara/Pods/Alamofire/Source/RequestTaskMap.swift:50-81 | letting a task go keeps the maps mutually inverse |
| RequestTaskMap.Session.ClearTask | Ijara/ijara/Pods/Alamofire/Source/RequestTaskMap.swift:71-81 | all three dictionaries are cleared in step |
| RequestTaskMap.Session.DisassociateIfNecessaryAfterGatheringMetrics | Ijara/ijara/Pods/Alamofire/Source/RequestTaskMap.swift:115-125 | metrics before completion are recorded, metrics after it let the task go |
| RequestTaskMap.Session.DisassociateIfNecessaryAfterCompletion | Ijara/ijara/Pods/Alamofire/Source/RequestTaskMap.swift:127-148 | completion before metrics is recorded, after them, or without metrics at all, it lets the task go |
| RequestTaskMap.Session.DidGatherMetrics | Ijara/ijara/Pods/Alamofire/Source/Session.swift:1229-1238 | runs and forgets the waiting completion when the task is let go |
| RequestTaskMap.Session.DidCompleteTask | Ijara/ijara/Pods/Alamofire/Source/Session.swift:1240-1250 | runs the completion now or keeps it waiting |
| RequestState.NewestTaskMirrorsRequest | Ijara/ijara/Pods/Alamofire/Source/Session.swift:1095-1142 | in every interleaving with the separate steps of task creation, the newest live task was last told to resume, to suspend, or to resume and cancel, as its request is resumed, suspended or cancelled, and a cancellation reaches the task or finishes the request |
| RequestState.ReopeningMirrorsIff | Ijara/ijara/Pods/Alamofire/Source/Request.swift:533-549 | in every run, appending a serializer breaks the mirror if and only if it reopens a finished request with a live task that was finished from another state than resumed or, if the task was only updated while finished, whose last move before that was another |
| RequestState.ReopeningCanBreakTheMirror | Ijara/ijara/Pods/Alamofire/Source/Request.swift:537-539 | a concrete run that does |
| RequestState.CancelledIsForever | Ijara/ijara/Pods/Alamofire/Source/Request.swift:50-63 | a cancelled request stays cancelled in every run |
| RequestState.CanTransition | Ijara/ijara/Pods/Alamofire/Source/Request.swift:50-63 | which transitions there are, as a rule rather than a table |
| RequestState.Request.Cancel | Ijara/ijara/Pods/Alamofire/Source/Request.swift:669-689 | transition, and the newest live task is resumed and cancelled, or the request finished |
| RequestState.Request.Suspend | Ijara/ijara/Pods/Alamofire/Source/Request.swift:695-710 | transition, and the newest live task is suspended |
| RequestState.Request.Resume | Ijara/ijara/Pods/Alamofire/Source/Request.swift:716-731 | transition, and the newest live task is resumed |
| RequestState.Request.UpdateStatesForTask | Ijara/ijara/Pods/Alamofire/Source/Session.swift:1121-1142 | the new task is told what the state of the request asks for |
| DataStreamRequest.CounterCountsInvocations | Ijara/ijara/Pods/Alamofire/Source/ResponseSerialization.swift:1145-1249 | in every run numberOfExecutingStreams is the number of handler invocations outstanding, and completion events are held back only while it is positive |
| DataStreamRequest.CompletionsReleasedOnce | Ijara/ijara/Pods/Alamofire/Source/Request.swift:1393-1412 | in every run each completion event is in one place only, is released once, and never while a handler invocation is outstanding |
| DataStreamRequest.EveryStreamGetsTheData | Ijara/ijara/Pods/Alamofire/Source/Request.swift:1316-1330 | in every run the handler of each stream is invoked with exactly the pieces received since the stream was added, each once and in order |
| DataStreamRequest.StreamRequest.DidReceive | Ijara/ijara/Pods/Alamofire/Source/Request.swift:1316-1330 | one invocation is counted and launched for every stream there is |
| DataStreamRequest.StreamRequest.UpdateAndCompleteIfPossible | Ijara/ijara/Pods/Alamofire/Source/ResponseSerialization.swift:1239-1249 | one invocation less; the last one releases everything held back |
| DataStreamRequest.StreamRequest.StreamCompletion | Ijara/ijara/Pods/Alamofire/Source/Request.swift:1397-1408 | held back while handlers execute, released otherwise |
| MultipartEncoding.StreamingEqualsInMemory | Ijara/ijara/Pods/Alamofire/Source/MultipartFormData.swift:347-371 | whatever chunks the bodies arrive in and however writes are split while the output keeps taking something, the bytes streamed out are those encode returns |
| MultipartEncoding.WriteTakesRoom | Ijara/ijara/Pods/Alamofire/Source/MultipartFormData.swift:493-509 | the write loop writes exactly as much as there is room for; an error is reported if and only if one ended the room, and running out of space drops the rest without one |
| MultipartEncoding.FormIsWrittenIff | Ijara/ijara/Pods/Alamofire/Source/MultipartFormData.swift:347-371 | a form is written without error and without loss if and only if no write of it runs out of room |
| MultipartEncoding.OnlyEncodeChecksLength | Ijara/ijara/Pods/Alamofire/Source/MultipartFormData.swift:424-428 | a body of another length than declared makes encode throw and is streamed out all the same |
| MultipartEncoding.EncodesMultipartBody | Ijara/ijara/Pods/Alamofire/Source/MultipartFormData.swift:322-338 | what encode returns for a form with parts is a multipart body of RFC 2046 section 5.1.1 |
| MultipartEncoding.ReceivesPartsIff | Ijara/ijara/Pods/Alamofire/Source/MultipartFormData.swift:64-77 | a receiver that splits at delimiters gets back exactly the parts if and only if none contains the delimiter, for every boundary without a carriage return |
| MultipartEncoding.HeadersRoundTrip | Ijara/ijara/Pods/Alamofire/Source/MultipartFormData.swift:394-400 | a header parser with literal colons, line ends and an empty line reads the headers and the body back |
| MultipartEncoding.ReceivesFieldsAndBodies | Ijara/ijara/Pods/Alamofire/Source/MultipartFormData.swift:322-338 | so the receiver of a form gets the headers and the body of every part |
| MultipartEncoding.SplitIff | Ijara/ijara/Pods/Alamofire/Source/MultipartFormData.swift:64-77 | the same for any texts between delimiters |
| MultipartFormData.FormData.Encode | Ijara/ijara/Pods/Alamofire/Source/MultipartFormData.swift:322-338 | the parts in order, with the first and last boundaries, or the first error |
| MultipartFormData.FormData.WriteEncodedData | Ijara/ijara/Pods/Alamofire/Source/MultipartFormData.swift:347-371 | the writes of each part in order, up to the first error |
| MultipartFormData.FormData.MarkEnds | Ijara/ijara/Pods/Alamofire/Source/MultipartFormData.swift:365-366 | the first part opens the form and the last one closes it, also when they are the same |
| MultipartFormData.FormData.EncodeBodyPart | Ijara/ijara/Pods/Alamofire/Source/MultipartFormData.swift:375-392 | boundary, headers, body and, for the last part, the final boundary |
| MultipartFormData.FormData.WriteBodyPart | Ijara/ijara/Pods/Alamofire/Source/MultipartFormData.swift:435-440 | the same pieces as separate writes |
| MultipartFormData.EncodeBodyStream | Ijara/ijara/Pods/Alamofire/Source/MultipartFormData.swift:402-431 | everything the stream delivers, if that is the declared length |
| MultipartFormData.WriteBodyStream | Ijara/ijara/Pods/Alamofire/Source/MultipartFormData.swift:452-476 | every chunk is written as it is read |
| MultipartFormData.OutputStream.WriteBuffer | Ijara/ijara/Pods/Alamofire/Source/MultipartFormData.swift:493-509 | the partial-write loop computes the write of a whole buffer |

## Left out

- Pointer-allocated fields, `PB_ENABLE_MALLOC`, `pb_release` and `pb_release_union_field`: heap ownership is not modelled; every field is static.
- Callback fields, extensions and custom stream callbacks: calls into code that is not in the repository. The extension search is modelled on descriptors without extensions.
- `pb_decode_delimited_noinit`, `pb_decode_nullterminated` and `read_raw_value`: wrappers, or used only by callbacks and extensions.
- The build variants `PB_WITHOUT_64BIT`, `PB_BUFFER_ONLY` and `PB_ENCODE_ARRAYS_UNPACKED`, and error-message strings.
- `size_t` arithmetic that wraps: sizes are natural numbers, cast to 64 bits where the code casts them; the width of `pb_size_t` is left open as 1, 2 or 4 bytes.
- NULL sources and destinations, a NULL submessage descriptor, and `data_size` values smaller than the C type needs.
- C struct padding and byte-level aliasing: a struct is a sequence of slots, one a field, passed in and handed back as a value. What a string or bytes buffer holds behind the bytes of its value reads as zero, and so does an undefined element of a fixed-count array; array elements behind the count are unspecified.
- The contents of the struct after a failed decode.
- Descriptors with duplicate tags (the round trip, the required fields and the imperative decoder and encoder assume distinct ones, as the generator makes them).
- RoundTrip.MessageRoundTrip: assumes messages whose length-delimited parts are shorter than 2^32 bytes, the most the decoder can read back, and no default value behind a proto3 singular field, which the decoder would put where the encoder left out a zero.
- RoundTrip.DelimitedRoundTrip: the same bound for the whole message.
- Varint.Varint32AgreesWith64: states nothing about 32-bit varints of more than ten bytes, which the 32-bit decoder can still accept because its bit position wraps.
- Concatenation.ConcatenationIsMerge: an `a` that a zero tag word ends is left to RunEnds, which says that nothing behind the zero is read.
- Authenticator, request and server are parameters: `apply`, `didRequest` and `isRequest` appear as the choices of a step. The freshness of the credential that retry read before taking the lock is not claimed, and liveness (that an authenticator answers) is not either.
- Floating-point rounding of timestamps: they are real numbers.
- AuthenticationInterceptor.RefreshRateIsBounded: assumes a clock that does not go back and a window that is not replaced, as in the source.
- RequestTaskMap.CompletionsRunOnce: assumes that tasks are fresh, that a request gets a new task only after its old one has been let go, and that URLSession delivers each event once; the Linux branch is the one without metrics.
- RequestState.NewestTaskMirrorsRequest: leaves out runs in which a serializer reopens a finished request with a live task that was not last told to resume; ReopeningMirrorsIff says when that step breaks the property.
- Response serializers and their completions, validators, retry policies, redirect and cache handlers, progress and event monitors of `Request`.
- DataStreamRequest.CompletionsReleasedOnce: assumes that each completion closure is run at most once; serializers appended during the final flush are not modelled. The output stream of a data stream request and the serializers themselves are left out.
- MultipartEncoding.StreamingEqualsInMemory: a first encoding of parts with distinct streams; encoding the same form again is not modelled, since boundary flags persist and input streams are used up. File existence and file URL checks, MIME types and content headers are left out; text is given as its UTF-8 bytes.
- MultipartEncoding.HeadersRoundTrip: header names without a colon or a carriage return and values without a carriage return; others are not escaped by the source and read back differently.
- WireFormat.ReceiverWithoutField: the field taken away is not the first of several members of a union, since the next one carries no offset of its own.
- MultipartEncoding.ReceivesPartsIff: boundaries without a carriage return, which section 5.1.1 of RFC 2046 does not allow in one.
- `URLSession`, dispatch queue internals, TLS trust evaluation, reachability, Combine and async wrappers, the generated table of BoringSSL, FSCalendar and the screens of the app: platform calls, generated data or user interface.
