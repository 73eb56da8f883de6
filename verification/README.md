# A model of the tansu protocol codec and its protocols

tansu is a broker that speaks the Apache Kafka protocol. This project models the
parts of it whose correctness is a matter of argument rather than of I/O, and
proves what they promise.

**The codec.** Messages are described by metadata (`Schema`), from which Rust types
are generated (`Types`). `Grammar` says, field by field, what bytes a value of
those types stands for at a version and how such bytes are read: it is a
stateless reference. `Encoder` and `Decoder` are the two state machines of the
source, with a stack of field lists, the field and container being visited, a
pending length and flags; each is proved to compute exactly what the reference
says, errors included, for every well-formed message, every value, every version
and every starting capacity of the buffer. What the codec is for is then proved of
the reference, and so of the machines: the round trip (`RoundTrip`, `Messages`;
`Batches` for record sets and `Utf8` for strings), the bytes themselves, written out
for whole messages without the metadata (`Layout`), what malformed bytes are refused
with (`Refusals`), prefix-freeness (`PrefixFree`, `Suffix`), framing and whole frames (`FrameGrammar`,
`Frames`), the records splice (`Buffers`, `Encoder`), the soundness of the
decoder's table of structures (`Schema`, `Resolution`), which structures no bytes
decode as (`Unreadable`), variable-length integers (`Varint`) and the allocation
estimate (`Allocation`, `Overruns`). The conditions on a message (`WellFormed`) are those that
the repository's request and response descriptors meet; `Descriptors` has the ones
that matter most, whole, with proofs that they do.

**Protocols over runs.** `Consumer` is a consumer-group member and
`HeartbeatService` the service that drives it and counts heartbeats; `Pool` is the
client's pool of connections, with cancellation or failure wherever a round trip
waits, `Completion` and `Schedules` say when one is completed, and `Connections` has
the object; `Authorizer` is the cache of access rules with refreshes interleaving
freely, over the rules of `Acl`. Main results hold after every finite sequence of
steps.

## Where the code falls short of the law

- The round trip does not hold for every value that encodes. `Decodable` is the
  exact condition, and `Messages.MessageRoundTrip` proves it both ways. Not read
  back are: a null byte string; a string, byte string or record set over the
  maximum message size; a batch whose length is not that of its bytes; a batch of
  another magic than two that holds anything but its magic, since the decoder
  empties it (`Batches.OldBatchIsEmptied`); more than 128 tagged fields; a tagged field of more than 128 bytes; a
  tag buffer left out of a flexible version; and the structures and record sets of
  the next two points. A batch that is wrong about its length moves the decoder off
  the boundaries of the batches after it, and `Batches.BatchesRoundTrip` shows that
  it never gets back onto them and reads the same.
  The null byte string is that of `EnvelopeRequest` and `EnvelopeResponse`, and the
  decoder answers `Overflow` to it (`Messages.EmptyEnvelopeRefused`).
- The decoder finds a structure's fields by its type name, in a table that does
  not list single structures below the top level; `Resolution.ResolvesExactly` says
  when that is as good as descending to them. Where it is not, the structure starts
  with a sequence, which is then read without its length, and which nothing but an
  error ends. Two messages have one: `ConsumerGroupDescribeResponse` and
  `ShareGroupDescribeResponse`, in the `Assignment` of a member. No bytes decode as
  either with a member in it (`Unreadable.NoMemberDecodes`).
- A record set is generated without an `Option` if it is mandatory and not nullable.
  The encoder then writes neither its length nor its records, and the decoder reads
  batches without end. That is so in one message, `FetchSnapshotResponse`: no bytes
  decode as one with a partition in it (`Unreadable.NoPartitionDecodes`). Having the
  `Option` is the exact condition (`Unreadable.RecordsReadExactly`).
- `maximum_allocation_size` is documented as an upper bound. A frame is as long as
  its estimate and an excess that is read off the frame without encoding it
  (`Allocation.FrameIsThatLong`), so the estimate is an upper bound if and only if
  the excess is not positive (`Allocation.FitsExactly`). What is never charged for
  is the length in front of a record set and the byte in front of a present nullable
  structure. The first is the practical one: outside the flexible versions every
  partition with records of a `ProduceRequest` is three bytes longer than its estimate, so records
  for two partitions of a topic, with a client id, already make a frame that is longer
  (`Overruns.ProduceFitsExactly`, `Overruns.RecordSetsAreNotCharged`).
  `Overruns.PresenceIsNotCharged` is a `DescribeTopicPartitionsRequest` that is one
  byte longer; it takes some two million topics, because the estimate has a few bytes
  to spare on every shorter sequence. Since the splice reserves what it needs, a low
  estimate costs a reallocation and nothing else.
- The client's `frame_length` takes a negative prefix for a length, and the client
  panics: for minus four to minus one the buffer is too short for the prefix, and for
  anything less it is longer than a buffer can be (`Frames.NegativePrefix`). The
  server's refuses it. Wrapping is that of a release build, here and in the length of
  a record set.
- A member that holds an assignment of version zero does not advertise what it
  owns, and one that holds an assignment of a version over three cannot rejoin
  (`Consumer.JoinRequested`, `Consumer.FailsExactly`;
  `Consumer.FirstAssignmentIsNotAdvertised` and `Consumer.UnsupportedAssignmentIsFatal`
  are such runs). A timeout is sent as it is configured if and only if
  it is under 2^31 milliseconds (`Consumer.TimeoutCarried`).

## Model

| member | source | states |
|---|---|---|
| `Varint.RoundTrip` | tansu-sans-io/src/de.rs:315-346 | decoding undoes encoding for every `u32`, whatever follows |
| `Varint.EncodedLength` | tansu-sans-io/src/ser.rs:207-217 | an encoding is one to five bytes, by the size of the value |
| `Varint.Minimal` | tansu-sans-io/src/ser.rs:207-217 | no shorter sequence of bytes decodes to the value |
| `Varint.EncodedAt` | tansu-sans-io/src/ser.rs:207-217 | which seven bits are in which byte, and that all but the last byte are marked |
| `Base.BigEndianAt` | tansu-sans-io/src/ser.rs:357-403 | which byte of a number is where: the most significant first |
| `Base.SignedAt` | tansu-sans-io/src/ser.rs:314-367 | likewise of a signed number, whose negatives are in two's complement |
| `Varint.AccumulateInRange` | tansu-sans-io/src/de.rs:322-341 | the checked addition never fails; at shift 28 the high three bits of the byte are lost |
| `Varint.OverflowExactly` | tansu-sans-io/src/de.rs:315-346 | overflow is reported if and only if five continuation bytes are followed by a sixth byte |
| `Varint.AtMostSixBytesRead` | tansu-sans-io/src/de.rs:315-346 | what is decoded depends on the first six bytes of a stream alone |
| `Varint.ReadFromExtends` | tansu-sans-io/src/de.rs:315-346 | bytes after a complete integer are left as they are |
| `Schema.TableListsExactly` | tansu-model/src/lib.rs:783-803 | the table lists every top-level structure and every sequence of structures at any depth, and nothing else |
| `Schema.ListedIsFound` | tansu-model/src/lib.rs:843-867 | with unique type names, an entry of the table is found by its name, or one with the same fields is |
| `Schema.TableAgreesWithDescent` | tansu-sans-io/src/de.rs:945-961 | for a listed structure the table gives the same fields as the encoder's descent to it |
| `Schema.FindSound` | tansu-sans-io/src/ser.rs:73-85 | a field found by name is one of the list, with that name |
| `Types.TypesAreSound` | tansu-sans-io/build.rs:150-166 | down the whole tree, a field generated without `Option` is valid wherever the struct around it is, so the encoder skips none that the decoder reads regardless |
| `Types.BareIsValid` | tansu-model/src/lib.rs:254-273 | a mandatory field of a valid struct is valid and not nullable |
| `Types.MandatoryExactly` | tansu-model/src/lib.rs:260-273 | a range is mandatory in its parent's if and only if it starts no later and ends with it, and at the top if and only if it is every version |
| `Types.FieldValues` | tansu-sans-io/build.rs:140-166 | which values a generated field type has: bare, or an option of the present type |
| `Resolution.MessageResolves` | tansu-sans-io/src/de.rs:945-961 | with unique type names, every structure of a message is found with its own fields, or is flat, or starts with a sequence |
| `Resolution.ListedExactly` | tansu-model/src/lib.rs:783-803 | a type name is found in the table if and only if a structure of that type is a top-level field or in a sequence |
| `Resolution.ResolvesExactly` | tansu-sans-io/src/de.rs:945-976 | the decoder finds a structure's fields, or does without them, if and only if it is listed, or flat and not named like a message |
| `Descriptors.AssignmentIsNotListed` | tansu-model/src/lib.rs:843-867 | `Assignment` is in the table of neither `ConsumerGroupDescribeResponse` nor `ShareGroupDescribeResponse` |
| `Descriptors.ConsumerDescribeIsWellFormed` | tansu-sans-io/message/ConsumerGroupDescribeResponse.json:16-97 | this descriptor meets the conditions of the round trip |
| `Descriptors.ShareDescribeIsWellFormed` | tansu-sans-io/message/ShareGroupDescribeResponse.json:16-86 | so does this one |
| `Descriptors.SnapshotIsWellFormed` | tansu-sans-io/message/FetchSnapshotResponse.json:16-71 | so does this one, with its record set that is not nullable |
| `Descriptors.EnvelopeIsWellFormed` | tansu-sans-io/message/EnvelopeResponse.json:16-30 | so does this one, with its nullable byte string |
| `Descriptors.ProduceIsWellFormed` | tansu-sans-io/message/ProduceRequest.json:15-63 | so does this one, with its nullable record set |
| `Descriptors.DescribeTopicPartitionsIsWellFormed` | tansu-sans-io/message/DescribeTopicPartitionsRequest.json:16-40 | so does this one, with its nullable structure |
| `Unreadable.BaseNeverReads` | tansu-sans-io/src/de.rs:962-976 | no bytes decode as a structure that is not in the table and starts with a sequence, that holds a record set with no `Option`, or that cannot be without such a structure |
| `Unreadable.ReadsExactly` | tansu-sans-io/src/de.rs:945-988 | and from some bytes every other structure decodes |
| `Unreadable.RecordsReadExactly` | tansu-sans-io/build.rs:155-166 | a record set decodes from some bytes if and only if it has an `Option` around it, as every nullable one has |
| `Unreadable.NothingUnreadable` | tansu-sans-io/src/de.rs:931-988 | whatever the bytes, a message that decodes holds no structure of an unreadable type, at any depth |
| `Unreadable.NoMemberDecodes` | tansu-sans-io/message/ConsumerGroupDescribeResponse.json:52-97 | no bytes decode as a description of consumer or share groups with a member in it |
| `Unreadable.NoPartitionDecodes` | tansu-sans-io/message/FetchSnapshotResponse.json:32-58 | no bytes decode as a fetched snapshot with a partition in it |
| `Unreadable.TopicPartitionsTakeBytes` | tansu-sans-io/src/de.rs:1378-1405 | each topic read without end takes at least sixteen bytes, so that there is an end |
| `Suffix.FieldsLeave` | tansu-sans-io/src/de.rs:1423-1452 | reading the fields of any struct leaves the end of what there was |
| `RoundTrip.FieldRoundTrip` | tansu-sans-io/src/de.rs:687-800 | a field's bytes, followed by anything, are read back as its normalised value if and only if it is decodable |
| `RoundTrip.FieldsRoundTrip` | tansu-sans-io/src/de.rs:931-988 | the same of the fields of a struct and its tag buffer |
| `RoundTrip.ElementsRoundTrip` | tansu-sans-io/src/de.rs:1378-1405 | the same of the elements of a sequence |
| `RoundTrip.NullRoundTrip` | tansu-sans-io/src/ser.rs:468-517 | the same of an absent field, by kind and flexibility |
| `RoundTrip.RecordsRoundTrip` | tansu-sans-io/src/de.rs:705-726 | a record set is read back, an empty one as absent, if and only if it is within the maximum size and its batches are sound |
| `Batches.BatchesRoundTrip` | tansu-sans-io/src/record/deflated.rs:95-228 | batches are read back if and only if each batch's length is that of its bytes and it is of magic two, or has nothing but its magic |
| `Batches.AcceptedExactly` | tansu-sans-io/src/de.rs:1078-1097 | of any bytes: a batch is read if and only if its length is there and at least 5, or 49 for magic two; and what each of the others is refused with |
| `Batches.OldBatchIsEmptied` | tansu-sans-io/src/record/deflated.rs:121-130 | a batch of another magic than two, of the right length, is read as its offset, length and magic alone |
| `Batches.ReadPast` | tansu-sans-io/src/de.rs:1065-1102 | from any later point than its start, no record set is read as itself |
| `Batches.ReadBefore` | tansu-sans-io/src/de.rs:1065-1102 | nor with any number of zeros before it |
| `Utf8.EncodedIsValid` | tansu-sans-io/src/de.rs:602-634 | every encoding of Unicode scalar values is a string, and the values are read off it |
| `Utf8.ValidIsEncoded` | tansu-sans-io/src/de.rs:602-634 | and no other bytes are |
| `RoundTrip.TagsRoundTrip` | tansu-sans-io/src/primitive/tagged.rs:269-301 | a tag buffer is read back if and only if it has at most 128 fields of at most 128 bytes |
| `RoundTrip.NullBytesRefused` | tansu-sans-io/src/ser.rs:468-517 | in a flexible version a null byte string is written as zero, and the decoder answers `Overflow` |
| `RoundTrip.NullBytesTakeWhatFollows` | tansu-sans-io/src/de.rs:659-685 | outside them, where no message has one, it would be written as nothing, and what follows read in its place |
| `PrefixFree.FieldExtends` | tansu-sans-io/src/de.rs:687-800 | reading a field leaves whatever bytes come after it |
| `PrefixFree.FieldsExtend` | tansu-sans-io/src/de.rs:1423-1452 | reading the fields of a struct does too |
| `Messages.MessageRoundTrip` | tansu-sans-io/src/ser.rs:852-887 | a message's bytes, followed by anything, are read back as the normalised message with exactly that left over, if and only if it is decodable |
| `Messages.EmptyEnvelopeRefused` | tansu-sans-io/message/EnvelopeResponse.json:23-29 | an `EnvelopeResponse` without data is a message, encodes at every version, and is refused with `Overflow` |
| `Messages.PrefixRefused` | tansu-sans-io/src/de.rs:687-800 | no proper prefix of a decodable message's encoding decodes |
| `Messages.PrefixFreeAndInjective` | tansu-sans-io/src/ser.rs:409-606 | if one decodable encoding is a prefix of another they are the same bytes and the same normalised message |
| `Messages.RefusedExactlyWhenOmitted` | tansu-sans-io/src/ser.rs:468-517 | when lengths fit, encoding fails if and only if a field valid at the version, not nullable and not records is absent, and with that error |
| `Buffers.BytesMut.SplitOff` | tansu-sans-io/src/ser.rs:553-555 | splitting keeps every byte and the whole capacity; it needs the offset within capacity |
| `Encoder.Encoder.ForRequest` | tansu-sans-io/src/ser.rs:132-142 | the state an encoder of requests starts in |
| `Encoder.Encoder.ForResponse` | tansu-sans-io/src/ser.rs:144-166 | the state an encoder of responses starts in, with the message of the key if there is one |
| `Encoder.Encoder.UnsignedVarint` | tansu-sans-io/src/ser.rs:207-217 | the loop appends the encoding of its value |
| `Encoder.Encoder.SerializeScalar` | tansu-sans-io/src/ser.rs:308-403 | fixed-width values in big-endian; in a request header the key and version are noted and the message looked up |
| `Encoder.Encoder.SerializeStr` | tansu-sans-io/src/ser.rs:410-439 | a string after its length, compact or short, or the error if the length does not fit |
| `Encoder.Encoder.SerializeBytes` | tansu-sans-io/src/ser.rs:441-466 | a byte string after its length |
| `Encoder.Encoder.SerializeNone` | tansu-sans-io/src/ser.rs:468-517 | what stands for an absent field, or the refusal of one that cannot be |
| `Encoder.Encoder.SplitPastLength` | tansu-sans-io/src/ser.rs:551-555 | for every capacity the split is within bounds and loses nothing |
| `Encoder.Encoder.SpliceRecords` | tansu-sans-io/src/ser.rs:532-594 | for every capacity the splice leaves what appending the length and then the batches would |
| `Encoder.Encoder.EncodeBatches` | tansu-sans-io/src/ser.rs:958-1015 | batches one after another, past what is in the buffer |
| `Encoder.Encoder.SerializeTag` | tansu-sans-io/src/primitive/tagged.rs:68-91 | a tagged field: tag, length and payload |
| `Encoder.Encoder.SerializeTags` | tansu-sans-io/src/primitive/tagged.rs:235-253 | a tag buffer: its count and each field |
| `Encoder.Encoder.SerializeSome` | tansu-sans-io/src/ser.rs:519-606 | a present optional field: records spliced, otherwise its presence byte and value as the reference has them |
| `Encoder.Encoder.PutPresence` | tansu-sans-io/src/ser.rs:600-602 | the presence byte of a nullable single structure and of nothing else |
| `Encoder.Encoder.SerializeLooseRecords` | tansu-sans-io/src/ser.rs:659-677 | a record set with no `Option` is written without its length |
| `Encoder.Encoder.SerializeLooseBatch` | tansu-sans-io/src/ser.rs:441-466 | and each batch without its records |
| `Encoder.Encoder.SerializeSeq` | tansu-sans-io/src/ser.rs:659-677 | the length in front of a sequence, when the field is valid |
| `Encoder.Encoder.SerializeElements` | tansu-sans-io/src/ser.rs:743-760 | the elements of a sequence are written as the reference has them |
| `Encoder.Encoder.SerializeStruct` | tansu-sans-io/src/ser.rs:709-723 | a struct is written as the reference has its fields, and the stack is as it was |
| `Encoder.Encoder.SerializeFields` | tansu-sans-io/src/ser.rs:847-887 | the fields of a struct, each found by name on the stack or through the message, and the tag buffer |
| `Encoder.Encoder.SerializeField` | tansu-sans-io/src/ser.rs:852-881 | one field: skipped outside its versions, else written as the reference has it |
| `Encoder.Encoder.SerializeUnlisted` | tansu-sans-io/src/ser.rs:181-192 | a field without metadata is written plainly |
| `Encoder.Encoder.SerializeHeader` | tansu-sans-io/src/ser.rs:889-935 | a header as the reference has it; the client id is never compact, and an API versions response has no tag buffer |
| `Encoder.Encoder.SerializeFrame` | tansu-sans-io/src/lib.rs:606-624 | a whole frame as the reference has it, from either starting state |
| `Layout.ScalarBytes` | tansu-sans-io/src/ser.rs:308-403 | the bytes of every value of a fixed width, by kind |
| `Layout.ScalarIsItsBytes` | tansu-sans-io/src/de.rs:364-568 | any bytes of that width are the bytes of the value read from them; any byte but zero is true |
| `Layout.BatchesAreWritten` | tansu-sans-io/src/record/deflated.rs:71-93 | a record set is, batch by batch, eight bytes of offset, four of length and the rest |
| `Layout.TagsAreWritten` | tansu-sans-io/src/primitive/tagged.rs:235-253 | a tag buffer is the number of tags, and of each its tag, its length and its payload |
| `Layout.ProduceIsWritten` | tansu-sans-io/message/ProduceRequest.json:15-63 | every `ProduceRequest`, at every version, is the bytes written out from its data alone, as in tansu-sans-io/tests/golden.rs |
| `Layout.DescribeIsWritten` | tansu-sans-io/message/DescribeTopicPartitionsRequest.json:16-40 | so is every `DescribeTopicPartitionsRequest`, with 255 for no cursor and 1 before one |
| `Layout.EnvelopeIsWritten` | tansu-sans-io/message/EnvelopeResponse.json:16-30 | so is every `EnvelopeResponse`, with zero for no data |
| `Layout.HeaderIsWritten` | tansu-sans-io/src/lib.rs:786-811 | so is every header, with a short client id, and with no tags for the answer to key 18 |
| `Layout.FrameIsWritten` | tansu-sans-io/src/lib.rs:590-597 | every frame is the length of the rest in four bytes, most significant first, its header and its message |
| `Decoder.Decoder.ForRequest` | tansu-sans-io/src/de.rs:134-149 | the state a decoder of requests starts in |
| `Decoder.Decoder.ForResponse` | tansu-sans-io/src/de.rs:151-180 | the state a decoder of responses starts in, with the message of the key and its table if there is one |
| `Decoder.Decoder.UnsignedVarint` | tansu-sans-io/src/de.rs:315-346 | the loop reads what the reference reads, errors included |
| `Decoder.Decoder.ReadMandatoryNonNullableLength` | tansu-sans-io/src/de.rs:254-313 | exactly when a length is read, in which form, and what it may be |
| `Decoder.Decoder.DeserializeScalar` | tansu-sans-io/src/de.rs:364-568 | fixed-width values; in a request header the key finds the message and its table |
| `Decoder.Decoder.DeserializeString` | tansu-sans-io/src/de.rs:602-634 | a string whose length was read or is read first, refused over the maximum size or if it is not UTF-8 |
| `Decoder.Decoder.DeserializeByteBuf` | tansu-sans-io/src/de.rs:659-685 | a byte string likewise |
| `Decoder.Decoder.DecodeBatches` | tansu-sans-io/src/de.rs:1055-1102 | the batches of a record set, consumed from its front, as the reference reads them: a short one refused, one of another magic emptied |
| `Decoder.Decoder.DeserializeTag` | tansu-sans-io/src/primitive/tagged.rs:105-137 | a tagged field, refused over 128 bytes |
| `Decoder.Decoder.DeserializeTags` | tansu-sans-io/src/primitive/tagged.rs:269-301 | a tag buffer, refused over 128 fields |
| `Decoder.Decoder.DeserializeOption` | tansu-sans-io/src/de.rs:687-800 | an optional field of any kind is read as the reference reads it |
| `Decoder.Decoder.DeserializeSeq` | tansu-sans-io/src/de.rs:848-893 | the elements of a sequence of known length are read as the reference reads them |
| `Decoder.Decoder.DeserializeRecordSeq` | tansu-sans-io/src/de.rs:873-886 | a record set of known size, refused over the maximum size |
| `Decoder.Decoder.DeserializeStruct` | tansu-sans-io/src/de.rs:931-988 | a struct found by type name, or not found, is read as the reference reads it, and the stack is as it was |
| `Decoder.Decoder.DeserializeFields` | tansu-sans-io/src/de.rs:1423-1452 | the fields of a struct in order, and the tag buffer |
| `Decoder.Decoder.DeserializeField` | tansu-sans-io/src/de.rs:1426-1452 | one field, with its metadata or, in a flat struct, without |
| `Decoder.Decoder.DeserializeLooseRecords` | tansu-sans-io/src/de.rs:848-893 | a record set with no `Option` is read as the reference has it: batches until there is an error |
| `Decoder.Decoder.DeserializeEndless` | tansu-sans-io/src/de.rs:1378-1405 | a sequence whose length was not read ends in the error that the reference has |
| `Decoder.Decoder.DeserializeUnlisted` | tansu-sans-io/src/de.rs:967-976 | so does a structure that is not listed and starts with a sequence |
| `Decoder.Decoder.DeserializeRequestHeader` | tansu-sans-io/src/lib.rs:786-811 | a request header, after which the message and its table are those of the key read |
| `Decoder.Decoder.DeserializeResponseHeader` | tansu-sans-io/src/lib.rs:786-811 | a response header, without a tag buffer for API versions |
| `Decoder.Decoder.DeserializeRequestFrame` | tansu-sans-io/src/lib.rs:626-634 | a whole request frame as the reference reads it, from any bytes |
| `Decoder.Decoder.DeserializeResponseFrame` | tansu-sans-io/src/lib.rs:657-664 | a whole response frame likewise, refused if the key is not known |
| `Refusals.ShortLength` | tansu-sans-io/src/de.rs:757-775 | of any two bytes: the length they are, null, or refused |
| `Refusals.LongLength` | tansu-sans-io/src/de.rs:737-752 | of any four bytes likewise; of bytes and records they are never negative |
| `Refusals.CompactLength` | tansu-sans-io/src/de.rs:727-736 | a compact length is one less, and zero is null or `Overflow` |
| `Refusals.TextAfterLength` | tansu-sans-io/src/de.rs:602-634 | which strings are refused over the size, for want of bytes, and for not being UTF-8, in that order |
| `Refusals.PresenceByte` | tansu-sans-io/src/de.rs:776-789 | a nullable structure is absent if and only if the byte in front has its top bit set |
| `Refusals.TagLimits` | tansu-sans-io/src/primitive/tagged.rs:269-301 | over 128 tags, or bytes in one, are refused before they are read |
| `Frames.FixLength` | tansu-sans-io/src/lib.rs:590-597 | the first four bytes become the length of the rest, or the error if it does not fit |
| `Frames.FrameLengthOf` | tansu-service/src/lib.rs:452-456 | the length of every prefix: the number in it and four, or refused if and only if it is negative |
| `Frames.LengthsAgree` | tansu-client/src/lib.rs:799-801 | the client's and the server's lengths agree if and only if the prefix is not negative |
| `Frames.NegativePrefix` | tansu-client/src/lib.rs:728-735 | every negative prefix is refused by the server and a panic of the client, whose buffer would be too short for the prefix or longer than any |
| `Frames.NextFrameProgress` | tansu-service/src/lib.rs:452-456 | taking a frame off a stream loses no byte and shortens it by at least four |
| `Frames.SplitUndoesJoin` | tansu-service/src/lib.rs:452-456 | splitting the concatenation of any frames by the server's length gives the same frames |
| `Frames.ClientSplitUndoesJoin` | tansu-client/src/lib.rs:728-754 | and by the client's |
| `Frames.ReadFrame` | tansu-service/src/stream.rs:644-684 | reading in chunks of 64 KiB takes exactly the next frame, or fails as it should |
| `Frames.EncodeRequest` | tansu-sans-io/src/lib.rs:606-624 | an encoded request is the reference's frame with its length in front |
| `Frames.EncodeResponse` | tansu-sans-io/src/lib.rs:636-655 | an encoded response likewise |
| `Frames.DecodeRequest` | tansu-sans-io/src/lib.rs:626-634 | decoding a request reads what the reference reads |
| `Frames.DecodeResponse` | tansu-sans-io/src/lib.rs:657-664 | decoding a response to any key reads what the reference reads |
| `Frames.RequestRoundTrip` | tansu-sans-io/src/lib.rs:606-634 | an encoded request frame, followed by anything, is read back with its length as its size, if and only if its body is decodable |
| `Frames.ResponseRoundTrip` | tansu-sans-io/src/lib.rs:636-664 | an encoded response frame likewise |
| `Allocation.SumFields` | tansu-sans-io/build.rs:802-834 | the generated running total is the allowance for tags and the sum of the fields |
| `Allocation.FrameIsThatLong` | tansu-sans-io/src/lib.rs:582-588 | at every version every frame, tagged fields present or not, is exactly as long as its estimate and its excess |
| `Allocation.FitsExactly` | tansu-sans-io/src/lib.rs:165-197 | the estimate is an upper bound of a frame if and only if its excess is not positive |
| `Allocation.EncodesExactly` | tansu-sans-io/src/lib.rs:590-597 | a frame that can be written is encoded if and only if its estimate and excess are within four bytes' length |
| `Allocation.FieldsLength` | tansu-sans-io/src/lib.rs:199-294 | the fields of any struct are exactly as long as their charge and their excess |
| `Allocation.EstimateCoversFrame` | tansu-sans-io/src/lib.rs:582-588 | a frame with no tagged field present, and lengths that fit the estimate's prefixes, is no longer than the estimate and the bytes that are never charged for |
| `Allocation.FieldsBound` | tansu-sans-io/src/lib.rs:199-294 | the excess of such a struct is at most the bytes that are never charged for |
| `Allocation.ShortExactly` | tansu-sans-io/src/lib.rs:212-258 | in a flexible version a string is within its estimate if and only if it is at most 16382 bytes, a byte string at most 2^28 - 2 |
| `Overruns.ProduceFitsExactly` | tansu-sans-io/message/ProduceRequest.json:15-63 | outside the flexible versions every request to produce can be written, and is within its estimate if and only if four times its record sets are at most its partitions, its topics and the few bytes its header and transactional id have to spare |
| `Overruns.RecordSetsAreNotCharged` | tansu-sans-io/src/ser.rs:573-580 | records for n partitions of a topic make a frame exactly 3n - 5 bytes longer than its estimate |
| `Overruns.PresenceIsNotCharged` | tansu-sans-io/src/ser.rs:600-602 | a well-formed request with a present nullable structure whose frame is one byte longer than its estimate |
| `Layout.EnvelopeIsCharged` | tansu-sans-io/src/lib.rs:212-216 | what an `EnvelopeResponse` is charged, in figures |
| `Layout.SnapshotIsCharged` | tansu-sans-io/src/lib.rs:183-201 | what a `FetchSnapshotResponse` is charged, with six bytes for the tagged field it declares |
| `Consumer.GroupConsumer.NextAction` | tansu-sans-io/src/consumer.rs:664-1013 | after each call the object is in the state, and returned the outcome, of the conversation so far |
| `Consumer.GroupConsumer.AfterJoin` | tansu-sans-io/src/consumer.rs:685-826 | the new state and request for each answer to a join |
| `Consumer.GroupConsumer.AfterSync` | tansu-sans-io/src/consumer.rs:828-909 | the new state and request for each answer to a sync |
| `Consumer.GroupConsumer.AfterHeartbeat` | tansu-sans-io/src/consumer.rs:911-1007 | the new state and request for each answer to a heartbeat |
| `Consumer.EveryRequestCarries` | tansu-sans-io/src/consumer.rs:664-1013 | in every run the member is an outsider exactly when it last asked to join, and a leader exactly when the latest successful join elected it; a sync or heartbeat carries the generation of the latest successful join; every request carries the latest member id granted since the member was last unknown, or the empty id; a join advertises the assignment of the last successful sync with no successful join or unknown member since, says why, and carries the configured timeouts as 32 bits; a sync carries the assignor's shares if the member leads, and none if not |
| `Consumer.JoinRequested` | tansu-sans-io/src/consumer.rs:595-662 | a join names each assignor once with the assignment held, as far as its version can say it, and fails exactly for a version that is not encoded |
| `Consumer.HeldSince` | tansu-sans-io/src/consumer.rs:828-909 | the assignment of a sync is held until the next, a successful join or an unknown member |
| `Consumer.JoinAdvertisesHeld` | tansu-sans-io/src/consumer.rs:595-662 | in every run a join by a member holding an assignment is of its version for each of the four assignors, with the very partitions in it from version one on and the generation from version two |
| `Consumer.JoinAdvertisesNothing` | tansu-sans-io/src/consumer.rs:595-662 | and by one holding none, of version three with no partitions |
| `Consumer.LeaderAssigns` | tansu-sans-io/src/consumer.rs:765-792 | a leader has the partitions assigned by the assignor the group chose, if it is one of the four, and by "range" otherwise |
| `Consumer.PanicsExactly` | tansu-sans-io/src/consumer.rs:1009-1012 | the next call panics if and only if the answer is not one the last request accepts |
| `Consumer.NeverPanics` | tansu-sans-io/src/consumer.rs:664-1013 | a run never panics if and only if each answer is one the request before it accepts |
| `Consumer.FailsExactly` | tansu-sans-io/src/consumer/codec.rs:51-97 | a call fails if and only if the assignor fails, the assignment does not decode, or the member must rejoin holding a version it cannot advertise |
| `Consumer.UnsupportedAssignmentIsFatal` | tansu-sans-io/src/consumer/codec.rs:51-97 | a follower given an assignment of a version outside zero to three fails, with that version, at the next rebalance |
| `Consumer.FirstAssignmentIsNotAdvertised` | tansu-sans-io/src/consumer/codec.rs:51-97 | and one given an assignment of version zero rejoins advertising nothing, whatever it holds |
| `Consumer.TimeoutCarried` | tansu-sans-io/src/consumer.rs:656-657 | a join carries the low 32 bits of a timeout, signed: as configured if and only if it is under 2^31 milliseconds |
| `Consumer.EveryAssignmentIsAnnounced` | tansu-sans-io/src/consumer.rs:851-858 | after any run in which no call panicked, the callback was given the assignment of each successful sync, once and in order, and nothing else |
| `Consumer.TallyIsConserved` | tansu-sans-io/src/consumer.rs:693-1000 | after any run in which no call panicked, failed calls included, the tally of each code is how many answers had it, there are no other codes, and the tallies sum to the answers consumed |
| `HeartbeatService.ConsumerGroupService.Serve` | tansu-service/src/consumer.rs:196-259 | one exchange: what is returned, for each outcome of the member and of the inner service; only an answered one changes the count, which is always the length of the trailing run of heartbeat responses |
| `HeartbeatService.ConsumerGroupService.StableHeartbeatCount` | tansu-service/src/consumer.rs:142-147 | that length, or nothing when the last response was not a heartbeat's |
| `HeartbeatService.TrailingIsTheRun` | tansu-service/src/consumer.rs:234-255 | what is counted is the longest run of heartbeat responses at the end |
| `HeartbeatService.OneGeneration` | tansu-service/src/consumer.rs:196-259 | when each output is the next input, the heartbeat requests of that run all carried one generation |
| `Connections.Connection.Recycle` | tansu-client/src/lib.rs:309-327 | a connection is accepted exactly when it is not marked, and then nothing on it is unread |
| `Connections.Connection.WriteAll` | tansu-client/src/lib.rs:699-726 | whatever happens while writing, a request that was written is owed exactly its answer, and it is written if the schedule spells that |
| `Connections.Connection.ReadExact` | tansu-client/src/lib.rs:728-754 | whatever happens while reading, what was read is the front of that answer, and it is read if the schedule spells that |
| `Connections.Connection.Serve` | tansu-client/src/lib.rs:756-796 | a round trip returns the answer to its own request and unmarks the connection, or leaves it marked; which, is what the steps spelled by its schedule lead to |
| `Connections.Connection.ReadResponse` | tansu-client/src/lib.rs:728-754 | the length and then the rest of a response, as far as the schedule spells it |
| `Schedules.DrivenIsSpelled` | tansu-client/src/lib.rs:756-796 | where a schedule leads is the fold of single steps over those it spells |
| `Schedules.AnsweredExactly` | tansu-client/src/lib.rs:756-796 | if the peer answers, a round trip returns that answer if and only if the writes add up to the request and the reads to the answer; else the connection stays marked |
| `Completion.FinishesExactly` | tansu-client/src/lib.rs:786-792 | in every sound state a response can be returned if and only if the whole of the answer has been read |
| `Completion.EveryRoundTripCanFinish` | tansu-client/src/lib.rs:756-796 | whatever has happened in a pool, a round trip not given up can be completed |
| `Pool.EveryLinkIsSound` | tansu-client/src/lib.rs:756-796 | the invariant of every connection after every interleaving of round trips, cancellations, failures and peers |
| `Pool.EveryAnswerIsItsOwn` | tansu-client/src/lib.rs:756-796 | completed round trips returned, one for one and in order, what the peer answered to those requests |
| `Pool.RecycledIsQuiet` | tansu-client/src/lib.rs:309-327 | a connection handed out has nothing unread, in transit or unanswered |
| `Pool.AbortedIsNeverReused` | tansu-client/src/lib.rs:317-325 | a connection given up mid-way is never written to or read again |
| `Acl.SliceDecides` | tansu-storage/src/acl.rs:235-289 | the rules listed by a MATCH filter on a resource decide every question about it as all the rules do |
| `Acl.SliceIsWhatSelects` | tansu-storage/src/acl.rs:235-289 | they are exactly the rules that select the resource |
| `Acl.EverythingMatches` | tansu-storage/src/acl.rs:220-232 | the filter that selects everything does |
| `Acl.ListedExactly` | tansu-storage/src/acl.rs:235-299 | a rule is listed if and only if it meets each of a filter's seven constraints; other than for MATCH, a name lists only rules of that name |
| `Acl.OneRuleAllows` | tansu-storage/src/acl.rs:334-359 | exactly which questions one rule allows, by its fields |
| `Acl.OneRuleDenies` | tansu-storage/src/acl.rs:334-359 | and exactly which a denial takes away from any other rules |
| `Acl.DeniesExactly` | tansu-storage/src/acl.rs:103-148 | which questions a rule denies, by its fields |
| `Acl.PermitsExactly` | tansu-storage/src/acl.rs:150-179 | which it permits, by its fields and what operations come with others |
| `Acl.AllIsEach` | tansu-storage/src/acl.rs:138-148 | among any rules, one about all operations is the same as one about each |
| `Acl.OnlySelectingMatter` | tansu-storage/src/acl.rs:334-359 | two sets of rules that agree on those selecting a resource decide alike |
| `Acl.ConfinedExactly` | tansu-storage/src/acl.rs:103-123 | a rule selects only names starting with a prefix if and only if it is prefixed at or below it, or literal on a name below it and not the wildcard |
| `Acl.NonInterference` | tansu-storage/src/acl.rs:103-123 | adding any such rules changes no decision on a name outside the prefix |
| `Acl.GrantsNeverRevoke` | tansu-storage/src/acl.rs:334-359 | adding grants revokes nothing, and gives only what one of them speaks to |
| `Acl.DenialsNeverGrant` | tansu-storage/src/acl.rs:334-359 | adding denials grants nothing, and takes away exactly what one of them covers |
| `Acl.DenialIsNotWidened` | tansu-storage/src/acl.rs:161-179 | denying what implies an operation does not deny the operation |
| `Acl.MayDescribe` | tansu-storage/src/acl.rs:152-179 | whoever may read, write, delete or alter a resource may describe it if and only if no rule denies just that, and likewise for its configuration |
| `Authorizer.Authorizer.Begin` | tansu-storage/src/authorizer.rs:139-187 | up to the read: an answer for a super user or from a fresh snapshot, else none yet |
| `Authorizer.Authorizer.Complete` | tansu-storage/src/authorizer.rs:188-226 | after the read: what was read is the snapshot, or the last one serves, or there is a denial |
| `Authorizer.EveryStateIsSound` | tansu-storage/src/authorizer.rs:184-226 | the invariant of the cache and of every answer, after every interleaving of questions, reads and time |
| `Authorizer.AnswersAreGenuine` | tansu-storage/src/authorizer.rs:139-226 | every answer is what the rules held by the store at some instant say; unless its own read failed, that instant is within the time to live and the length of the read that fetched them |
| `Authorizer.SuperUsersBypass` | tansu-storage/src/authorizer.rs:131-149 | super users are always allowed, and nobody else without rules that allowed it |
| `Authorizer.NeverDeniedForWant` | tansu-storage/src/authorizer.rs:176-184 | once there has been a snapshot no question is denied for want of one |
| `Authorizer.HeldIsLatestRead` | tansu-storage/src/authorizer.rs:184-214 | in every history what is held is what the latest read returned, and when |
| `Authorizer.AnsweredAtOnce` | tansu-storage/src/authorizer.rs:139-187 | a question is answered at once if and only if a super user asks or the latest read is less than the time to live ago, and then by what it returned |
| `Authorizer.AnsweredInTheEnd` | tansu-storage/src/authorizer.rs:188-214 | one that waited is answered by its own read, or if that failed by the latest one, or if there is none denied |
| `Authorizer.EveryAnswerIsLatest` | tansu-storage/src/authorizer.rs:139-226 | every answer from a cached snapshot, in every history, rests on the latest read before it |

## Left out

- Segment storage, offset arbitration, compaction, the group coordinator and quotas: not modelled.
- SASL, TLS, the accept loop, draining, metrics, builders and command lines: input, output and plumbing.
- The inside of a record batch, compression and checksums: a batch is an offset, a length and bytes, of which the first 49 are of a fixed width and the fifth is the magic.
- Tagged fields' own values: a tag buffer is modelled as tags and payloads, not as what the payloads decode to, and the conversions between public and serialised types are not modelled; what the estimate charges for such a value is a parameter.
- Floating point: the eight bytes of a number are kept as such.
- The field path in an error, `message_max_size` overrides, and the parts of the codec no message uses (tuples, maps, units, newtypes).
- `Decoder.Decoder.DeserializeStruct`: a structure that the table does not list, that is not flat and that starts with something other than a sequence of structures is outside its precondition; no message has one.
- `Frames.EncodeResponse`: the key given is that of the body; with another, the encoder would look fields up in the wrong message.
- Arithmetic on `correlation_id`, tallies and counters does not wrap.
- `Allocation.EstimateCoversFrame`: one way only, as the excess is what is exact; frames with tagged fields present are left to `Allocation.FrameIsThatLong`.
- `Consumer.GroupConsumer.NextAction`: decoding an assignment and assigning partitions are parameters; what the callback does is not modelled.
- `HeartbeatService.ConsumerGroupService.Serve`: the sleep after a heartbeat is not modelled; the inner service is a parameter.
- `Connections.Connection.Serve`: what happens at each wait is a parameter, and so is the peer, which answers in order with one frame each.
- `Authorizer.Authorizer.Complete`: a poisoned lock is not modelled; the clock and the store are parameters.
- Conversions of error codes and of the numbers standing for resource types, patterns, operations and permissions: finite tables.
