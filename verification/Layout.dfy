/**
 The bytes themselves. Three messages of the repository, and the frames around
 them, are written out byte by byte as the Apache Kafka protocol guide lays them
 out, from their own data and with no metadata; the codec's grammar gives exactly
 those bytes, for all data and at every version. One lemma apart, nothing here is about
 reading.
 */
module Layout {
  import opened Base
  import opened Schema
  import opened Types
  import opened Grammar
  import opened Messages
  import opened FrameGrammar
  import opened Frames
  import opened Descriptors
  import opened Allocation
  import opened Overruns
  import Utf8
  import Varint

  // ---------------------------------------------------------------------
  // Numbers

  /** Division and remainder are towards minus infinity, so these are the two's complement as well. */
  function Two(n: int): (r: Bytes) {
    [n / 0x100 % 256, n % 256]
  }

  function Four(n: int): (r: Bytes) {
    [n / 0x100_0000 % 256, n / 0x1_0000 % 256, n / 0x100 % 256, n % 256]
  }

  function Eight(n: int): (r: Bytes) {
    [n / 0x100_0000_0000_0000 % 256, n / 0x1_0000_0000_0000 % 256, n / 0x100_0000_0000 % 256, n / 0x1_0000_0000 % 256,
     n / 0x100_0000 % 256, n / 0x1_0000 % 256, n / 0x100 % 256, n % 256]
  }

  lemma Powers()
    ensures Pow256(0) == 1 && Pow256(1) == 0x100 && Pow256(2) == 0x1_0000 && Pow256(3) == 0x100_0000
    ensures Pow256(4) == 0x1_0000_0000 && Pow256(5) == 0x100_0000_0000 && Pow256(6) == 0x1_0000_0000_0000
    ensures Pow256(7) == 0x100_0000_0000_0000
  {
  }

  lemma SignedBytes(n: int)
    ensures FitsSigned(n, 1) ==> Signed(n, 1) == [n % 256]
    ensures FitsSigned(n, 2) ==> Signed(n, 2) == Two(n)
    ensures FitsSigned(n, 4) ==> Signed(n, 4) == Four(n)
  {
    Powers();
    if FitsSigned(n, 1) {
      SignedAt(n, 1, 0);
    }
    if FitsSigned(n, 2) {
      SignedAt(n, 2, 0);
      SignedAt(n, 2, 1);
    }
    if FitsSigned(n, 4) {
      SignedAt(n, 4, 0);
      SignedAt(n, 4, 1);
      SignedAt(n, 4, 2);
      SignedAt(n, 4, 3);
    }
  }

  lemma LongBytes(n: int)
    requires FitsSigned(n, 8)
    ensures Signed(n, 8) == Eight(n)
  {
    Powers();
    SignedAt(n, 8, 0);
    SignedAt(n, 8, 1);
    SignedAt(n, 8, 2);
    SignedAt(n, 8, 3);
    SignedAt(n, 8, 4);
    SignedAt(n, 8, 5);
    SignedAt(n, 8, 6);
    SignedAt(n, 8, 7);
  }

  lemma UnsignedBytes(n: nat)
    ensures BigEndian(n, 2) == Two(n) && BigEndian(n, 4) == Four(n)
  {
    Powers();
    BigEndianAt(n, 2, 0);
    BigEndianAt(n, 2, 1);
    BigEndianAt(n, 4, 0);
    BigEndianAt(n, 4, 1);
    BigEndianAt(n, 4, 2);
    BigEndianAt(n, 4, 3);
  }

  lemma UnsignedLongBytes(n: nat)
    ensures BigEndian(n, 8) == Eight(n)
  {
    Powers();
    BigEndianAt(n, 8, 0);
    BigEndianAt(n, 8, 1);
    BigEndianAt(n, 8, 2);
    BigEndianAt(n, 8, 3);
    BigEndianAt(n, 8, 4);
    BigEndianAt(n, 8, 5);
    BigEndianAt(n, 8, 6);
    BigEndianAt(n, 8, 7);
  }

  /** Every value of a fixed width. */
  lemma ScalarBytes(s: Scalar, v: Value)
    requires HasScalarType(v, s)
    ensures WireScalar(s, v) == match s
                                case Bool => if v.b then [1] else [0]
                                case Int8 => [v.n % 256]
                                case Int16 => Two(v.n)
                                case Int32 => Four(v.n)
                                case Int64 => Eight(v.n)
                                case UInt16 => Two(v.n)
                                case Float64 => Eight(v.n)
                                case Uuid => v.u
  {
    match s {
      case Bool =>
      case Uuid =>
      case UInt16 => UnsignedBytes(v.n);
      case Float64 => UnsignedLongBytes(v.n);
      case Int64 => LongBytes(v.n);
      case _ => SignedBytes(v.n);
    }
  }

  /** And every string of bytes of that width is what is written for the value read from it, but for booleans. */
  lemma ScalarIsItsBytes(s: Scalar, b: Bytes)
    requires |b| == Width(s)
    ensures HasScalarType(ScalarFrom(s, b), s)
    ensures if s.Bool? then ScalarFrom(s, b) == VBool(b != [0]) else WireScalar(s, ScalarFrom(s, b)) == b
  {
    match s {
      case Bool => assert b == [b[0]];
      case Uuid =>
      case UInt16 => FromBigEndianBound(b); BigEndianInverse(b);
      case Float64 => FromBigEndianBound(b); BigEndianInverse(b);
      case _ => SignedInverse(b);
    }
  }

  // ---------------------------------------------------------------------
  // Lengths, strings and record sets

  /** A short length in front of a string, or one more than it in groups of seven bits. */
  function Text(flexible: bool, s: Bytes): (r: Bytes) {
    (if flexible then Varint.Encode(|s| + 1) else Two(|s|)) + s
  }

  /** No string: a length of minus one, or of zero. */
  function NoText(flexible: bool): (r: Bytes) {
    if flexible then [0] else [255, 255]
  }

  function Count(flexible: bool, n: nat): (r: Bytes) {
    if flexible then Varint.Encode(n + 1) else Four(n)
  }

  function NoTags(flexible: bool): (r: Bytes) {
    if flexible then [0] else []
  }

  function BatchBytes(batches: seq<Batch>): (r: Bytes) {
    if batches == [] then []
    else Eight(batches[0].baseOffset) + Four(batches[0].batchLength) + batches[0].body + BatchBytes(batches[1..])
  }

  function Records(flexible: bool, records: Option<seq<Batch>>): (r: Bytes) {
    match records
    case None => if flexible then [1] else [0, 0, 0, 0]
    case Some(batches) =>
      var data := BatchBytes(batches);
      (if flexible then Varint.Encode((|data| + 1) % U32_LIMIT) else Four(|data|)) + data
  }

  lemma {:induction false} BatchesAreWritten(batches: seq<Batch>)
    requires AreBatches(batches)
    ensures WireBatches(batches) == BatchBytes(batches)
  {
    if batches != [] {
      LongBytes(batches[0].baseOffset);
      SignedBytes(batches[0].batchLength);
      BatchesAreWritten(batches[1..]);
    }
  }

  // ---------------------------------------------------------------------
  // Fields of known descriptors

  predicate Valid(c: Ctx) {
    0 <= c.version <= I16_MAX
  }

  /** No tags at the end of a struct. */
  lemma {:induction false} EndIsWritten(c: Ctx, fields: Fields, vs: seq<NamedValue>)
    requires fields == [] && vs == [NO_TAGS]
    ensures WireFields(c, fields, vs) == Ok(NoTags(c.flexible))
  {
    var none: seq<TagField> := [];
    assert Varint.Encode(0) == [0] && [0] + [] == [0];
    assert WireTags(none) == Ok(Varint.Encode(0) + []);
    assert WireFields(c, fields, vs) == WireTagBuffer(c, vs[0].value);
  }

  lemma {:induction false} ConsIsWritten(c: Ctx, fields: Fields, vs: seq<NamedValue>, first: Bytes, others: Bytes)
    requires fields != [] && vs != [] && fields[0].meta.tag.None?
    requires WireField(c, fields[0].meta, vs[0].value) == Ok(first) && WireFields(c, fields[1..], vs[1..]) == Ok(others)
    ensures WireFields(c, fields, vs) == Ok(first + others)
  {
  }

  /** A structure of two fields. */
  lemma {:induction false} PairIsWritten(c: Ctx, fm: FieldMeta, v: Value, first: Bytes, second: Bytes)
    requires fm.BaseKind().Named? && |fm.fields| == 2 && v.VStruct? && |v.fields| == 3 && v.fields[2] == NO_TAGS
    requires fm.fields[0].meta.tag.None? && WireField(c, fm.fields[0].meta, v.fields[0].value) == Ok(first)
    requires fm.fields[1].meta.tag.None? && WireField(c, fm.fields[1].meta, v.fields[1].value) == Ok(second)
    ensures WireBase(c, fm, v) == Ok(first + (second + NoTags(c.flexible)))
  {
    var fields, vs := fm.fields, v.fields;
    EndIsWritten(c, fields[1..][1..], vs[1..][1..]);
    ConsIsWritten(c, fields[1..], vs[1..], second, NoTags(c.flexible));
    ConsIsWritten(c, fields, vs, first, second + NoTags(c.flexible));
  }

  lemma {:induction false} SequenceIsWritten(c: Ctx, fm: FieldMeta, vs: seq<Value>, body: Bytes)
    requires fm.version.Within(c.version) && fm.kind.SequenceOf?
    requires |vs| <= 0x7fff_ffff && WireElements(c, fm, vs) == Ok(body)
    ensures WireField(c, fm, VSome(VVec(vs))) == Ok(Count(c.flexible, |vs|) + body)
  {
    UnsignedBytes(|vs|);
    assert WirePresent(c, fm, VVec(vs)) == Ok(Count(c.flexible, |vs|) + body);
    assert [] + (Count(c.flexible, |vs|) + body) == Count(c.flexible, |vs|) + body;
  }

  lemma NumbersAreWritten(c: Ctx, n: int)
    requires Valid(c)
    ensures FitsSigned(n, 2) ==> WireField(c, INT16, VInt(n)) == Ok(Two(n))
    ensures FitsSigned(n, 4) ==> WireField(c, INT32, VInt(n)) == Ok(Four(n))
  {
    var v := VInt(n);
    SignedBytes(n);
    assert WirePresent(c, INT16, v) == WireBase(c, INT16, v) && WirePresent(c, INT32, v) == WireBase(c, INT32, v);
  }

  lemma StringIsWritten(c: Ctx, s: Bytes)
    requires Valid(c) && |s| <= 0x7fff
    ensures WireField(c, STRING, VString(s)) == Ok(Text(c.flexible, s))
  {
    var v := VString(s);
    UnsignedBytes(|s|);
    assert WirePresent(c, STRING, v) == WireBase(c, STRING, v);
  }

  lemma {:induction false} RecordSetIsWritten(c: Ctx, fm: FieldMeta, batches: seq<Batch>)
    requires fm.version.Within(c.version) && fm.kind.RecordsKind? && fm.fields == []
    requires AreBatches(batches) && |WireBatches(batches)| < U32_LIMIT
    ensures WireField(c, fm, VSome(VRecords(batches))) == Ok(Records(c.flexible, Some(batches)))
  {
    var v, bytes := VRecords(batches), Records(c.flexible, Some(batches));
    BatchesAreWritten(batches);
    UnsignedBytes(|BatchBytes(batches)|);
    assert WirePresent(c, fm, v) == Ok(bytes);
    assert [] + bytes == bytes;
  }

  lemma {:induction false} RecordsAreWritten(c: Ctx, records: Option<seq<Batch>>)
    requires Valid(c)
    requires records.Some? ==> AreBatches(records.value) && |WireBatches(records.value)| < U32_LIMIT
    ensures WireField(c, NULLABLE_RECORDS, RecordsValue(records)) == Ok(Records(c.flexible, records))
  {
    if records.Some? {
      RecordSetIsWritten(c, NULLABLE_RECORDS, records.value);
    }
  }

  // ---------------------------------------------------------------------
  // Requests to produce

  function PartitionBytes(flexible: bool, p: Partition): (r: Bytes) {
    Four(p.index) + (Records(flexible, p.records) + NoTags(flexible))
  }

  function PartitionsBytes(flexible: bool, partitions: seq<Partition>): (r: Bytes) {
    if partitions == [] then []
    else PartitionBytes(flexible, partitions[0]) + PartitionsBytes(flexible, partitions[1..])
  }

  function TopicBytes(flexible: bool, t: Topic): (r: Bytes) {
    Text(flexible, t.name)
    + (Count(flexible, |t.partitions|) + PartitionsBytes(flexible, t.partitions) + NoTags(flexible))
  }

  function TopicsBytes(flexible: bool, topics: seq<Topic>): (r: Bytes) {
    if topics == [] then [] else TopicBytes(flexible, topics[0]) + TopicsBytes(flexible, topics[1..])
  }

  function TransactionalBytes(version: int, id: Option<Bytes>): (r: Bytes) {
    if version < 3 then [] else if id.None? then NoText(version >= 9) else Text(version >= 9, id.value)
  }

  /** A `ProduceRequest`, whatever it says. */
  function ProduceBytes(version: int, p: Produce): (r: Bytes) {
    var flexible := version >= 9;
    TransactionalBytes(version, p.transactionalId)
    + (Two(p.acks)
       + (Four(p.timeout)
          + (Count(flexible, |p.topics|) + TopicsBytes(flexible, p.topics) + NoTags(flexible))))
  }

  lemma {:induction false} PartitionIsWritten(c: Ctx, p: Partition)
    requires Valid(c) && IsPartition(p)
    ensures WireBase(c, PARTITION_DATA, PartitionValue(p)) == Ok(PartitionBytes(c.flexible, p))
  {
    NumbersAreWritten(c, p.index);
    RecordsAreWritten(c, p.records);
    PairIsWritten(c, PARTITION_DATA, PartitionValue(p), Four(p.index), Records(c.flexible, p.records));
  }

  lemma {:induction false} PartitionsAreWritten(c: Ctx, partitions: seq<Partition>)
    requires Valid(c) && forall i :: 0 <= i < |partitions| ==> IsPartition(partitions[i])
    ensures WireElements(c, PARTITION_DATA, PartitionValues(partitions)) == Ok(PartitionsBytes(c.flexible, partitions))
  {
    if partitions != [] {
      PartitionIsWritten(c, partitions[0]);
      PartitionsAreWritten(c, partitions[1..]);
      assert PartitionValues(partitions)[1..] == PartitionValues(partitions[1..]);
    }
  }

  lemma {:induction false} TopicIsWritten(c: Ctx, t: Topic)
    requires Valid(c) && IsTopic(t)
    ensures WireBase(c, TOPIC_DATA, TopicValue(t)) == Ok(TopicBytes(c.flexible, t))
  {
    StringIsWritten(c, t.name);
    PartitionsAreWritten(c, t.partitions);
    var body := PartitionsBytes(c.flexible, t.partitions);
    SequenceIsWritten(c, PARTITION_DATA, PartitionValues(t.partitions), body);
    PairIsWritten(c, TOPIC_DATA, TopicValue(t), Text(c.flexible, t.name), Count(c.flexible, |t.partitions|) + body);
  }

  lemma {:induction false} TopicsAreWritten(c: Ctx, topics: seq<Topic>)
    requires Valid(c) && forall i :: 0 <= i < |topics| ==> IsTopic(topics[i])
    ensures WireElements(c, TOPIC_DATA, TopicValues(topics)) == Ok(TopicsBytes(c.flexible, topics))
  {
    if topics != [] {
      TopicIsWritten(c, topics[0]);
      TopicsAreWritten(c, topics[1..]);
      assert TopicValues(topics)[1..] == TopicValues(topics[1..]);
    }
  }

  lemma {:induction false} TransactionalIsWritten(c: Ctx, id: Option<Bytes>)
    requires Valid(c) && (c.flexible <==> c.version >= 9) && (id.Some? ==> IsText(id.value))
    ensures WireField(c, TRANSACTIONAL_ID, TransactionalValue(id)) == Ok(TransactionalBytes(c.version, id))
  {
    if id.Some? {
      var v := VString(id.value);
      UnsignedBytes(|id.value|);
      assert WirePresent(c, TRANSACTIONAL_ID, v) == WireBase(c, TRANSACTIONAL_ID, v) == Ok(Text(c.flexible, id.value));
      assert [] + Text(c.flexible, id.value) == Text(c.flexible, id.value);
    }
  }

  /** Every request to produce is written as those bytes, at every version. */
  lemma {:induction false} ProduceIsWritten(version: int, p: Produce)
    requires IsProduce(p) && 0 <= version <= I16_MAX
    ensures WireMessage(PRODUCE_REQUEST, version, ProduceValue(p)) == Ok(ProduceBytes(version, p))
  {
    var c := ContextOf(PRODUCE_REQUEST, version);
    TransactionalIsWritten(c, p.transactionalId);
    NumbersAreWritten(c, p.acks);
    NumbersAreWritten(c, p.timeout);
    TopicsAreWritten(c, p.topics);
    SequenceIsWritten(c, TOPIC_DATA, TopicValues(p.topics), TopicsBytes(c.flexible, p.topics));
    FourAreWritten(
      c, PRODUCE_REQUEST.fields, ProduceValue(p).fields, TransactionalBytes(version, p.transactionalId), Two(p.acks),
      Four(p.timeout), Count(c.flexible, |p.topics|) + TopicsBytes(c.flexible, p.topics));
  }

  /** A message of four fields. */
  lemma {:induction false} FourAreWritten(
    c: Ctx, fields: Fields, vs: seq<NamedValue>, first: Bytes, second: Bytes, third: Bytes, fourth: Bytes)
    requires |fields| == 4 && |vs| == 5 && vs[4] == NO_TAGS
    requires fields[0].meta.tag.None? && WireField(c, fields[0].meta, vs[0].value) == Ok(first)
    requires fields[1].meta.tag.None? && WireField(c, fields[1].meta, vs[1].value) == Ok(second)
    requires fields[2].meta.tag.None? && WireField(c, fields[2].meta, vs[2].value) == Ok(third)
    requires fields[3].meta.tag.None? && WireField(c, fields[3].meta, vs[3].value) == Ok(fourth)
    ensures WireFields(c, fields, vs) == Ok(first + (second + (third + (fourth + NoTags(c.flexible)))))
  {
    EndIsWritten(c, fields[4..], vs[4..]);
    assert fields[3..][1..] == fields[4..] && vs[3..][1..] == vs[4..];
    ConsIsWritten(c, fields[3..], vs[3..], fourth, NoTags(c.flexible));
    assert fields[2..][1..] == fields[3..] && vs[2..][1..] == vs[3..];
    ConsIsWritten(c, fields[2..], vs[2..], third, fourth + NoTags(c.flexible));
    assert fields[1..][1..] == fields[2..] && vs[1..][1..] == vs[2..];
    ConsIsWritten(c, fields[1..], vs[1..], second, third + (fourth + NoTags(c.flexible)));
    ConsIsWritten(c, fields, vs, first, second + (third + (fourth + NoTags(c.flexible))));
  }

  // ---------------------------------------------------------------------
  // Frames

  /** A request's header: the client id in the short form, whatever the version. */
  function RequestHeader(key: int, version: int, correlation: int, clientId: Option<Bytes>, flexible: bool)
    : (r: Bytes)
  {
    Two(key) + Two(version) + Four(correlation)
    + (if clientId.None? then [255, 255] else Two(|clientId.value|) + clientId.value) + NoTags(flexible)
  }

  function ResponseHeader(correlation: int, flexible: bool): (r: Bytes) {
    Four(correlation) + NoTags(flexible)
  }

  predicate IsWritableHeader(h: Header) {
    IsHeader(h) && (h.Request? && h.clientId.Some? ==> |h.clientId.value| <= 0x7fff)
  }

  /** But for the answer about API versions, which has no tags in its header. */
  function HeaderBytes(key: int, flexible: bool, h: Header): (r: Bytes) {
    match h
    case Request(k, version, correlation, clientId) => RequestHeader(k, version, correlation, clientId, flexible)
    case Response(correlation) => ResponseHeader(correlation, flexible && key != 18)
  }

  lemma HeaderIsWritten(key: int, flexible: bool, h: Header)
    requires IsWritableHeader(h)
    ensures WireHeader(key, flexible, h) == Ok(HeaderBytes(key, flexible, h))
  {
    SignedBytes(h.correlationId);
    if h.Request? {
      SignedBytes(h.apiKey);
      SignedBytes(h.apiVersion);
      if h.clientId.Some? {
        UnsignedBytes(|h.clientId.value|);
      }
    }
  }

  /** Every frame: the length of the rest in four bytes, the header and the message. */
  lemma FrameIsWritten(mm: MessageMeta, version: int, h: Header, body: Value, message: Bytes)
    requires IsWritableHeader(h) && WireMessage(mm, version, body) == Ok(message)
    ensures var rest := HeaderBytes(mm.apiKey, mm.flexible.Within(version), h) + message;
            EncodeFrame(mm, version, h, body)
            == if |rest| <= 0x7fff_ffff then Ok(Four(|rest|) + rest) else Err(TryFromInt)
  {
    HeaderIsWritten(mm.apiKey, mm.flexible.Within(version), h);
    FrameIsItsParts(mm, version, h, body);
    var rest := HeaderBytes(mm.apiKey, mm.flexible.Within(version), h) + message;
    if |rest| <= 0x7fff_ffff {
      Powers();
      SignedBytes(|rest|);
    }
  }

  // ---------------------------------------------------------------------
  // Tag buffers

  /** Tags, lengths and a number of tags that each take a byte. */
  predicate AreSmall(tags: seq<TagField>) {
    |tags| < 128 && forall i :: 0 <= i < |tags| ==> tags[i].tag < 128 && |tags[i].data| < 128
  }

  function TagBytes(tags: seq<TagField>): (r: Bytes)
    requires AreSmall(tags)
  {
    if tags == [] then [] else [tags[0].tag, |tags[0].data|] + tags[0].data + TagBytes(tags[1..])
  }

  lemma {:induction false} TagListIsWritten(tags: seq<TagField>)
    requires AreSmall(tags)
    ensures WireTagList(tags) == Ok(TagBytes(tags))
  {
    if tags != [] {
      var t := tags[0];
      assert Varint.Encode(t.tag) == [t.tag] && Varint.Encode(|t.data|) == [|t.data|];
      assert [t.tag] + [|t.data|] + t.data == [t.tag, |t.data|] + t.data;
      assert WireTag(t) == Ok([t.tag, |t.data|] + t.data);
      TagListIsWritten(tags[1..]);
    }
  }

  /** A tag buffer: how many, and of each its tag, its length and its payload. */
  lemma TagsAreWritten(tags: seq<TagField>)
    requires AreSmall(tags)
    ensures WireTags(tags) == Ok([|tags|] + TagBytes(tags))
  {
    TagListIsWritten(tags);
    assert Varint.Encode(|tags|) == [|tags|];
  }

  // ---------------------------------------------------------------------
  // A nullable structure, and a nullable byte string

  function NamesBytes(names: seq<Bytes>): (r: Bytes) {
    if names == [] then [] else Text(true, names[0]) + [0] + NamesBytes(names[1..])
  }

  datatype Position = Position(name: Bytes, index: int)

  /** A `DescribeTopicPartitionsRequest`: a byte says whether there is a cursor. */
  function DescribeBytes(names: seq<Bytes>, limit: int, cursor: Option<Position>): (r: Bytes) {
    (Varint.Encode(|names| + 1) + NamesBytes(names))
    + (Four(limit)
       + ((match cursor
           case None => [255]
           case Some(p) => [1] + (Text(true, p.name) + (Four(p.index) + [0])))
          + [0]))
  }

  function NameValues(names: seq<Bytes>): (r: seq<Value>)
    ensures |r| == |names|
  {
    if names == [] then [] else [TopicRequest(names[0])] + NameValues(names[1..])
  }

  function CursorValue(cursor: Option<Position>): (r: Value) {
    if cursor.None? then VNone else VSome(Cursor(cursor.value.name, cursor.value.index))
  }

  function DescribeValue(names: seq<Bytes>, limit: int, cursor: Option<Position>): (r: Value) {
    VStruct("DescribeTopicPartitionsRequest", [
      NamedValue("topics", VSome(VVec(NameValues(names)))), NamedValue("response_partition_limit", VInt(limit)),
      NamedValue("cursor", CursorValue(cursor)), NO_TAGS])
  }

  lemma {:induction false} NameIsWritten(c: Ctx, name: Bytes)
    requires Valid(c) && c.flexible && |name| <= 0x7fff
    ensures WireBase(c, TOPIC_REQUESTS, TopicRequest(name)) == Ok(Text(true, name) + [0])
  {
    var fields, vs := TOPIC_REQUESTS.fields, TopicRequest(name).fields;
    EndIsWritten(c, fields[1..], vs[1..]);
    StringIsWritten(c, name);
    ConsIsWritten(c, fields, vs, Text(true, name), [0]);
  }

  lemma {:induction false} NamesAreWritten(c: Ctx, names: seq<Bytes>)
    requires Valid(c) && c.flexible && forall i :: 0 <= i < |names| ==> |names[i]| <= 0x7fff
    ensures WireElements(c, TOPIC_REQUESTS, NameValues(names)) == Ok(NamesBytes(names))
  {
    if names != [] {
      NameIsWritten(c, names[0]);
      NamesAreWritten(c, names[1..]);
      assert NameValues(names)[1..] == NameValues(names[1..]);
    }
  }

  lemma {:induction false} CursorIsWritten(c: Ctx, cursor: Option<Position>)
    requires Valid(c) && c.flexible
    requires cursor.Some? ==> |cursor.value.name| <= 0x7fff && FitsSigned(cursor.value.index, 4)
    ensures WireField(c, CURSOR, CursorValue(cursor))
            == Ok(if cursor.None? then [255]
                  else [1] + (Text(true, cursor.value.name) + (Four(cursor.value.index) + [0])))
  {
    if cursor.Some? {
      var v := Cursor(cursor.value.name, cursor.value.index);
      StringIsWritten(c, cursor.value.name);
      NumbersAreWritten(c, cursor.value.index);
      PairIsWritten(c, CURSOR, v, Text(true, cursor.value.name), Four(cursor.value.index));
      assert WirePresent(c, CURSOR, v) == WireBase(c, CURSOR, v);
    }
  }

  lemma {:induction false} DescribeIsWritten(version: int, names: seq<Bytes>, limit: int, cursor: Option<Position>)
    requires 0 <= version <= I16_MAX && |names| <= 0x7fff_ffff && FitsSigned(limit, 4)
    requires forall i :: 0 <= i < |names| ==> |names[i]| <= 0x7fff
    requires cursor.Some? ==> |cursor.value.name| <= 0x7fff && FitsSigned(cursor.value.index, 4)
    ensures WireMessage(DESCRIBE_TOPIC_PARTITIONS_REQUEST, version, DescribeValue(names, limit, cursor))
            == Ok(DescribeBytes(names, limit, cursor))
  {
    var mm, v := DESCRIBE_TOPIC_PARTITIONS_REQUEST, DescribeValue(names, limit, cursor);
    var c, fields, vs := ContextOf(mm, version), mm.fields, v.fields;
    var topics := Varint.Encode(|names| + 1) + NamesBytes(names);
    var position := if cursor.None? then [255]
                    else [1] + (Text(true, cursor.value.name) + (Four(cursor.value.index) + [0]));
    EndIsWritten(c, fields[1..][1..][1..], vs[1..][1..][1..]);
    CursorIsWritten(c, cursor);
    ConsIsWritten(c, fields[1..][1..], vs[1..][1..], position, [0]);
    NumbersAreWritten(c, limit);
    ConsIsWritten(c, fields[1..], vs[1..], Four(limit), position + [0]);
    NamesAreWritten(c, names);
    SequenceIsWritten(c, TOPIC_REQUESTS, NameValues(names), NamesBytes(names));
    ConsIsWritten(c, fields, vs, topics, Four(limit) + (position + [0]));
  }

  /** An `EnvelopeResponse`: no data is a length of zero. */
  function EnvelopeBytes(data: Option<Bytes>, code: int): (r: Bytes) {
    (if data.None? then [0] else Varint.Encode(|data.value| + 1) + data.value) + (Two(code) + [0])
  }

  function EnvelopeValue(data: Option<Bytes>, code: int): (r: Value) {
    VStruct("EnvelopeResponse", [
      NamedValue("response_data", if data.None? then VNone else VSome(VBytes(data.value))),
      NamedValue("error_code", VInt(code)), NO_TAGS])
  }

  /** What the estimate charges: a size, an id and tags; then tags, a long length and the data, and a code. */
  lemma {:induction false} EnvelopeIsCharged(charge: Charge, correlation: int, data: Option<Bytes>, code: int)
    ensures SizeOfFrame(charge, ENVELOPE_RESPONSE, Response(correlation), EnvelopeValue(data, code))
            == 4 + (4 + 1) + 1 + (if data.None? then 4 else 4 + |data.value|) + 2
  {
    var fields, vs := ENVELOPE_RESPONSE.fields, EnvelopeValue(data, code).fields;
    if data.Some? {
      assert SizeOfPresent(charge, NULLABLE_BYTES, VBytes(data.value)) == 4 + |data.value|;
    }
    assert SizeOfPresent(charge, INT16, VInt(code)) == 2;
    assert SizeOfFields(charge, fields[1..][1..], vs[1..][1..]) == 0;
    assert SizeOfFields(charge, fields[1..], vs[1..]) == 2;
    assert TaggedCount(fields[1..][1..]) == 0 && TaggedCount(fields[1..]) == 0 && TaggedCount(fields) == 0;
    assert SizeOfFields(charge, fields, vs) == (if data.None? then 4 else 4 + |data.value|) + 2;
  }

  /** And for a `FetchSnapshotResponse` with nothing in it: six bytes more for the tagged field it could have. */
  lemma {:induction false} SnapshotIsCharged(charge: Charge, throttle: int, code: int)
    ensures SizeOfMessage(charge, FETCH_SNAPSHOT_RESPONSE, EmptySnapshot(throttle, code))
            == 1 + 6 + 4 + 2 + 4 + charge(NODE_ENDPOINTS, VSome(VTags([])))
  {
    var fields, vs := FETCH_SNAPSHOT_RESPONSE.fields, EmptySnapshot(throttle, code).fields;
    var topics, tagged := fields[1..][1..], fields[1..][1..][1..];
    assert SizeOfPresent(charge, INT32, VInt(throttle)) == 4 && SizeOfPresent(charge, INT16, VInt(code)) == 2;
    assert SizeOfPresent(charge, TOPIC_SNAPSHOTS, VVec([])) == 4;
    assert TaggedCount(tagged[1..]) == 0 && TaggedCount(tagged) == 1 && TaggedCount(topics) == 1;
    assert TaggedCount(fields[1..]) == 1;
    assert SizeOfFields(charge, tagged, vs[1..][1..][1..]) == charge(NODE_ENDPOINTS, VSome(VTags([])));
    assert SizeOfFields(charge, topics, vs[1..][1..]) == 4 + charge(NODE_ENDPOINTS, VSome(VTags([])));
    assert SizeOfFields(charge, fields[1..], vs[1..]) == 6 + charge(NODE_ENDPOINTS, VSome(VTags([])));
    assert SizeOfFields(charge, fields, vs) == 10 + charge(NODE_ENDPOINTS, VSome(VTags([])));
    assert TaggedCount(fields) == 1;
  }

  function EmptySnapshot(throttle: int, code: int): (r: Value) {
    VStruct("FetchSnapshotResponse", [
      NamedValue("throttle_time_ms", VInt(throttle)), NamedValue("error_code", VInt(code)),
      NamedValue("topics", VSome(VVec([]))), NO_TAGS])
  }

  lemma {:induction false} DataIsWritten(c: Ctx, data: Option<Bytes>)
    requires Valid(c) && c.flexible && (data.Some? ==> |data.value| + 1 < U32_LIMIT)
    ensures WireField(c, NULLABLE_BYTES, if data.None? then VNone else VSome(VBytes(data.value)))
            == Ok(if data.None? then [0] else Varint.Encode(|data.value| + 1) + data.value)
  {
    if data.Some? {
      var bytes := Varint.Encode(|data.value| + 1) + data.value;
      assert WirePresent(c, NULLABLE_BYTES, VBytes(data.value)) == WireBase(c, NULLABLE_BYTES, VBytes(data.value));
      assert [] + bytes == bytes;
    }
  }

  lemma {:induction false} EnvelopeIsWritten(version: int, data: Option<Bytes>, code: int)
    requires 0 <= version <= I16_MAX && FitsSigned(code, 2) && (data.Some? ==> |data.value| + 1 < U32_LIMIT)
    ensures WireMessage(ENVELOPE_RESPONSE, version, EnvelopeValue(data, code)) == Ok(EnvelopeBytes(data, code))
  {
    var mm := ENVELOPE_RESPONSE;
    var c, fields, vs := ContextOf(mm, version), mm.fields, EnvelopeValue(data, code).fields;
    EndIsWritten(c, fields[1..][1..], vs[1..][1..]);
    NumbersAreWritten(c, code);
    ConsIsWritten(c, fields[1..], vs[1..], Two(code), [0]);
    DataIsWritten(c, data);
    var bytes := if data.None? then [0] else Varint.Encode(|data.value| + 1) + data.value;
    ConsIsWritten(c, fields, vs, bytes, Two(code) + [0]);
  }
}
