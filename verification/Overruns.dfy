/**
 Frames that are longer than their estimates: requests to produce, outside the
 flexible versions, from two partitions on; and a request with a present nullable
 structure.
 */
module Overruns {
  import opened Base
  import opened Schema
  import opened Types
  import opened Grammar
  import opened Messages
  import opened FrameGrammar
  import opened Frames
  import opened Descriptors
  import opened Allocation
  import Utf8
  import Varint

  /** A structure, or a message, of which everything is mandatory at every version. */
  predicate Everywhere(parent: Option<VersionRange>) {
    parent == None || parent == Some(EVERY)
  }

  lemma StringIsTyped(common: set<string>, parent: Option<VersionRange>, s: Bytes)
    requires Everywhere(parent) && Utf8.IsValid(s)
    ensures HasType(VString(s), FieldType(common, parent, STRING))
  {
  }

  lemma NumberIsTyped(common: set<string>, parent: Option<VersionRange>, n: int)
    requires Everywhere(parent)
    ensures FitsSigned(n, 2) ==> HasType(VInt(n), FieldType(common, parent, INT16))
    ensures FitsSigned(n, 4) ==> HasType(VInt(n), FieldType(common, parent, INT32))
  {
  }

  // ---------------------------------------------------------------------
  // Requests to produce

  datatype Partition = Partition(index: int, records: Option<seq<Batch>>)

  datatype Topic = Topic(name: Bytes, partitions: seq<Partition>)

  datatype Produce = Produce(transactionalId: Option<Bytes>, acks: int, timeout: int, topics: seq<Topic>)

  predicate IsText(s: Bytes) {
    Utf8.IsValid(s) && |s| <= 0x7fff
  }

  predicate IsPartition(p: Partition) {
    && FitsSigned(p.index, 4)
    && (p.records.Some? ==> AreBatches(p.records.value) && |WireBatches(p.records.value)| < U32_LIMIT)
  }

  predicate IsTopic(t: Topic) {
    && IsText(t.name) && |t.partitions| <= 0x7fff_ffff
    && forall i :: 0 <= i < |t.partitions| ==> IsPartition(t.partitions[i])
  }

  predicate IsProduce(p: Produce) {
    && (p.transactionalId.Some? ==> IsText(p.transactionalId.value))
    && FitsSigned(p.acks, 2) && FitsSigned(p.timeout, 4) && |p.topics| <= 0x7fff_ffff
    && forall i :: 0 <= i < |p.topics| ==> IsTopic(p.topics[i])
  }

  const NO_TAGS := NamedValue(TAG_BUFFER, VSome(VTags([])))

  function RecordsValue(records: Option<seq<Batch>>): (r: Value) {
    if records.None? then VNone else VSome(VRecords(records.value))
  }

  function PartitionValue(p: Partition): (r: Value) {
    VStruct("PartitionProduceData", [
      NamedValue("index", VInt(p.index)), NamedValue("records", RecordsValue(p.records)), NO_TAGS])
  }

  function PartitionValues(partitions: seq<Partition>): (r: seq<Value>)
    ensures |r| == |partitions| && forall i :: 0 <= i < |r| ==> r[i] == PartitionValue(partitions[i])
  {
    if partitions == [] then [] else [PartitionValue(partitions[0])] + PartitionValues(partitions[1..])
  }

  function TopicValue(t: Topic): (r: Value) {
    VStruct("TopicProduceData", [
      NamedValue("name", VString(t.name)),
      NamedValue("partition_data", VSome(VVec(PartitionValues(t.partitions)))), NO_TAGS])
  }

  function TopicValues(topics: seq<Topic>): (r: seq<Value>)
    ensures |r| == |topics| && forall i :: 0 <= i < |r| ==> r[i] == TopicValue(topics[i])
  {
    if topics == [] then [] else [TopicValue(topics[0])] + TopicValues(topics[1..])
  }

  function TransactionalValue(id: Option<Bytes>): (r: Value) {
    if id.None? then VNone else VSome(VString(id.value))
  }

  function ProduceValue(p: Produce): (r: Value) {
    VStruct("ProduceRequest", [
      NamedValue("transactional_id", TransactionalValue(p.transactionalId)), NamedValue("acks", VInt(p.acks)),
      NamedValue("timeout_ms", VInt(p.timeout)), NamedValue("topic_data", VSome(VVec(TopicValues(p.topics)))),
      NO_TAGS])
  }

  // ---------------------------------------------------------------------
  // They are messages

  lemma {:induction false} RecordsAreTyped(
    common: set<string>, parent: Option<VersionRange>, records: Option<seq<Batch>>)
    requires records.Some? ==> AreBatches(records.value)
    ensures HasType(RecordsValue(records), FieldType(common, parent, NULLABLE_RECORDS))
  {
    if records.Some? {
      assert HasType(VRecords(records.value), PresentType(common, NULLABLE_RECORDS));
    }
  }

  /** Values of the fields' types, one after another, and no tags. */
  predicate Matches(common: set<string>, parent: Option<VersionRange>, fields: Fields, vs: seq<NamedValue>) {
    && |vs| == |fields| + 1 && vs[|fields|] == NO_TAGS
    && forall i :: 0 <= i < |fields| ==>
                     && fields[i].meta.tag.None? && vs[i].name == fields[i].name
                     && HasType(vs[i].value, FieldType(common, parent, fields[i].meta))
  }

  lemma {:induction false} StructIsTyped(common: set<string>, fm: FieldMeta, v: Value)
    requires v.VStruct? && fm.BaseKind() == Named(v.name) && Matches(common, Inner(common, fm), fm.fields, v.fields)
    ensures HasType(v, BaseType(common, fm))
  {
    AreTyped(common, Inner(common, fm), fm.fields, v.fields);
  }

  lemma {:induction false} MessageIsTyped(common: set<string>, mm: MessageMeta, v: Value)
    requires v.VStruct? && mm.name == v.name && Matches(common, None, mm.fields, v.fields)
    ensures HasType(v, MessageType(common, mm))
  {
    AreTyped(common, None, mm.fields, v.fields);
  }

  lemma {:induction false} AreTyped(
    common: set<string>, parent: Option<VersionRange>, fields: Fields, vs: seq<NamedValue>)
    requires Matches(common, parent, fields, vs)
    ensures HaveTypes(vs, FieldTypes(common, parent, fields))
  {
    if fields == [] {
      TypesEnd(common, parent, fields, vs);
    } else {
      AreTyped(common, parent, fields[1..], vs[1..]);
      TypesCons(common, parent, fields, vs);
    }
  }

  lemma {:induction false} PartitionIsTyped(common: set<string>, p: Partition)
    requires IsPartition(p)
    ensures HasType(PartitionValue(p), BaseType(common, PARTITION_DATA))
  {
    var parent := Inner(common, PARTITION_DATA);
    RecordsAreTyped(common, parent, p.records);
    NumberIsTyped(common, parent, p.index);
    StructIsTyped(common, PARTITION_DATA, PartitionValue(p));
  }

  lemma {:induction false} PartitionsAreTyped(
    common: set<string>, parent: Option<VersionRange>, partitions: seq<Partition>)
    requires forall i :: 0 <= i < |partitions| ==> IsPartition(partitions[i])
    ensures HasType(VSome(VVec(PartitionValues(partitions))), FieldType(common, parent, PARTITION_DATA))
  {
    var values := PartitionValues(partitions);
    forall i | 0 <= i < |values|
      ensures HasType(values[i], BaseType(common, PARTITION_DATA))
    {
      PartitionIsTyped(common, partitions[i]);
    }
    assert HasType(VVec(values), PresentType(common, PARTITION_DATA));
  }

  lemma {:induction false} TopicDataIsTyped(common: set<string>, t: Topic)
    requires IsTopic(t)
    ensures HasType(TopicValue(t), BaseType(common, TOPIC_DATA))
  {
    var parent := Inner(common, TOPIC_DATA);
    PartitionsAreTyped(common, parent, t.partitions);
    StringIsTyped(common, parent, t.name);
    StructIsTyped(common, TOPIC_DATA, TopicValue(t));
  }

  lemma {:induction false} TopicDataAreTyped(common: set<string>, topics: seq<Topic>)
    requires forall i :: 0 <= i < |topics| ==> IsTopic(topics[i])
    ensures HasType(VSome(VVec(TopicValues(topics))), FieldType(common, None, TOPIC_DATA))
  {
    var values := TopicValues(topics);
    forall i | 0 <= i < |values|
      ensures HasType(values[i], BaseType(common, TOPIC_DATA))
    {
      TopicDataIsTyped(common, topics[i]);
    }
    assert HasType(VVec(values), PresentType(common, TOPIC_DATA));
  }

  lemma TransactionalIsTyped(common: set<string>, id: Option<Bytes>)
    requires id.Some? ==> IsText(id.value)
    ensures HasType(TransactionalValue(id), FieldType(common, None, TRANSACTIONAL_ID))
  {
    if id.Some? {
      assert HasType(VString(id.value), PresentType(common, TRANSACTIONAL_ID));
    }
  }

  lemma {:induction false} ProduceIsTyped(common: set<string>, p: Produce)
    requires IsProduce(p)
    ensures HasType(ProduceValue(p), MessageType(common, PRODUCE_REQUEST))
  {
    TopicDataAreTyped(common, p.topics);
    NumberIsTyped(common, None, p.timeout);
    NumberIsTyped(common, None, p.acks);
    TransactionalIsTyped(common, p.transactionalId);
    MessageIsTyped(common, PRODUCE_REQUEST, ProduceValue(p));
  }

  // ---------------------------------------------------------------------
  // Each record set is four bytes over its charge, and each structure has one to spare

  function RecordSets(partitions: seq<Partition>): (r: nat) {
    if partitions == [] then 0 else (if partitions[0].records.Some? then 1 else 0) + RecordSets(partitions[1..])
  }

  function PartitionsOf(topics: seq<Topic>): (r: nat) {
    if topics == [] then 0 else |topics[0].partitions| + PartitionsOf(topics[1..])
  }

  function RecordSetsOf(topics: seq<Topic>): (r: nat) {
    if topics == [] then 0 else RecordSets(topics[0].partitions) + RecordSetsOf(topics[1..])
  }

  /** The transactional id has something to spare, too, if it is absent or not of this version. */
  function TransactionalExcess(version: int, id: Option<Bytes>): (r: int) {
    match id
    case None => if version < 3 then -4 else -2
    case Some(s) => if version < 3 then -2 - |s| else 0
  }

  /** A version of the message at which it is written the old way. */
  predicate Inflexible(c: Ctx) {
    !c.flexible && 0 <= c.version <= I16_MAX
  }

  /** What is written and how much longer than its charge it is. */
  predicate FieldExceeds(charge: Charge, c: Ctx, fm: FieldMeta, v: Value, excess: int) {
    WireField(c, fm, v).Ok? && ExcessOfField(charge, c, fm, v) == excess
  }

  predicate FieldsExceed(charge: Charge, c: Ctx, fields: Fields, vs: seq<NamedValue>, excess: int) {
    WireFields(c, fields, vs).Ok? && ExcessOfFields(charge, c, fields, vs) == excess
  }

  predicate ElementsExceed(charge: Charge, c: Ctx, fm: FieldMeta, vs: seq<Value>, excess: int) {
    WireElements(c, fm, vs).Ok? && ExcessOfElements(charge, c, fm, vs) == excess
  }

  lemma {:induction false} ExceedsCons(
    charge: Charge, c: Ctx, fields: Fields, vs: seq<NamedValue>, first: int, others: int)
    requires fields != [] && vs != [] && fields[0].meta.tag.None?
    requires FieldExceeds(charge, c, fields[0].meta, vs[0].value, first)
    requires FieldsExceed(charge, c, fields[1..], vs[1..], others)
    ensures FieldsExceed(charge, c, fields, vs, first + others)
  {
  }

  lemma ExceedsEnd(charge: Charge, c: Ctx, fields: Fields, vs: seq<NamedValue>)
    requires Inflexible(c) && fields == [] && vs == [NO_TAGS]
    ensures FieldsExceed(charge, c, fields, vs, -1)
  {
  }

  predicate BaseExceeds(charge: Charge, c: Ctx, fm: FieldMeta, v: Value, excess: int) {
    WireBase(c, fm, v).Ok? && ExcessOfBase(charge, c, fm, v) == excess
  }

  /** A structure of two fields. */
  lemma {:induction false} PairExceeds(charge: Charge, c: Ctx, fm: FieldMeta, v: Value, first: int, second: int)
    requires Inflexible(c) && fm.BaseKind().Named? && |fm.fields| == 2
    requires v.VStruct? && |v.fields| == 3 && v.fields[2] == NO_TAGS
    requires fm.fields[0].meta.tag.None? && FieldExceeds(charge, c, fm.fields[0].meta, v.fields[0].value, first)
    requires fm.fields[1].meta.tag.None? && FieldExceeds(charge, c, fm.fields[1].meta, v.fields[1].value, second)
    ensures BaseExceeds(charge, c, fm, v, first + second - 1)
  {
    var fields, vs := fm.fields, v.fields;
    ExceedsEnd(charge, c, fields[1..][1..], vs[1..][1..]);
    ExceedsCons(charge, c, fields[1..], vs[1..], second, -1);
    ExceedsCons(charge, c, fields, vs, first, second - 1);
  }

  lemma NumbersExceed(charge: Charge, c: Ctx, n: int)
    requires Inflexible(c)
    ensures FitsSigned(n, 2) ==> FieldExceeds(charge, c, INT16, VInt(n), 0)
    ensures FitsSigned(n, 4) ==> FieldExceeds(charge, c, INT32, VInt(n), 0)
  {
    var v := VInt(n);
    assert WirePresent(c, INT16, v) == WireBase(c, INT16, v) && WirePresent(c, INT32, v) == WireBase(c, INT32, v);
    assert ExcessOfPresent(charge, c, INT16, v) == 0 == ExcessOfPresent(charge, c, INT32, v);
  }

  lemma StringExceeds(charge: Charge, c: Ctx, s: Bytes)
    requires Inflexible(c) && |s| <= 0x7fff
    ensures FieldExceeds(charge, c, STRING, VString(s), 0)
  {
    var v := VString(s);
    assert WirePresent(c, STRING, v) == WireBase(c, STRING, v);
    assert ExcessOfPresent(charge, c, STRING, v) == ExcessOfBase(charge, c, STRING, v);
  }

  lemma {:induction false} TransactionalExceeds(charge: Charge, c: Ctx, id: Option<Bytes>)
    requires Inflexible(c) && (id.Some? ==> IsText(id.value))
    ensures FieldExceeds(charge, c, TRANSACTIONAL_ID, TransactionalValue(id), TransactionalExcess(c.version, id))
  {
    if id.Some? {
      var v := VString(id.value);
      assert WirePresent(c, TRANSACTIONAL_ID, v) == WireBase(c, TRANSACTIONAL_ID, v);
      assert ExcessOfPresent(charge, c, TRANSACTIONAL_ID, v) == ExcessOfBase(charge, c, TRANSACTIONAL_ID, v);
      assert SizeOfPresent(charge, TRANSACTIONAL_ID, v) == SizeOfBase(charge, TRANSACTIONAL_ID, v);
    }
  }

  lemma {:induction false} RecordsExceed(charge: Charge, c: Ctx, records: Option<seq<Batch>>)
    requires Inflexible(c)
    requires records.Some? ==> AreBatches(records.value) && |WireBatches(records.value)| < U32_LIMIT
    ensures FieldExceeds(charge, c, NULLABLE_RECORDS, RecordsValue(records), if records.Some? then 4 else 0)
  {
    if records.Some? {
      var v := VRecords(records.value);
      assert WirePresent(c, NULLABLE_RECORDS, v) == WireBase(c, NULLABLE_RECORDS, v);
      assert ExcessOfPresent(charge, c, NULLABLE_RECORDS, v) == ExcessOfBase(charge, c, NULLABLE_RECORDS, v);
    }
  }

  lemma {:induction false} SequenceExceeds(charge: Charge, c: Ctx, fm: FieldMeta, vs: seq<Value>, excess: int)
    requires Inflexible(c) && fm.version.Within(c.version) && fm.kind.SequenceOf?
    requires |vs| <= 0x7fff_ffff && ElementsExceed(charge, c, fm, vs, excess)
    ensures FieldExceeds(charge, c, fm, VSome(VVec(vs)), excess)
  {
    assert WirePresent(c, fm, VVec(vs)).Ok?;
    assert ExcessOfPresent(charge, c, fm, VVec(vs)) == ExcessOfElements(charge, c, fm, vs);
  }

  lemma {:induction false} PartitionExceeds(charge: Charge, c: Ctx, p: Partition)
    requires Inflexible(c) && IsPartition(p)
    ensures BaseExceeds(charge, c, PARTITION_DATA, PartitionValue(p), if p.records.Some? then 3 else -1)
  {
    RecordsExceed(charge, c, p.records);
    NumbersExceed(charge, c, p.index);
    PairExceeds(charge, c, PARTITION_DATA, PartitionValue(p), 0, if p.records.Some? then 4 else 0);
  }

  lemma {:induction false} PartitionsExceed(charge: Charge, c: Ctx, partitions: seq<Partition>)
    requires Inflexible(c) && forall i :: 0 <= i < |partitions| ==> IsPartition(partitions[i])
    ensures ElementsExceed(charge, c, PARTITION_DATA, PartitionValues(partitions),
                           4 * RecordSets(partitions) - |partitions|)
  {
    if partitions != [] {
      PartitionExceeds(charge, c, partitions[0]);
      PartitionsExceed(charge, c, partitions[1..]);
      assert PartitionValues(partitions)[1..] == PartitionValues(partitions[1..]);
    }
  }

  lemma {:induction false} PartitionDataExceeds(charge: Charge, c: Ctx, partitions: seq<Partition>)
    requires Inflexible(c) && forall i :: 0 <= i < |partitions| ==> IsPartition(partitions[i])
    requires |partitions| <= 0x7fff_ffff
    ensures FieldExceeds(charge, c, PARTITION_DATA, VSome(VVec(PartitionValues(partitions))),
                         4 * RecordSets(partitions) - |partitions|)
  {
    PartitionsExceed(charge, c, partitions);
    SequenceExceeds(charge, c, PARTITION_DATA, PartitionValues(partitions), 4 * RecordSets(partitions) - |partitions|);
  }

  lemma {:induction false} TopicExceeds(charge: Charge, c: Ctx, t: Topic)
    requires Inflexible(c) && IsTopic(t)
    ensures BaseExceeds(charge, c, TOPIC_DATA, TopicValue(t), 4 * RecordSets(t.partitions) - |t.partitions| - 1)
  {
    PartitionDataExceeds(charge, c, t.partitions);
    StringExceeds(charge, c, t.name);
    PairExceeds(charge, c, TOPIC_DATA, TopicValue(t), 0, 4 * RecordSets(t.partitions) - |t.partitions|);
  }

  lemma {:induction false} TopicsExceed(charge: Charge, c: Ctx, topics: seq<Topic>)
    requires Inflexible(c) && forall i :: 0 <= i < |topics| ==> IsTopic(topics[i])
    ensures ElementsExceed(charge, c, TOPIC_DATA, TopicValues(topics),
                           4 * RecordSetsOf(topics) - PartitionsOf(topics) - |topics|)
  {
    if topics != [] {
      TopicExceeds(charge, c, topics[0]);
      TopicsExceed(charge, c, topics[1..]);
      assert TopicValues(topics)[1..] == TopicValues(topics[1..]);
    }
  }

  lemma {:induction false} TopicDataExceeds(charge: Charge, c: Ctx, topics: seq<Topic>)
    requires Inflexible(c) && forall i :: 0 <= i < |topics| ==> IsTopic(topics[i])
    requires |topics| <= 0x7fff_ffff
    ensures FieldExceeds(charge, c, TOPIC_DATA, VSome(VVec(TopicValues(topics))),
                         4 * RecordSetsOf(topics) - PartitionsOf(topics) - |topics|)
  {
    TopicsExceed(charge, c, topics);
    SequenceExceeds(
      charge, c, TOPIC_DATA, TopicValues(topics), 4 * RecordSetsOf(topics) - PartitionsOf(topics) - |topics|);
  }

  /** By how much a request to produce, without its header, is longer than its estimate. */
  function ProduceExcess(version: int, p: Produce): (r: int) {
    4 * RecordSetsOf(p.topics) - PartitionsOf(p.topics) - |p.topics| - 1
    + TransactionalExcess(version, p.transactionalId)
  }

  lemma {:induction false} ProduceExceeds(charge: Charge, version: int, p: Produce)
    requires IsProduce(p) && 0 <= version < 9
    ensures FieldsExceed(charge, ContextOf(PRODUCE_REQUEST, version), PRODUCE_REQUEST.fields, ProduceValue(p).fields,
                         ProduceExcess(version, p))
  {
    var c, fields, vs := ContextOf(PRODUCE_REQUEST, version), PRODUCE_REQUEST.fields, ProduceValue(p).fields;
    var topics := 4 * RecordSetsOf(p.topics) - PartitionsOf(p.topics) - |p.topics|;
    ExceedsEnd(charge, c, fields[1..][1..][1..][1..], vs[1..][1..][1..][1..]);
    TopicDataExceeds(charge, c, p.topics);
    ExceedsCons(charge, c, fields[1..][1..][1..], vs[1..][1..][1..], topics, -1);
    NumbersExceed(charge, c, p.timeout);
    ExceedsCons(charge, c, fields[1..][1..], vs[1..][1..], 0, topics - 1);
    NumbersExceed(charge, c, p.acks);
    ExceedsCons(charge, c, fields[1..], vs[1..], 0, topics - 1);
    TransactionalExceeds(charge, c, p.transactionalId);
    ExceedsCons(charge, c, fields, vs, TransactionalExcess(version, p.transactionalId), topics - 1);
  }

  /**
   Every request to produce, outside the flexible versions, whatever its topics,
   partitions and records: it is a message, it can be written, and this is when
   the estimate is an upper bound of its frame.
   */
  lemma {:induction false} ProduceFitsExactly(charge: Charge, common: set<string>, version: int, p: Produce, h: Header)
    requires IsProduce(p) && IsHeader(h) && 0 <= version < 9
    ensures var mm, body := PRODUCE_REQUEST, ProduceValue(p);
            && IsMessage(mm, common, version, body) && WireMessage(mm, version, body).Ok?
            && (EncodeFrame(mm, version, h, body).Ok? ==>
                  (|EncodeFrame(mm, version, h, body).value| <= SizeOfFrame(charge, mm, h, body)
                   <==> ProduceExcess(version, p) + ExcessOfHeader(0, false, h) <= 0))
  {
    ProduceIsWellFormed(common);
    ProduceIsTyped(common, p);
    ProduceExceeds(charge, version, p);
    if EncodeFrame(PRODUCE_REQUEST, version, h, ProduceValue(p)).Ok? {
      FrameIsThatLong(charge, PRODUCE_REQUEST, common, version, h, ProduceValue(p));
    }
  }

  predicate AllHaveRecords(partitions: seq<Partition>) {
    forall i :: 0 <= i < |partitions| ==> partitions[i].records.Some?
  }

  lemma {:induction false} AllAreCounted(partitions: seq<Partition>)
    requires AllHaveRecords(partitions)
    ensures RecordSets(partitions) == |partitions|
  {
    if partitions != [] {
      AllAreCounted(partitions[1..]);
    }
  }

  /** Records for the partitions of one topic, without a transaction. */
  predicate IsPlain(p: Produce) {
    IsProduce(p) && p.transactionalId == None && |p.topics| == 1 && AllHaveRecords(p.topics[0].partitions)
  }

  lemma {:induction false} PlainExcess(version: int, p: Produce)
    requires IsPlain(p) && version >= 3
    ensures ProduceExcess(version, p) == 3 * |p.topics[0].partitions| - 4
  {
    AllAreCounted(p.topics[0].partitions);
    assert p.topics[1..] == [];
    assert RecordSetsOf(p.topics[1..]) == 0 == PartitionsOf(p.topics[1..]);
  }

  /**
   The length in front of a record set is missing from the estimate: records for
   two partitions of a topic already make a frame that is longer, and each further
   partition makes it three bytes longer still.
   */
  lemma {:induction false} RecordSetsAreNotCharged(
    charge: Charge, common: set<string>, version: int, p: Produce, correlation: int, clientId: Bytes)
    requires IsPlain(p) && 3 <= version < 9 && FitsSigned(correlation, 4) && IsText(clientId)
    requires SizeOfFrame(charge, PRODUCE_REQUEST, Request(0, version, correlation, Some(clientId)), ProduceValue(p))
             + 3 * |p.topics[0].partitions| - 9 <= I32_MAX
    ensures var mm, body, h := PRODUCE_REQUEST, ProduceValue(p), Request(0, version, correlation, Some(clientId));
            && IsMessage(mm, common, version, body) && IsHeader(h) && EncodeFrame(mm, version, h, body).Ok?
            && |EncodeFrame(mm, version, h, body).value|
               == SizeOfFrame(charge, mm, h, body) + 3 * |p.topics[0].partitions| - 5
  {
    var mm, body, h := PRODUCE_REQUEST, ProduceValue(p), Request(0, version, correlation, Some(clientId));
    Pow256Values();
    ProduceFitsExactly(charge, common, version, p, h);
    ProduceExceeds(charge, version, p);
    PlainExcess(version, p);
    assert WireHeader(0, false, h).Ok?;
    EncodesExactly(charge, mm, common, version, h, body);
    FrameIsThatLong(charge, mm, common, version, h, body);
  }

  // ---------------------------------------------------------------------
  // Very many topics

  /** Long enough for a length of two bytes. */
  const NAME_LENGTH := 127

  /** As many as take a length of four bytes. */
  const TOPICS := 0x1f_ffff

  function TopicRequest(name: Bytes): (r: Value) {
    VStruct("TopicRequest", [NamedValue("name", VString(name)), NamedValue(TAG_BUFFER, VSome(VTags([])))])
  }

  function Cursor(name: Bytes, index: int): (r: Value) {
    VStruct("Cursor", [
      NamedValue("topic_name", VString(name)), NamedValue("partition_index", VInt(index)),
      NamedValue(TAG_BUFFER, VSome(VTags([])))])
  }

  function Copies(v: Value, n: nat): (r: seq<Value>)
    ensures |r| == n && forall i :: 0 <= i < n ==> r[i] == v
  {
    if n == 0 then [] else [v] + Copies(v, n - 1)
  }

  /** A request to describe very many topics, from a cursor on. */
  function ManyTopics(name: Bytes, limit: int, index: int): (r: Value) {
    VStruct("DescribeTopicPartitionsRequest", [
      NamedValue("topics", VSome(VVec(Copies(TopicRequest(name), TOPICS)))),
      NamedValue("response_partition_limit", VInt(limit)),
      NamedValue("cursor", VSome(Cursor(name, index))),
      NamedValue(TAG_BUFFER, VSome(VTags([])))])
  }

  predicate ForManyTopics(name: Bytes, limit: int, index: int) {
    |name| == NAME_LENGTH && Utf8.IsValid(name) && FitsSigned(limit, 4) && FitsSigned(index, 4)
  }

  lemma TopicIsTyped(common: set<string>, name: Bytes)
    requires Utf8.IsValid(name)
    ensures HasType(TopicRequest(name), BaseType(common, TOPIC_REQUESTS))
  {
    StringIsTyped(common, Inner(common, TOPIC_REQUESTS), name);
    StructIsTyped(common, TOPIC_REQUESTS, TopicRequest(name));
  }

  lemma CursorIsTyped(common: set<string>, name: Bytes, index: int)
    requires Utf8.IsValid(name) && FitsSigned(index, 4)
    ensures HasType(Cursor(name, index), BaseType(common, CURSOR))
  {
    NumberIsTyped(common, Inner(common, CURSOR), index);
    StringIsTyped(common, Inner(common, CURSOR), name);
    StructIsTyped(common, CURSOR, Cursor(name, index));
  }

  lemma TopicsAreTyped(common: set<string>, name: Bytes, n: nat)
    requires Utf8.IsValid(name)
    ensures HasType(VSome(VVec(Copies(TopicRequest(name), n))), FieldType(common, None, TOPIC_REQUESTS))
  {
    TopicIsTyped(common, name);
    assert HasType(VVec(Copies(TopicRequest(name), n)), PresentType(common, TOPIC_REQUESTS));
  }

  lemma PresentCursorIsTyped(common: set<string>, name: Bytes, index: int)
    requires Utf8.IsValid(name) && FitsSigned(index, 4)
    ensures HasType(VSome(Cursor(name, index)), FieldType(common, None, CURSOR))
  {
    CursorIsTyped(common, name, index);
    assert HasType(Cursor(name, index), PresentType(common, CURSOR));
  }

  lemma ManyTopicsAreTyped(common: set<string>, name: Bytes, limit: int, index: int)
    requires ForManyTopics(name, limit, index)
    ensures HasType(ManyTopics(name, limit, index), MessageType(common, DESCRIBE_TOPIC_PARTITIONS_REQUEST))
  {
    PresentCursorIsTyped(common, name, index);
    NumberIsTyped(common, None, limit);
    TopicsAreTyped(common, name, TOPICS);
    MessageIsTyped(common, DESCRIBE_TOPIC_PARTITIONS_REQUEST, ManyTopics(name, limit, index));
  }

  lemma ManyTopicsIsMessage(common: set<string>, name: Bytes, limit: int, index: int)
    requires ForManyTopics(name, limit, index)
    ensures IsMessage(DESCRIBE_TOPIC_PARTITIONS_REQUEST, common, 0, ManyTopics(name, limit, index))
  {
    DescribeTopicPartitionsIsWellFormed(common);
    ManyTopicsAreTyped(common, name, limit, index);
  }

  lemma {:induction false} CopiesSize(charge: Charge, c: Ctx, fm: FieldMeta, v: Value, n: nat)
    requires WireBase(c, fm, v).Ok? && |WireBase(c, fm, v).value| == 130 == SizeOfBase(charge, fm, v)
    ensures WireElements(c, fm, Copies(v, n)).Ok? && |WireElements(c, fm, Copies(v, n)).value| == 130 * n
    ensures SizeOfElements(charge, fm, Copies(v, n)) == 130 * n
  {
    if n > 0 {
      CopiesSize(charge, c, fm, v, n - 1);
      assert Copies(v, n)[1..] == Copies(v, n - 1);
    }
  }

  /** An empty tag buffer takes the one byte that is charged for it. */
  lemma EmptyTagBuffer(charge: Charge, c: Ctx, fields: Fields, vs: seq<NamedValue>)
    requires c.flexible && fields == [] && |vs| == 1 && vs[0].value == VSome(VTags([]))
    ensures WireFields(c, fields, vs).Ok? && |WireFields(c, fields, vs).value| == 1
    ensures SizeOfFields(charge, fields, vs) == 0 && TaggedCount(fields) == 0
  {
    var none: seq<TagField> := [];
    assert WireTags(none) == Ok(Varint.Encode(0) + []);
    Varint.EncodedLength(0);
  }

  lemma NameSize(charge: Charge, c: Ctx, name: Bytes)
    requires c.flexible && 0 <= c.version <= I16_MAX && |name| == NAME_LENGTH
    ensures var wire := WireField(c, STRING, VString(name));
            wire.Ok? && |wire.value| == NAME_LENGTH + 2 == SizeOfField(charge, STRING, VString(name))
  {
    var v := VString(name);
    Varint.EncodedLength(NAME_LENGTH + 1);
    assert WireField(c, STRING, v) == WirePresent(c, STRING, v) == WireBase(c, STRING, v);
    assert SizeOfField(charge, STRING, v) == SizeOfPresent(charge, STRING, v) == SizeOfBase(charge, STRING, v);
  }

  lemma NumberSize(charge: Charge, c: Ctx, n: int)
    requires 0 <= c.version <= I16_MAX && FitsSigned(n, 4)
    ensures var wire := WireField(c, INT32, VInt(n));
            wire.Ok? && |wire.value| == 4 == SizeOfField(charge, INT32, VInt(n))
  {
    var v := VInt(n);
    assert WireField(c, INT32, v) == WirePresent(c, INT32, v) == WireBase(c, INT32, v);
    assert SizeOfField(charge, INT32, v) == SizeOfPresent(charge, INT32, v) == SizeOfBase(charge, INT32, v);
  }

  lemma TopicSize(charge: Charge, c: Ctx, name: Bytes)
    requires c.flexible && 0 <= c.version <= I16_MAX && |name| == NAME_LENGTH
    ensures var wire := WireBase(c, TOPIC_REQUESTS, TopicRequest(name));
            wire.Ok? && |wire.value| == 130 == SizeOfBase(charge, TOPIC_REQUESTS, TopicRequest(name))
  {
    var fields, vs := TOPIC_REQUESTS.fields, TopicRequest(name).fields;
    NameSize(charge, c, name);
    EmptyTagBuffer(charge, c, fields[1..], vs[1..]);
    assert WireFields(c, fields, vs).Ok? && |WireFields(c, fields, vs).value| == 130;
  }

  lemma CursorSize(charge: Charge, c: Ctx, name: Bytes, index: int)
    requires c.flexible && 0 <= c.version <= I16_MAX && |name| == NAME_LENGTH && FitsSigned(index, 4)
    ensures var wire := WireBase(c, CURSOR, Cursor(name, index));
            wire.Ok? && |wire.value| == 134 == SizeOfBase(charge, CURSOR, Cursor(name, index))
  {
    var fields, vs := CURSOR.fields, Cursor(name, index).fields;
    NameSize(charge, c, name);
    NumberSize(charge, c, index);
    EmptyTagBuffer(charge, c, fields[1..][1..], vs[1..][1..]);
    assert WireFields(c, fields[1..], vs[1..]).Ok? && |WireFields(c, fields[1..], vs[1..]).value| == 5;
    assert SizeOfFields(charge, fields[1..], vs[1..]) == 4 && TaggedCount(fields[1..]) == 0;
    assert WireFields(c, fields, vs).Ok? && |WireFields(c, fields, vs).value| == 134;
  }

  /** The sequence is charged exactly, and the cursor one byte too little. */
  lemma TopicsSize(charge: Charge, c: Ctx, name: Bytes)
    requires c.flexible && 0 <= c.version <= I16_MAX && |name| == NAME_LENGTH
    ensures var v := VSome(VVec(Copies(TopicRequest(name), TOPICS)));
            var wire := WireField(c, TOPIC_REQUESTS, v);
            wire.Ok? && |wire.value| == 4 + 130 * TOPICS == SizeOfField(charge, TOPIC_REQUESTS, v)
  {
    var topics := VVec(Copies(TopicRequest(name), TOPICS));
    TopicSize(charge, c, name);
    CopiesSize(charge, c, TOPIC_REQUESTS, TopicRequest(name), TOPICS);
    Varint.EncodedLength(TOPICS + 1);
    var wire := WirePresent(c, TOPIC_REQUESTS, topics);
    assert wire.Ok? && |wire.value| == 4 + 130 * TOPICS == SizeOfPresent(charge, TOPIC_REQUESTS, topics);
  }

  lemma PresentCursorSize(charge: Charge, c: Ctx, name: Bytes, index: int)
    requires c.flexible && 0 <= c.version <= I16_MAX && |name| == NAME_LENGTH && FitsSigned(index, 4)
    ensures var v := VSome(Cursor(name, index));
            var wire := WireField(c, CURSOR, v);
            wire.Ok? && |wire.value| == 135 && SizeOfField(charge, CURSOR, v) == 134
  {
    var cursor := Cursor(name, index);
    CursorSize(charge, c, name, index);
    assert WirePresent(c, CURSOR, cursor) == WireBase(c, CURSOR, cursor);
    assert SizeOfPresent(charge, CURSOR, cursor) == SizeOfBase(charge, CURSOR, cursor);
  }

  lemma ManyTopicsSize(charge: Charge, name: Bytes, limit: int, index: int)
    requires ForManyTopics(name, limit, index)
    ensures var mm, v := DESCRIBE_TOPIC_PARTITIONS_REQUEST, ManyTopics(name, limit, index);
            var wire := WireMessage(mm, 0, v);
            wire.Ok? && |wire.value| == 130 * TOPICS + 144 == SizeOfMessage(charge, mm, v) + 1
  {
    var mm, v := DESCRIBE_TOPIC_PARTITIONS_REQUEST, ManyTopics(name, limit, index);
    var c, fields, vs := ContextOf(mm, 0), mm.fields, v.fields;
    TopicsSize(charge, c, name);
    NumberSize(charge, c, limit);
    PresentCursorSize(charge, c, name, index);
    EmptyTagBuffer(charge, c, fields[1..][1..][1..], vs[1..][1..][1..]);
    var last, end := fields[1..][1..], vs[1..][1..];
    assert WireFields(c, last, end).Ok? && |WireFields(c, last, end).value| == 136;
    assert SizeOfFields(charge, last, end) == 134 && TaggedCount(last) == 0;
    assert WireFields(c, fields[1..], vs[1..]).Ok? && |WireFields(c, fields[1..], vs[1..]).value| == 140;
    assert SizeOfFields(charge, fields[1..], vs[1..]) == 138 && TaggedCount(fields[1..]) == 0;
  }

  /**
   The byte in front of a present structure is missing from the estimate: a
   request whose frame is one byte longer.
   */
  lemma PresenceIsNotCharged(
    charge: Charge, common: set<string>, name: Bytes, limit: int, index: int, correlation: int, clientId: Bytes)
    requires ForManyTopics(name, limit, index) && FitsSigned(correlation, 4)
    requires |clientId| <= 0x7fff && Utf8.IsValid(clientId)
    ensures var mm, body := DESCRIBE_TOPIC_PARTITIONS_REQUEST, ManyTopics(name, limit, index);
            var h := Request(mm.apiKey, 0, correlation, Some(clientId));
            && IsMessage(mm, common, 0, body) && IsHeader(h)
            && EncodeFrame(mm, 0, h, body).Ok?
            && |EncodeFrame(mm, 0, h, body).value| == SizeOfFrame(charge, mm, h, body) + 1
  {
    var mm, body := DESCRIBE_TOPIC_PARTITIONS_REQUEST, ManyTopics(name, limit, index);
    var h := Request(mm.apiKey, 0, correlation, Some(clientId));
    Pow256Values();
    ManyTopicsIsMessage(common, name, limit, index);
    ManyTopicsSize(charge, name, limit, index);
    assert WireHeader(mm.apiKey, true, h).Ok?;
    EncodedParts(mm, 0, h, body, []);
  }
}
