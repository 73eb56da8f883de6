/**
 Some of the messages that the repository describes in JSON, as the generator
 renders their metadata. Each is well-formed.
 */
module Descriptors {
  import opened Base
  import opened Schema
  import opened Types

  const EVERY := VersionRange(0, I16_MAX)
  const LATER := VersionRange(1, I16_MAX)

  const INT8 := FieldMeta(LATER, None, ScalarKind(Int8), None, [])
  const INT16 := FieldMeta(EVERY, None, ScalarKind(Int16), None, [])
  const INT32 := FieldMeta(EVERY, None, ScalarKind(Int32), None, [])
  const INT64 := FieldMeta(EVERY, None, ScalarKind(Int64), None, [])
  const UUID := FieldMeta(EVERY, None, ScalarKind(Uuid), None, [])
  const STRING := FieldMeta(EVERY, None, StringKind, None, [])
  const NULLABLE_STRING := FieldMeta(EVERY, Some(EVERY), StringKind, None, [])
  const STRINGS := FieldMeta(EVERY, None, SequenceOf(StringKind), None, [])
  const INT32S := FieldMeta(EVERY, None, SequenceOf(ScalarKind(Int32)), None, [])

  // ---------------------------------------------------------------------
  // Tables, piece by piece

  lemma {:induction false} ListAppends(a: Fields, b: Fields)
    ensures ListStructures(a + b) == ListStructures(a) + ListStructures(b)
    decreases |a|
  {
    if a == [] {
      assert a + b == b;
    } else {
      assert (a + b)[1..] == a[1..] + b;
      ListAppends(a[1..], b);
    }
  }

  lemma {:induction false} NoneListed(fields: Fields)
    requires forall i :: 0 <= i < |fields| ==> NestedStructures(fields[i].meta) == []
    ensures ListStructures(fields) == []
  {
    if fields != [] {
      NoneListed(fields[1..]);
    }
  }

  /** A field list with one structure in it. */
  lemma OneListed(before: Fields, f: Field, after: Fields)
    requires forall i :: 0 <= i < |before| ==> NestedStructures(before[i].meta) == []
    requires forall i :: 0 <= i < |after| ==> NestedStructures(after[i].meta) == []
    ensures ListStructures(before + [f] + after) == NestedStructures(f.meta)
  {
    NoneListed(before);
    NoneListed(after);
    ListAppends(before + [f], after);
    ListAppends(before, [f]);
    assert ListStructures([f]) == NestedStructures(f.meta) + ListStructures([f][1..]);
    assert [f][1..] == [];
  }

  lemma {:induction false} AllApart(fields: Fields)
    ensures ApartFields(true, fields)
    decreases fields, 0
  {
    forall i | 0 <= i < |fields| ensures ApartField(true, fields[i].meta) {
      AllApart(fields[i].meta.fields);
    }
  }

  // ---------------------------------------------------------------------
  // DescribeTopicPartitionsRequest

  const TOPIC_REQUESTS :=
    FieldMeta(EVERY, None, SequenceOf(Named("TopicRequest")), None, [Field("name", STRING)])
  const CURSOR :=
    FieldMeta(EVERY, Some(EVERY), Named("Cursor"), None, [Field("topic_name", STRING), Field("partition_index", INT32)])
  const DESCRIBE_TOPIC_PARTITIONS_REQUEST := MessageMeta("DescribeTopicPartitionsRequest", 75, EVERY, [
    Field("topics", TOPIC_REQUESTS), Field("response_partition_limit", INT32), Field("cursor", CURSOR)])

  lemma DescribeTopicPartitionsTable()
    ensures Structures(DESCRIBE_TOPIC_PARTITIONS_REQUEST)
            == [Field("TopicRequest", TOPIC_REQUESTS), Field("Cursor", CURSOR)]
  {
    NoneListed(TOPIC_REQUESTS.fields);
    NoneListed(CURSOR.fields);
    var fields := DESCRIBE_TOPIC_PARTITIONS_REQUEST.fields;
    assert ListTopStructures(fields[1..][1..][1..]) == [];
    assert ListTopStructures(fields[1..][1..]) == TopStructures(CURSOR) + [];
    assert ListTopStructures(fields[1..]) == [] + ListTopStructures(fields[1..][1..]);
    assert ListTopStructures(fields) == TopStructures(TOPIC_REQUESTS) + ListTopStructures(fields[1..]);
  }

  lemma TopicPartitionsShaped()
    ensures ShapedFields(DESCRIBE_TOPIC_PARTITIONS_REQUEST.fields)
  {
    assert ShapedField(STRING) && ShapedField(INT32);
    assert ShapedFields(TOPIC_REQUESTS.fields) && ShapedField(TOPIC_REQUESTS);
    assert ShapedFields(CURSOR.fields) && ShapedField(CURSOR);
  }

  lemma TopicPartitionsNames()
    ensures var mm := DESCRIBE_TOPIC_PARTITIONS_REQUEST;
            && IsTypeName(mm.name) && IsMessageName(mm.name)
            && forall i :: 0 <= i < |mm.fields| ==> mm.fields[i].name !in RESERVED
  {
    assert EndsWith(DESCRIBE_TOPIC_PARTITIONS_REQUEST.name, "Request");
  }

  lemma TopicPartitionsApart(apart: bool)
    ensures ApartFields(apart, DESCRIBE_TOPIC_PARTITIONS_REQUEST.fields)
  {
    assert ApartField(apart, STRING) && ApartField(apart, INT32);
    assert ApartField(apart, TOPIC_REQUESTS) && ApartField(apart, CURSOR);
  }

  lemma TopicPartitionsResolved(common: set<string>)
    ensures ResolvedFields(DESCRIBE_TOPIC_PARTITIONS_REQUEST, common, DESCRIBE_TOPIC_PARTITIONS_REQUEST.fields)
  {
    DescribeTopicPartitionsTable();
    var mm := DESCRIBE_TOPIC_PARTITIONS_REQUEST;
    FindAt(Structures(mm), 0);
    FindAt(Structures(mm), 1);
    assert ResolvedField(mm, common, STRING) && ResolvedField(mm, common, INT32);
    assert ResolvedField(mm, common, TOPIC_REQUESTS) && ResolvedField(mm, common, CURSOR);
  }

  lemma DescribeTopicPartitionsIsWellFormed(common: set<string>)
    ensures WellFormed(DESCRIBE_TOPIC_PARTITIONS_REQUEST, common)
  {
    var mm := DESCRIBE_TOPIC_PARTITIONS_REQUEST;
    TopicPartitionsNames();
    TopicPartitionsShaped();
    TopicPartitionsApart(Apart(mm.fields));
    TopicPartitionsResolved(common);
    DescribeTopicPartitionsTable();
    FindAbsent(Structures(mm), mm.name);
    FindAbsent(Structures(mm), "Frame");
    FindAbsent(Structures(mm), "HeaderMezzanine");
  }

  // ---------------------------------------------------------------------
  // ProduceRequest

  const TRANSACTIONAL := VersionRange(3, I16_MAX)
  const TRANSACTIONAL_ID := FieldMeta(TRANSACTIONAL, Some(TRANSACTIONAL), StringKind, None, [])
  const NULLABLE_RECORDS := FieldMeta(EVERY, Some(EVERY), RecordsKind, None, [])
  const PARTITION_DATA := FieldMeta(EVERY, None, SequenceOf(Named("PartitionProduceData")), None, [
    Field("index", INT32), Field("records", NULLABLE_RECORDS)])
  const TOPIC_DATA := FieldMeta(EVERY, None, SequenceOf(Named("TopicProduceData")), None, [
    Field("name", STRING), Field("partition_data", PARTITION_DATA)])
  const PRODUCE_REQUEST := MessageMeta("ProduceRequest", 0, VersionRange(9, I16_MAX), [
    Field("transactional_id", TRANSACTIONAL_ID), Field("acks", INT16), Field("timeout_ms", INT32),
    Field("topic_data", TOPIC_DATA)])

  lemma TopicDataTable()
    ensures TopStructures(TOPIC_DATA)
            == [Field("PartitionProduceData", PARTITION_DATA), Field("TopicProduceData", TOPIC_DATA)]
  {
    NoneListed(PARTITION_DATA.fields);
    OneListed([Field("name", STRING)], Field("partition_data", PARTITION_DATA), []);
    assert TOPIC_DATA.fields == [Field("name", STRING)] + [Field("partition_data", PARTITION_DATA)] + [];
  }

  lemma ProduceTable()
    ensures Structures(PRODUCE_REQUEST)
            == [Field("PartitionProduceData", PARTITION_DATA), Field("TopicProduceData", TOPIC_DATA)]
  {
    TopicDataTable();
    var fields := PRODUCE_REQUEST.fields;
    assert ListTopStructures(fields[1..][1..][1..][1..]) == [];
    assert ListTopStructures(fields[1..][1..][1..]) == TopStructures(TOPIC_DATA) + [];
    assert ListTopStructures(fields[1..][1..]) == [] + ListTopStructures(fields[1..][1..][1..]);
    assert ListTopStructures(fields[1..]) == [] + ListTopStructures(fields[1..][1..]);
    assert ListTopStructures(fields) == [] + ListTopStructures(fields[1..]);
  }

  lemma ProduceShaped()
    ensures ShapedFields(PRODUCE_REQUEST.fields) && ShapedField(TOPIC_DATA) && ShapedField(PARTITION_DATA)
  {
    assert ShapedField(STRING) && ShapedField(INT16) && ShapedField(INT32);
    assert ShapedField(TRANSACTIONAL_ID) && ShapedField(NULLABLE_RECORDS);
    assert ShapedFields(PARTITION_DATA.fields) && ShapedField(PARTITION_DATA);
    assert ShapedFields(TOPIC_DATA.fields) && ShapedField(TOPIC_DATA);
  }

  lemma ProduceNames()
    ensures var mm := PRODUCE_REQUEST;
            && IsTypeName(mm.name) && IsMessageName(mm.name)
            && forall i :: 0 <= i < |mm.fields| ==> mm.fields[i].name !in RESERVED
  {
    assert EndsWith(PRODUCE_REQUEST.name, "Request");
  }

  lemma ProduceApart(apart: bool)
    ensures ApartFields(apart, PRODUCE_REQUEST.fields)
  {
    assert ApartField(apart, STRING) && ApartField(apart, INT16) && ApartField(apart, INT32);
    assert ApartField(apart, TRANSACTIONAL_ID) && ApartField(apart, NULLABLE_RECORDS);
    assert ApartFields(apart, PARTITION_DATA.fields) && ApartField(apart, PARTITION_DATA);
    assert ApartFields(apart, TOPIC_DATA.fields) && ApartField(apart, TOPIC_DATA);
  }

  lemma ProduceResolved(common: set<string>)
    ensures ResolvedFields(PRODUCE_REQUEST, common, PRODUCE_REQUEST.fields)
  {
    ProduceTable();
    var mm := PRODUCE_REQUEST;
    FindAt(Structures(mm), 0);
    FindAt(Structures(mm), 1);
    assert ResolvedField(mm, common, STRING) && ResolvedField(mm, common, INT16) && ResolvedField(mm, common, INT32);
    assert ResolvedField(mm, common, TRANSACTIONAL_ID) && ResolvedField(mm, common, NULLABLE_RECORDS);
    assert ResolvedField(mm, common, PARTITION_DATA) && ResolvedField(mm, common, TOPIC_DATA);
  }

  lemma ProduceIsWellFormed(common: set<string>)
    ensures WellFormed(PRODUCE_REQUEST, common)
  {
    var mm := PRODUCE_REQUEST;
    ProduceNames();
    ProduceShaped();
    ProduceApart(Apart(mm.fields));
    ProduceResolved(common);
    ProduceTable();
    FindAbsent(Structures(mm), mm.name);
    FindAbsent(Structures(mm), "Frame");
    FindAbsent(Structures(mm), "HeaderMezzanine");
  }

  // ---------------------------------------------------------------------
  // EnvelopeResponse

  const NULLABLE_BYTES := FieldMeta(EVERY, Some(EVERY), BytesKind, None, [])
  const ENVELOPE_RESPONSE := MessageMeta("EnvelopeResponse", 58, EVERY, [
    Field("response_data", NULLABLE_BYTES), Field("error_code", INT16)])

  lemma EnvelopeNames()
    ensures var mm := ENVELOPE_RESPONSE;
            && IsTypeName(mm.name) && IsMessageName(mm.name)
            && forall i :: 0 <= i < |mm.fields| ==> mm.fields[i].name !in RESERVED
  {
    assert EndsWith(ENVELOPE_RESPONSE.name, "Response");
  }

  lemma EnvelopeTable()
    ensures Structures(ENVELOPE_RESPONSE) == []
  {
    var fields := ENVELOPE_RESPONSE.fields;
    assert ListTopStructures(fields[1..][1..]) == [];
    assert ListTopStructures(fields[1..]) == [];
  }

  lemma EnvelopeShaped(apart: bool)
    ensures ShapedFields(ENVELOPE_RESPONSE.fields) && ApartFields(apart, ENVELOPE_RESPONSE.fields)
  {
    assert ShapedField(NULLABLE_BYTES) && ShapedField(INT16);
    assert ApartField(apart, NULLABLE_BYTES) && ApartField(apart, INT16);
  }

  lemma EnvelopeResolved(common: set<string>)
    ensures ResolvedFields(ENVELOPE_RESPONSE, common, ENVELOPE_RESPONSE.fields)
  {
    assert ResolvedField(ENVELOPE_RESPONSE, common, NULLABLE_BYTES);
    assert ResolvedField(ENVELOPE_RESPONSE, common, INT16);
  }

  lemma EnvelopeIsWellFormed(common: set<string>)
    ensures WellFormed(ENVELOPE_RESPONSE, common)
  {
    EnvelopeNames();
    EnvelopeTable();
    EnvelopeShaped(Apart(ENVELOPE_RESPONSE.fields));
    EnvelopeResolved(common);
  }

  // ---------------------------------------------------------------------
  // FetchSnapshotResponse

  const RECORDS := FieldMeta(EVERY, None, RecordsKind, None, [])
  const SNAPSHOT_ID := FieldMeta(EVERY, None, Named("SnapshotId"), None, [
    Field("end_offset", INT64), Field("epoch", INT32)])
  const SNAPSHOT_LEADER := FieldMeta(EVERY, None, Named("LeaderIdAndEpoch"), Some(0), [
    Field("leader_id", INT32), Field("leader_epoch", INT32)])
  const PARTITION_SNAPSHOTS := FieldMeta(EVERY, None, SequenceOf(Named("PartitionSnapshot")), None, [
    Field("index", INT32), Field("error_code", INT16), Field("snapshot_id", SNAPSHOT_ID),
    Field("current_leader", SNAPSHOT_LEADER), Field("size", INT64), Field("position", INT64),
    Field("unaligned_records", RECORDS)])
  const TOPIC_SNAPSHOTS := FieldMeta(EVERY, None, SequenceOf(Named("TopicSnapshot")), None, [
    Field("name", STRING), Field("partitions", PARTITION_SNAPSHOTS)])
  const NODE_ENDPOINTS := FieldMeta(LATER, None, SequenceOf(Named("NodeEndpoint")), Some(0), [
    Field("node_id", FieldMeta(LATER, None, ScalarKind(Int32), None, [])),
    Field("host", FieldMeta(LATER, None, StringKind, None, [])),
    Field("port", FieldMeta(LATER, None, ScalarKind(UInt16), None, []))])
  const FETCH_SNAPSHOT_RESPONSE := MessageMeta("FetchSnapshotResponse", 59, EVERY, [
    Field("throttle_time_ms", INT32), Field("error_code", INT16), Field("topics", TOPIC_SNAPSHOTS),
    Field("node_endpoints", NODE_ENDPOINTS)])

  lemma PartitionSnapshotsTable()
    ensures ListStructures(PARTITION_SNAPSHOTS.fields) == []
  {
    NoneListed(SNAPSHOT_ID.fields);
    NoneListed(SNAPSHOT_LEADER.fields);
    NoneListed(PARTITION_SNAPSHOTS.fields);
  }

  lemma SnapshotTable()
    ensures Structures(FETCH_SNAPSHOT_RESPONSE)
            == [Field("PartitionSnapshot", PARTITION_SNAPSHOTS), Field("TopicSnapshot", TOPIC_SNAPSHOTS),
                Field("NodeEndpoint", NODE_ENDPOINTS)]
  {
    PartitionSnapshotsTable();
    NoneListed(NODE_ENDPOINTS.fields);
    OneListed([Field("name", STRING)], Field("partitions", PARTITION_SNAPSHOTS), []);
    assert TOPIC_SNAPSHOTS.fields == [Field("name", STRING)] + [Field("partitions", PARTITION_SNAPSHOTS)] + [];
    assert TopStructures(TOPIC_SNAPSHOTS)
        == [Field("PartitionSnapshot", PARTITION_SNAPSHOTS), Field("TopicSnapshot", TOPIC_SNAPSHOTS)];
    assert TopStructures(NODE_ENDPOINTS) == [Field("NodeEndpoint", NODE_ENDPOINTS)];
    var fields := FETCH_SNAPSHOT_RESPONSE.fields;
    assert ListTopStructures(fields[1..][1..][1..][1..]) == [];
    assert ListTopStructures(fields[1..][1..][1..]) == TopStructures(NODE_ENDPOINTS) + [];
    assert ListTopStructures(fields[1..][1..]) == TopStructures(TOPIC_SNAPSHOTS) + TopStructures(NODE_ENDPOINTS);
    assert ListTopStructures(fields[1..]) == [] + ListTopStructures(fields[1..][1..]);
    assert ListTopStructures(fields) == [] + ListTopStructures(fields[1..]);
  }

  lemma PartitionSnapshotsShaped()
    ensures ShapedField(PARTITION_SNAPSHOTS)
  {
    assert ShapedField(INT16) && ShapedField(INT32) && ShapedField(INT64) && ShapedField(RECORDS);
    assert ShapedFields(SNAPSHOT_ID.fields) && ShapedField(SNAPSHOT_ID);
    assert ShapedFields(PARTITION_SNAPSHOTS.fields);
  }

  lemma SnapshotShaped()
    ensures ShapedFields(FETCH_SNAPSHOT_RESPONSE.fields)
  {
    PartitionSnapshotsShaped();
    assert ShapedField(STRING) && ShapedField(INT16) && ShapedField(INT32);
    assert ShapedFields(TOPIC_SNAPSHOTS.fields) && ShapedField(TOPIC_SNAPSHOTS);
  }

  lemma SnapshotNames()
    ensures var mm := FETCH_SNAPSHOT_RESPONSE;
            && IsTypeName(mm.name) && IsMessageName(mm.name) && Apart(mm.fields)
            && forall i :: 0 <= i < |mm.fields| ==> mm.fields[i].name !in RESERVED
  {
    assert EndsWith(FETCH_SNAPSHOT_RESPONSE.name, "Response");
  }

  lemma SnapshotResolved(common: set<string>)
    ensures ResolvedFields(FETCH_SNAPSHOT_RESPONSE, common, FETCH_SNAPSHOT_RESPONSE.fields)
  {
    SnapshotTable();
    var mm := FETCH_SNAPSHOT_RESPONSE;
    FindAt(Structures(mm), 1);
    PartitionSnapshotsResolve(common);
    assert ResolvedField(mm, common, STRING) && ResolvedField(mm, common, INT16) && ResolvedField(mm, common, INT32);
    assert ResolvedField(mm, common, TOPIC_SNAPSHOTS);
  }

  lemma PartitionSnapshotsResolve(common: set<string>)
    ensures ResolvedField(FETCH_SNAPSHOT_RESPONSE, common, PARTITION_SNAPSHOTS)
  {
    SnapshotTable();
    var mm := FETCH_SNAPSHOT_RESPONSE;
    FindAt(Structures(mm), 0);
    SnapshotIdResolves(common);
    assert ResolvedField(mm, common, INT16) && ResolvedField(mm, common, INT32);
    assert ResolvedField(mm, common, INT64) && ResolvedField(mm, common, RECORDS);
    assert ResolvedFields(mm, common, PARTITION_SNAPSHOTS.fields);
  }

  /** It is not in the table, and needs nothing from it. */
  lemma SnapshotIdResolves(common: set<string>)
    ensures ResolvedField(FETCH_SNAPSHOT_RESPONSE, common, SNAPSHOT_ID)
  {
    SnapshotTable();
    FindAbsent(Structures(FETCH_SNAPSHOT_RESPONSE), "SnapshotId");
    assert !EndsWith("SnapshotId", "Request") && !EndsWith("SnapshotId", "Response");
    assert IsFlat(Inner(common, SNAPSHOT_ID), SNAPSHOT_ID.fields);
  }

  lemma SnapshotIsWellFormed(common: set<string>)
    ensures WellFormed(FETCH_SNAPSHOT_RESPONSE, common)
  {
    var mm := FETCH_SNAPSHOT_RESPONSE;
    SnapshotNames();
    SnapshotShaped();
    AllApart(mm.fields);
    SnapshotResolved(common);
    SnapshotTable();
    FindAbsent(Structures(mm), mm.name);
    FindAbsent(Structures(mm), "Frame");
    FindAbsent(Structures(mm), "HeaderMezzanine");
  }

  // ---------------------------------------------------------------------
  // ConsumerGroupDescribeResponse and ShareGroupDescribeResponse

  const TOPIC_PARTITIONS := FieldMeta(EVERY, None, SequenceOf(Named("TopicPartitions")), None, [
    Field("topic_id", UUID), Field("topic_name", STRING), Field("partitions", INT32S)])
  const ASSIGNMENT := FieldMeta(EVERY, None, Named("Assignment"), None, [
    Field("topic_partitions", TOPIC_PARTITIONS)])

  const MEMBER := [
    Field("member_id", STRING), Field("rack_id", NULLABLE_STRING), Field("member_epoch", INT32),
    Field("client_id", STRING), Field("client_host", STRING), Field("subscribed_topic_names", STRINGS)]
  const SHARE_MEMBERS := FieldMeta(EVERY, None, SequenceOf(Named("Member")), None,
                                   MEMBER + [Field("assignment", ASSIGNMENT)])
  const CONSUMER_MEMBERS := FieldMeta(EVERY, None, SequenceOf(Named("Member")), None, [
    Field("member_id", STRING), Field("instance_id", NULLABLE_STRING), Field("rack_id", NULLABLE_STRING),
    Field("member_epoch", INT32), Field("client_id", STRING), Field("client_host", STRING),
    Field("subscribed_topic_names", STRINGS), Field("subscribed_topic_regex", NULLABLE_STRING),
    Field("assignment", ASSIGNMENT), Field("target_assignment", ASSIGNMENT), Field("member_type", INT8)])

  const GROUP := [
    Field("error_code", INT16), Field("error_message", NULLABLE_STRING), Field("group_id", STRING),
    Field("group_state", STRING), Field("group_epoch", INT32), Field("assignment_epoch", INT32),
    Field("assignor_name", STRING)]
  const OPERATIONS := Field("authorized_operations", INT32)

  /** The two differ in their members. */
  function Groups(members: FieldMeta): (r: FieldMeta) {
    FieldMeta(EVERY, None, SequenceOf(Named("DescribedGroup")), None,
              GROUP + [Field("members", members)] + [OPERATIONS])
  }

  function DescribeResponse(name: string, apiKey: int, members: FieldMeta): (r: MessageMeta) {
    MessageMeta(name, apiKey, EVERY, [Field("throttle_time_ms", INT32), Field("groups", Groups(members))])
  }

  const CONSUMER_GROUP_DESCRIBE_RESPONSE := DescribeResponse("ConsumerGroupDescribeResponse", 69, CONSUMER_MEMBERS)
  const SHARE_GROUP_DESCRIBE_RESPONSE := DescribeResponse("ShareGroupDescribeResponse", 77, SHARE_MEMBERS)

  lemma AssignmentTable()
    ensures NestedStructures(ASSIGNMENT) == [Field("TopicPartitions", TOPIC_PARTITIONS)]
  {
    NoneListed(TOPIC_PARTITIONS.fields);
    OneListed([], Field("topic_partitions", TOPIC_PARTITIONS), []);
    assert ASSIGNMENT.fields == [] + [Field("topic_partitions", TOPIC_PARTITIONS)] + [];
  }

  lemma ShareMembersTable()
    ensures NestedStructures(SHARE_MEMBERS)
            == [Field("TopicPartitions", TOPIC_PARTITIONS), Field("Member", SHARE_MEMBERS)]
  {
    AssignmentTable();
    OneListed(MEMBER, Field("assignment", ASSIGNMENT), []);
    assert SHARE_MEMBERS.fields == MEMBER + [Field("assignment", ASSIGNMENT)] + [];
  }

  lemma ConsumerMembersTable()
    ensures NestedStructures(CONSUMER_MEMBERS)
            == [Field("TopicPartitions", TOPIC_PARTITIONS), Field("TopicPartitions", TOPIC_PARTITIONS),
                Field("Member", CONSUMER_MEMBERS)]
  {
    var fields := CONSUMER_MEMBERS.fields;
    AssignmentTable();
    OneListed(fields[..8], fields[8], []);
    OneListed([], fields[9], fields[10..]);
    ListAppends(fields[..9], fields[9..]);
    assert fields[..9] == fields[..8] + [fields[8]] + [];
    assert fields[9..] == [] + [fields[9]] + fields[10..];
    assert fields == fields[..9] + fields[9..];
  }

  lemma DescribeTable(name: string, apiKey: int, members: FieldMeta)
    ensures Structures(DescribeResponse(name, apiKey, members))
            == NestedStructures(members) + [Field("DescribedGroup", Groups(members))]
  {
    var groups := Groups(members);
    OneListed(GROUP, Field("members", members), [OPERATIONS]);
    var fields := DescribeResponse(name, apiKey, members).fields;
    assert ListTopStructures(fields[1..][1..]) == [];
    assert ListTopStructures(fields[1..]) == TopStructures(groups) + [];
    assert ListTopStructures(fields) == [] + ListTopStructures(fields[1..]);
  }

  /** Neither table lists `Assignment`, which is a single structure below the top level. */
  lemma AssignmentIsNotListed()
    ensures Find(Structures(CONSUMER_GROUP_DESCRIBE_RESPONSE), "Assignment") == None
    ensures Find(Structures(SHARE_GROUP_DESCRIBE_RESPONSE), "Assignment") == None
  {
    DescribeTable("ConsumerGroupDescribeResponse", 69, CONSUMER_MEMBERS);
    ConsumerMembersTable();
    FindAbsent(Structures(CONSUMER_GROUP_DESCRIBE_RESPONSE), "Assignment");
    DescribeTable("ShareGroupDescribeResponse", 77, SHARE_MEMBERS);
    ShareMembersTable();
    FindAbsent(Structures(SHARE_GROUP_DESCRIBE_RESPONSE), "Assignment");
  }

  lemma TopicPartitionsShape()
    ensures ShapedField(ASSIGNMENT) && ShapedField(TOPIC_PARTITIONS)
  {
    assert ShapedField(STRING) && ShapedField(UUID) && ShapedField(INT32S);
    assert ShapedFields(TOPIC_PARTITIONS.fields) && ShapedField(TOPIC_PARTITIONS);
    assert ShapedFields(ASSIGNMENT.fields);
  }

  lemma PlainShapes()
    ensures ShapedField(STRING) && ShapedField(NULLABLE_STRING) && ShapedField(STRINGS)
    ensures ShapedField(INT8) && ShapedField(INT16) && ShapedField(INT32)
  {
  }

  lemma ConsumerMemberNames()
    ensures DistinctNames(CONSUMER_MEMBERS.fields)
  {
  }

  lemma ShareMemberNames()
    ensures DistinctNames(SHARE_MEMBERS.fields)
  {
  }

  lemma GroupNames(members: FieldMeta)
    ensures DistinctNames(Groups(members).fields)
  {
  }

  lemma MembersShape()
    ensures ShapedField(CONSUMER_MEMBERS) && ShapedField(SHARE_MEMBERS)
  {
    PlainShapes();
    TopicPartitionsShape();
    ConsumerMemberNames();
    ShareMemberNames();
    assert ShapedFields(CONSUMER_MEMBERS.fields);
    assert ShapedFields(SHARE_MEMBERS.fields);
  }

  lemma DescribeShape(name: string, apiKey: int, members: FieldMeta)
    requires ShapedField(members)
    ensures ShapedFields(DescribeResponse(name, apiKey, members).fields)
  {
    PlainShapes();
    GroupNames(members);
    assert ShapedFields(Groups(members).fields);
    assert ShapedField(Groups(members));
  }

  lemma DescribeNames(name: string, apiKey: int, members: FieldMeta)
    ensures var fields := DescribeResponse(name, apiKey, members).fields;
            Apart(fields) && forall i :: 0 <= i < |fields| ==> fields[i].name !in RESERVED
  {
  }

  /** A table that starts with the topic partitions and holds the other two structures. */
  predicate Lists(table: Fields, members: FieldMeta) {
    && Find(table, "TopicPartitions") == Some(TOPIC_PARTITIONS)
    && Find(table, "Member") == Some(members)
    && Find(table, "DescribedGroup") == Some(Groups(members))
    && Find(table, "Assignment") == None
  }

  lemma TopicPartitionsResolve(mm: MessageMeta, members: FieldMeta, common: set<string>)
    requires Lists(Structures(mm), members)
    ensures ResolvedField(mm, common, TOPIC_PARTITIONS) && ResolvedField(mm, common, ASSIGNMENT)
  {
    assert ResolvedField(mm, common, STRING) && ResolvedField(mm, common, UUID) && ResolvedField(mm, common, INT32S);
    assert ResolvedField(mm, common, TOPIC_PARTITIONS);
    assert !EndsWith("Assignment", "Request") && !EndsWith("Assignment", "Response");
    assert StartsWithSequence(ASSIGNMENT.fields);
  }

  lemma PlainResolve(mm: MessageMeta, common: set<string>)
    ensures ResolvedField(mm, common, STRING) && ResolvedField(mm, common, NULLABLE_STRING)
    ensures ResolvedField(mm, common, STRINGS) && ResolvedField(mm, common, INT8)
    ensures ResolvedField(mm, common, INT16) && ResolvedField(mm, common, INT32)
  {
  }

  lemma GroupsResolve(mm: MessageMeta, members: FieldMeta, common: set<string>)
    requires Lists(Structures(mm), members)
    requires members.kind == SequenceOf(Named("Member")) && ResolvedFields(mm, common, members.fields)
    ensures ResolvedField(mm, common, Groups(members))
  {
    PlainResolve(mm, common);
    assert ResolvedField(mm, common, members);
    assert ResolvedFields(mm, common, Groups(members).fields);
  }

  lemma ConsumerLists()
    ensures Lists(Structures(CONSUMER_GROUP_DESCRIBE_RESPONSE), CONSUMER_MEMBERS)
  {
    var table := Structures(CONSUMER_GROUP_DESCRIBE_RESPONSE);
    DescribeTable("ConsumerGroupDescribeResponse", 69, CONSUMER_MEMBERS);
    ConsumerMembersTable();
    AssignmentIsNotListed();
    FindAt(table[2..], 0);
    FindAt(table[2..], 1);
    assert table[1..][1..] == table[2..];
  }

  lemma ShareLists()
    ensures Lists(Structures(SHARE_GROUP_DESCRIBE_RESPONSE), SHARE_MEMBERS)
  {
    var table := Structures(SHARE_GROUP_DESCRIBE_RESPONSE);
    DescribeTable("ShareGroupDescribeResponse", 77, SHARE_MEMBERS);
    ShareMembersTable();
    AssignmentIsNotListed();
    FindAt(table, 0);
    FindAt(table, 1);
    FindAt(table, 2);
  }

  lemma DescribeWritable(name: string, apiKey: int, members: FieldMeta)
    requires IsTypeName(name) && ShapedField(members)
    ensures Writable(DescribeResponse(name, apiKey, members))
  {
    var fields := DescribeResponse(name, apiKey, members).fields;
    DescribeNames(name, apiKey, members);
    AllApart(fields);
    DescribeShape(name, apiKey, members);
  }

  lemma ConsumerMembersResolve(mm: MessageMeta, common: set<string>)
    requires Lists(Structures(mm), CONSUMER_MEMBERS)
    ensures ResolvedFields(mm, common, CONSUMER_MEMBERS.fields)
  {
    TopicPartitionsResolve(mm, CONSUMER_MEMBERS, common);
    PlainResolve(mm, common);
  }

  lemma ShareMembersResolve(mm: MessageMeta, common: set<string>)
    requires Lists(Structures(mm), SHARE_MEMBERS)
    ensures ResolvedFields(mm, common, SHARE_MEMBERS.fields)
  {
    TopicPartitionsResolve(mm, SHARE_MEMBERS, common);
    PlainResolve(mm, common);
  }

  lemma DescribeResolved(name: string, apiKey: int, members: FieldMeta, common: set<string>)
    requires var mm := DescribeResponse(name, apiKey, members);
             Lists(Structures(mm), members) && ResolvedFields(mm, common, members.fields)
    requires members.kind == SequenceOf(Named("Member"))
    ensures var mm := DescribeResponse(name, apiKey, members); ResolvedFields(mm, common, mm.fields)
  {
    var mm := DescribeResponse(name, apiKey, members);
    PlainResolve(mm, common);
    GroupsResolve(mm, members, common);
  }

  lemma ConsumerDescribeApart()
    ensures var mm := CONSUMER_GROUP_DESCRIBE_RESPONSE;
            && IsTypeName(mm.name) && IsMessageName(mm.name) && Find(Structures(mm), mm.name) == None
            && Find(Structures(mm), "Frame") == None && Find(Structures(mm), "HeaderMezzanine") == None
  {
    DescribeTable("ConsumerGroupDescribeResponse", 69, CONSUMER_MEMBERS);
    ConsumerMembersTable();
    NotAStructure(CONSUMER_GROUP_DESCRIBE_RESPONSE);
    assert EndsWith("ConsumerGroupDescribeResponse", "Response");
  }

  lemma ShareDescribeApart()
    ensures var mm := SHARE_GROUP_DESCRIBE_RESPONSE;
            && IsTypeName(mm.name) && IsMessageName(mm.name) && Find(Structures(mm), mm.name) == None
            && Find(Structures(mm), "Frame") == None && Find(Structures(mm), "HeaderMezzanine") == None
  {
    DescribeTable("ShareGroupDescribeResponse", 77, SHARE_MEMBERS);
    ShareMembersTable();
    NotAStructure(SHARE_GROUP_DESCRIBE_RESPONSE);
    assert EndsWith("ShareGroupDescribeResponse", "Response");
  }

  lemma ConsumerDescribeIsWellFormed(common: set<string>)
    ensures WellFormed(CONSUMER_GROUP_DESCRIBE_RESPONSE, common)
  {
    ConsumerDescribeApart();
    MembersShape();
    DescribeWritable("ConsumerGroupDescribeResponse", 69, CONSUMER_MEMBERS);
    ConsumerLists();
    ConsumerMembersResolve(CONSUMER_GROUP_DESCRIBE_RESPONSE, common);
    DescribeResolved("ConsumerGroupDescribeResponse", 69, CONSUMER_MEMBERS, common);
  }

  lemma ShareDescribeIsWellFormed(common: set<string>)
    ensures WellFormed(SHARE_GROUP_DESCRIBE_RESPONSE, common)
  {
    ShareDescribeApart();
    MembersShape();
    DescribeWritable("ShareGroupDescribeResponse", 77, SHARE_MEMBERS);
    ShareLists();
    ShareMembersResolve(SHARE_GROUP_DESCRIBE_RESPONSE, common);
    DescribeResolved("ShareGroupDescribeResponse", 77, SHARE_MEMBERS, common);
  }

  /** No structure of these messages is named like the message or what is around it. */
  lemma NotAStructure(mm: MessageMeta)
    requires mm.name in {"ConsumerGroupDescribeResponse", "ShareGroupDescribeResponse"}
    requires forall i :: 0 <= i < |Structures(mm)| ==>
               Structures(mm)[i].name in {"TopicPartitions", "Member", "DescribedGroup"}
    ensures Find(Structures(mm), mm.name) == None
    ensures Find(Structures(mm), "Frame") == None
    ensures Find(Structures(mm), "HeaderMezzanine") == None
  {
    FindAbsent(Structures(mm), mm.name);
    FindAbsent(Structures(mm), "Frame");
    FindAbsent(Structures(mm), "HeaderMezzanine");
  }
}
