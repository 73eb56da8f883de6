/**
 Structures that no bytes decode as: those the decoder has no metadata for and that
 start with a sequence, those that hold a record set with no `Option` around it, and
 those that cannot be without one of them.
 */
module Unreadable {
  import opened Base
  import opened Schema
  import opened Types
  import opened Grammar
  import opened RoundTrip
  import opened Messages
  import opened Descriptors
  import Suffix
  import Varint

  /** A field that is always read, and never with success. */
  predicate UnreadableField(c: Ctx, common: set<string>, parent: Option<VersionRange>, fm: FieldMeta)
    decreases fm, 1
  {
    if IsBare(parent, fm) then fm.kind.RecordsKind? || (!fm.kind.SequenceOf? && UnreadableBase(c, common, fm))
    else fm.version.Within(c.version) && fm.kind.Named? && !fm.IsNullable(c.version) && UnreadableBase(c, common, fm)
  }

  predicate UnreadableBase(c: Ctx, common: set<string>, fm: FieldMeta)
    decreases fm, 0
  {
    fm.BaseKind().Named? && (IsBlind(c.table, fm) || UnreadableFields(c, common, Inner(common, fm), fm.fields))
  }

  predicate UnreadableFields(c: Ctx, common: set<string>, parent: Option<VersionRange>, fields: Fields)
    decreases fields
  {
    exists i :: 0 <= i < |fields| && fields[i].meta.tag.None? && UnreadableField(c, common, parent, fields[i].meta)
  }

  lemma {:induction false} FieldNeverReads(
    c: Ctx, common: set<string>, parent: Option<VersionRange>, fm: FieldMeta, input: Bytes)
    requires UnreadableField(c, common, parent, fm)
    ensures ParseField(c, common, parent, fm, input).Err?
    decreases fm, 1
  {
    if !fm.kind.RecordsKind? {
      BaseNeverReads(c, common, fm, input);
    }
  }

  /** No bytes decode as such a structure. */
  lemma {:induction false} BaseNeverReads(c: Ctx, common: set<string>, fm: FieldMeta, input: Bytes)
    requires UnreadableBase(c, common, fm)
    ensures ParseBase(c, common, fm, input).Err?
    decreases fm, 0
  {
    if !IsBlind(c.table, fm) {
      var parent, fields := Inner(common, fm), fm.fields;
      var i :| 0 <= i < |fields| && fields[i].meta.tag.None? && UnreadableField(c, common, parent, fields[i].meta);
      assert fields[0..] == fields;
      FieldsNeverRead(c, common, parent, fields, 0, i, input);
    }
  }

  lemma {:induction false} FieldsNeverRead(
    c: Ctx, common: set<string>, parent: Option<VersionRange>, fields: Fields, k: nat, i: nat, input: Bytes)
    requires k <= i < |fields| && fields[i].meta.tag.None? && UnreadableField(c, common, parent, fields[i].meta)
    ensures ParseFields(c, common, parent, fields[k..], input).Err?
    decreases fields, 0, i - k
  {
    assert fields[k..][0] == fields[k] && fields[k..][1..] == fields[k + 1..];
    if k == i {
      FieldNeverReads(c, common, parent, fields[i].meta, input);
    } else if fields[k].meta.tag.Some? {
      FieldsNeverRead(c, common, parent, fields, k + 1, i, input);
    } else {
      var first := ParseField(c, common, parent, fields[k].meta, input);
      if first.Ok? {
        FieldsNeverRead(c, common, parent, fields, k + 1, i, first.value.rest);
      }
    }
  }

  // ---------------------------------------------------------------------
  // And nothing else is

  /** The shortest way to say nothing in particular. */
  function SampleField(c: Ctx, common: set<string>, parent: Option<VersionRange>, fm: FieldMeta): (r: Bytes)
    decreases fm, 1
  {
    if IsBare(parent, fm) then SampleBase(c, common, fm)
    else if !fm.version.Within(c.version) then []
    else if fm.kind.RecordsKind? || fm.kind.SequenceOf? then Length(c.flexible, 4)
    else if fm.kind.StringKind? then Length(c.flexible, 2)
    else if fm.IsNullable(c.version) && fm.IsStructure() then [255]
    else SampleBase(c, common, fm)
  }

  function SampleBase(c: Ctx, common: set<string>, fm: FieldMeta): (r: Bytes)
    decreases fm, 0
  {
    match fm.BaseKind()
    case ScalarKind(s) => seq(Width(s), _ => 0)
    case StringKind => Length(c.flexible, 2)
    case BytesKind => Length(c.flexible, 4)
    case Named(_) => SampleFields(c, common, Inner(common, fm), fm.fields)
    case _ => []
  }

  function SampleFields(c: Ctx, common: set<string>, parent: Option<VersionRange>, fields: Fields): (r: Bytes)
    decreases fields
  {
    if fields == [] then (if c.flexible then [0] else [])
    else if fields[0].meta.tag.Some? then SampleFields(c, common, parent, fields[1..])
    else SampleField(c, common, parent, fields[0].meta) + SampleFields(c, common, parent, fields[1..])
  }

  /** A length of nothing. */
  function Length(flexible: bool, width: nat): (r: Bytes) {
    if flexible then [1] else BigEndian(0, width)
  }

  predicate Leaves<T>(r: Result<Parsed<T>>, rest: Bytes) {
    r.Ok? && r.value.rest == rest
  }

  lemma NothingReads(flexible: bool, rest: Bytes)
    ensures ReadString(flexible, Length(flexible, 2) + rest) == Ok(Parsed(VString([]), rest))
    ensures ReadByteString(flexible, Length(flexible, 4) + rest) == Ok(Parsed(VBytes([]), rest))
    ensures ReadNullableString(flexible, Length(flexible, 2) + rest) == Ok(Parsed(VSome(VString([])), rest))
    ensures ReadRecords(flexible, Length(flexible, 4) + rest) == Ok(Parsed(VNone, rest))
    ensures ReadNullableLength(flexible, 4, Length(flexible, 4) + rest) == Ok(Parsed(Some(0), rest))
  {
    StringLengthRoundTrip(flexible, 0, rest);
    BytesLengthRoundTrip(flexible, 0, rest);
    SequenceLengthRoundTrip(flexible, 0, rest);
    assert [] + rest == rest;
    ContentRoundTrip([], rest);
  }

  lemma {:induction false} FieldReads(
    c: Ctx, common: set<string>, parent: Option<VersionRange>, fm: FieldMeta, rest: Bytes)
    requires ValidVersion(c) && Covers(parent, c.version) && ShapedField(fm)
    requires !UnreadableField(c, common, parent, fm)
    ensures Leaves(ParseField(c, common, parent, fm, SampleField(c, common, parent, fm) + rest), rest)
    decreases fm, 1
  {
    NothingReads(c.flexible, rest);
    if IsBare(parent, fm) {
      BareIsValid(parent, fm, c.version);
      BaseReads(c, common, fm, rest);
    } else if !fm.version.Within(c.version) {
      assert [] + rest == rest;
    } else if fm.kind.RecordsKind? || fm.kind.SequenceOf? || fm.kind.StringKind? {
    } else if fm.IsNullable(c.version) && fm.IsStructure() {
      TakeFront([255], rest);
    } else {
      BaseReads(c, common, fm, rest);
    }
  }

  lemma {:induction false} BaseReads(c: Ctx, common: set<string>, fm: FieldMeta, rest: Bytes)
    requires ValidVersion(c) && fm.version.Within(c.version) && ShapedField(fm)
    requires !fm.BaseKind().RecordsKind? && !UnreadableBase(c, common, fm)
    ensures Leaves(ParseBase(c, common, fm, SampleBase(c, common, fm) + rest), rest)
    decreases fm, 0
  {
    NothingReads(c.flexible, rest);
    match fm.BaseKind() {
      case ScalarKind(s) =>
        TakeFront(seq(Width(s), _ => 0), rest);
      case Named(_) =>
        ValidCoversInner(common, fm, c.version);
        FieldsRead(c, common, Inner(common, fm), fm.fields, rest);
      case _ =>
    }
  }

  lemma {:induction false} FieldsRead(
    c: Ctx, common: set<string>, parent: Option<VersionRange>, fields: Fields, rest: Bytes)
    requires ValidVersion(c) && Covers(parent, c.version) && ShapedEach(fields)
    requires !UnreadableFields(c, common, parent, fields)
    ensures Leaves(ParseFields(c, common, parent, fields, SampleFields(c, common, parent, fields) + rest), rest)
    decreases fields
  {
    if fields == [] {
      EmptyTagsRead(c, rest);
    } else {
      assert forall i :: 0 <= i < |fields| - 1 ==> fields[1..][i] == fields[i + 1];
      var others := SampleFields(c, common, parent, fields[1..]);
      FieldsRead(c, common, parent, fields[1..], rest);
      if fields[0].meta.tag.None? {
        FieldReads(c, common, parent, fields[0].meta, others + rest);
        Associate(SampleField(c, common, parent, fields[0].meta), others, rest);
      }
    }
  }

  lemma EmptyTagsRead(c: Ctx, rest: Bytes)
    ensures Leaves(ParseTagBuffer(c, (if c.flexible then [0] else []) + rest), rest)
  {
    if c.flexible {
      Varint.RoundTrip(0, rest);
      assert Varint.Encode(0) == [0];
    } else {
      assert [] + rest == rest;
    }
  }

  /** A structure decodes from some bytes if and only if it is not one of those. */
  lemma {:induction false} ReadsExactly(c: Ctx, common: set<string>, fm: FieldMeta)
    requires ValidVersion(c) && fm.version.Within(c.version) && ShapedField(fm) && fm.BaseKind().Named?
    ensures (exists input :: ParseBase(c, common, fm, input).Ok?) <==> !UnreadableBase(c, common, fm)
  {
    if UnreadableBase(c, common, fm) {
      forall input ensures ParseBase(c, common, fm, input).Err? {
        BaseNeverReads(c, common, fm, input);
      }
    } else {
      BaseReads(c, common, fm, []);
      assert ParseBase(c, common, fm, SampleBase(c, common, fm) + []).Ok?;
    }
  }

  /** A record set decodes from some bytes if and only if it has an `Option` around it, as a nullable one does. */
  lemma {:induction false} RecordsReadExactly(c: Ctx, common: set<string>, parent: Option<VersionRange>, fm: FieldMeta)
    requires ValidVersion(c) && Covers(parent, c.version) && ShapedField(fm) && fm.kind.RecordsKind?
    ensures (exists input :: ParseField(c, common, parent, fm, input).Ok?) <==> !IsBare(parent, fm)
    ensures fm.nullable.Some? ==> !IsBare(parent, fm)
  {
    if IsBare(parent, fm) {
      forall input ensures ParseField(c, common, parent, fm, input).Err? {
        BareRecordsNeverRead(c, common, parent, fm, input);
      }
    } else {
      FieldReads(c, common, parent, fm, []);
      var input := SampleField(c, common, parent, fm) + [];
      assert ParseField(c, common, parent, fm, input).Ok?;
    }
  }

  lemma {:induction false} BareRecordsNeverRead(
    c: Ctx, common: set<string>, parent: Option<VersionRange>, fm: FieldMeta, input: Bytes)
    requires fm.kind.RecordsKind? && IsBare(parent, fm)
    ensures ParseField(c, common, parent, fm, input).Err?
  {
  }

  // ---------------------------------------------------------------------
  // What is never in a decoded message

  /** Whether a struct of that type is anywhere in a value. */
  predicate Holds(v: Value, name: string)
    decreases v
  {
    match v
    case VSome(x) => Holds(x, name)
    case VVec(vs) => exists i :: 0 <= i < |vs| && Holds(vs[i], name)
    case VStruct(n, fields) => n == name || HoldsIn(fields, name)
    case _ => false
  }

  predicate HoldsIn(vs: seq<NamedValue>, name: string)
    decreases vs
  {
    exists i :: 0 <= i < |vs| && Holds(vs[i].value, name)
  }

  /** Every structure of that type is unreadable. */
  predicate DeadField(c: Ctx, common: set<string>, fm: FieldMeta, name: string)
    decreases fm, 1
  {
    (fm.BaseKind() == Named(name) ==> UnreadableBase(c, common, fm)) && DeadIn(c, common, fm.fields, name)
  }

  predicate DeadIn(c: Ctx, common: set<string>, fields: Fields, name: string)
    decreases fields, 0
  {
    forall i :: 0 <= i < |fields| && fields[i].meta.tag.None? ==> DeadField(c, common, fields[i].meta, name)
  }

  lemma {:induction false} BaseHoldsNone(c: Ctx, common: set<string>, fm: FieldMeta, name: string, input: Bytes)
    requires DeadField(c, common, fm, name) && ParseBase(c, common, fm, input).Ok?
    ensures !Holds(ParseBase(c, common, fm, input).value.value, name)
    decreases fm, 0, 0
  {
    if fm.BaseKind() == Named(name) {
      BaseNeverReads(c, common, fm, input);
    } else if fm.BaseKind().Named? && !IsBlind(c.table, fm) {
      FieldsHoldNone(c, common, Inner(common, fm), fm.fields, name, input);
    }
  }

  lemma {:induction false} ElementsHoldNone(
    c: Ctx, common: set<string>, fm: FieldMeta, name: string, count: nat, input: Bytes)
    requires DeadField(c, common, fm, name) && ParseElements(c, common, fm, count, input).Ok?
    ensures !Holds(VVec(ParseElements(c, common, fm, count, input).value.value), name)
    decreases fm, 1, count
  {
    if count > 0 {
      BaseHoldsNone(c, common, fm, name, input);
      var first := ParseBase(c, common, fm, input).value;
      ElementsHoldNone(c, common, fm, name, count - 1, first.rest);
      HoldsNoneCons(first.value, ParseElements(c, common, fm, count - 1, first.rest).value.value, name);
    }
  }

  lemma {:induction false} HoldsNoneCons(v: Value, others: seq<Value>, name: string)
    requires !Holds(v, name) && !Holds(VVec(others), name)
    ensures !Holds(VVec([v] + others), name)
  {
    var all := [v] + others;
    forall i | 0 <= i < |all|
      ensures !Holds(all[i], name)
    {
      assert all[i] == if i == 0 then v else others[i - 1];
    }
  }

  lemma {:induction false} FieldHoldsNone(
    c: Ctx, common: set<string>, parent: Option<VersionRange>, fm: FieldMeta, name: string, input: Bytes)
    requires DeadField(c, common, fm, name) && ParseField(c, common, parent, fm, input).Ok?
    ensures !Holds(ParseField(c, common, parent, fm, input).value.value, name)
    decreases fm, 2, 0
  {
    if IsBare(parent, fm) {
      BaseHoldsNone(c, common, fm, name, input);
    } else if !fm.version.Within(c.version) || fm.kind.RecordsKind? || fm.kind.StringKind? {
    } else if fm.kind.SequenceOf? {
      var length := ReadNullableLength(c.flexible, 4, input).value;
      if length.value.Some? {
        ElementsHoldNone(c, common, fm, name, length.value.value, length.rest);
      }
    } else if fm.IsNullable(c.version) && fm.IsStructure() {
      if input[0] < 128 {
        BaseHoldsNone(c, common, fm, name, input[1..]);
      }
    } else {
      BaseHoldsNone(c, common, fm, name, input);
    }
  }

  lemma {:induction false} FieldsHoldNone(
    c: Ctx, common: set<string>, parent: Option<VersionRange>, fields: Fields, name: string, input: Bytes)
    requires DeadIn(c, common, fields, name) && ParseFields(c, common, parent, fields, input).Ok?
    ensures !HoldsIn(ParseFields(c, common, parent, fields, input).value.value, name)
    decreases fields, 0, 0
  {
    if fields == [] {
      var tags := ParseTagBuffer(c, input).value.value;
      assert tags.VSome? ==> !Holds(tags.some, name);
      assert !Holds(tags, name);
    } else {
      DeadTail(c, common, fields, name);
      if fields[0].meta.tag.Some? {
        FieldsHoldNone(c, common, parent, fields[1..], name, input);
      } else {
        FieldHoldsNone(c, common, parent, fields[0].meta, name, input);
        var first := ParseField(c, common, parent, fields[0].meta, input).value;
        FieldsHoldNone(c, common, parent, fields[1..], name, first.rest);
        HoldsEither(NamedValue(fields[0].name, first.value),
                    ParseFields(c, common, parent, fields[1..], first.rest).value.value, name);
      }
    }
  }

  lemma DeadTail(c: Ctx, common: set<string>, fields: Fields, name: string)
    requires DeadIn(c, common, fields, name) && fields != []
    ensures DeadIn(c, common, fields[1..], name)
  {
    forall i | 0 <= i < |fields[1..]| && fields[1..][i].meta.tag.None?
      ensures DeadField(c, common, fields[1..][i].meta, name)
    {
      assert fields[1..][i] == fields[i + 1];
    }
  }

  lemma HoldsEither(x: NamedValue, others: seq<NamedValue>, name: string)
    requires !Holds(x.value, name) && !HoldsIn(others, name)
    ensures !HoldsIn([x] + others, name)
  {
  }

  /** Whatever the bytes, a message that decodes holds no structure of a type that is unreadable in it. */
  lemma NothingUnreadable(mm: MessageMeta, common: set<string>, version: int, name: string, input: Bytes)
    requires DeadIn(ContextOf(mm, version), common, mm.fields, name) && mm.name != name
    ensures var r := ParseMessage(mm, common, version, input);
            r.Ok? ==> !Holds(r.value.value, name)
  {
    if ParseMessage(mm, common, version, input).Ok? {
      FieldsHoldNone(ContextOf(mm, version), common, None, mm.fields, name, input);
    }
  }

  // ---------------------------------------------------------------------
  // The messages this happens to

  lemma PlainIsDead(c: Ctx, common: set<string>, fm: FieldMeta, name: string)
    requires !fm.BaseKind().Named? && fm.fields == []
    ensures DeadField(c, common, fm, name)
  {
  }

  /** Topic partitions take the sixteen bytes of their id, and more: reading them without end does end. */
  lemma TopicPartitionsTakeBytes(c: Ctx, common: set<string>, input: Bytes)
    requires ParseBase(c, common, TOPIC_PARTITIONS, input).Ok?
    ensures |ParseBase(c, common, TOPIC_PARTITIONS, input).value.rest| <= |input| - 16
  {
    var parent, fields := Inner(common, TOPIC_PARTITIONS), TOPIC_PARTITIONS.fields;
    assert ParseFields(c, common, parent, fields, input).Ok? && fields[0].meta == UUID;
    assert ParseField(c, common, parent, UUID, input) == ReadScalar(Uuid, input);
    Suffix.FieldsLeave(c, common, parent, fields[1..], input[16..]);
  }

  /** A member cannot be without an assignment, and the assignment is not in the table. */
  lemma MembersAreUnreadable(c: Ctx, common: set<string>, members: FieldMeta)
    requires members in {CONSUMER_MEMBERS, SHARE_MEMBERS}
    requires Find(c.table, "Assignment") == None
    ensures UnreadableBase(c, common, members)
  {
    assert IsBlind(c.table, ASSIGNMENT) && UnreadableBase(c, common, ASSIGNMENT);
    assert UnreadableField(c, common, Inner(common, members), ASSIGNMENT);
    var i := if members == CONSUMER_MEMBERS then 8 else 6;
    assert members.fields[i].meta == ASSIGNMENT;
  }

  lemma MembersAreDead(c: Ctx, common: set<string>, members: FieldMeta)
    requires members in {CONSUMER_MEMBERS, SHARE_MEMBERS}
    requires Find(c.table, "Assignment") == None
    ensures DeadField(c, common, members, "Member")
  {
    MembersAreUnreadable(c, common, members);
    var topics := TOPIC_PARTITIONS.fields;
    forall i | 0 <= i < |topics| ensures DeadField(c, common, topics[i].meta, "Member") {
      PlainIsDead(c, common, topics[i].meta, "Member");
    }
    assert DeadField(c, common, TOPIC_PARTITIONS, "Member");
    assert DeadField(c, common, ASSIGNMENT, "Member");
    forall i | 0 <= i < |members.fields| ensures DeadField(c, common, members.fields[i].meta, "Member") {
      if members.fields[i].meta != ASSIGNMENT {
        PlainIsDead(c, common, members.fields[i].meta, "Member");
      }
    }
  }

  lemma GroupsAreDead(c: Ctx, common: set<string>, members: FieldMeta)
    requires DeadField(c, common, members, "Member")
    ensures DeadField(c, common, Groups(members), "Member")
  {
    var fields := Groups(members).fields;
    forall i | 0 <= i < |fields| ensures DeadField(c, common, fields[i].meta, "Member") {
      if i != 7 {
        PlainIsDead(c, common, fields[i].meta, "Member");
      }
    }
  }

  /** No bytes decode as a description of consumer groups, or of share groups, with a member in it. */
  lemma NoMemberDecodes(mm: MessageMeta, common: set<string>, version: int, input: Bytes)
    requires mm in {CONSUMER_GROUP_DESCRIBE_RESPONSE, SHARE_GROUP_DESCRIBE_RESPONSE}
    ensures var r := ParseMessage(mm, common, version, input);
            r.Ok? ==> !Holds(r.value.value, "Member")
  {
    var c := ContextOf(mm, version);
    var members := if mm == CONSUMER_GROUP_DESCRIBE_RESPONSE then CONSUMER_MEMBERS else SHARE_MEMBERS;
    AssignmentIsNotListed();
    MembersAreDead(c, common, members);
    GroupsAreDead(c, common, members);
    PlainIsDead(c, common, INT32, "Member");
    NothingUnreadable(mm, common, version, "Member", input);
  }

  lemma PartitionsAreDead(c: Ctx, common: set<string>)
    ensures DeadField(c, common, TOPIC_SNAPSHOTS, "PartitionSnapshot")
  {
    var name, fields := "PartitionSnapshot", PARTITION_SNAPSHOTS.fields;
    assert UnreadableField(c, common, Inner(common, PARTITION_SNAPSHOTS), fields[6].meta);
    assert UnreadableBase(c, common, PARTITION_SNAPSHOTS);
    PlainIsDead(c, common, INT64, name);
    PlainIsDead(c, common, INT32, name);
    assert DeadField(c, common, SNAPSHOT_ID, name);
    forall i | 0 <= i < |fields| && fields[i].meta.tag.None? ensures DeadField(c, common, fields[i].meta, name) {
      if i != 2 {
        PlainIsDead(c, common, fields[i].meta, name);
      }
    }
    PlainIsDead(c, common, STRING, name);
    assert DeadField(c, common, PARTITION_SNAPSHOTS, name);
  }

  /** No bytes decode as a fetched snapshot with a partition in it. */
  lemma NoPartitionDecodes(common: set<string>, version: int, input: Bytes)
    ensures var r := ParseMessage(FETCH_SNAPSHOT_RESPONSE, common, version, input);
            r.Ok? ==> !Holds(r.value.value, "PartitionSnapshot")
  {
    var c := ContextOf(FETCH_SNAPSHOT_RESPONSE, version);
    PartitionsAreDead(c, common);
    PlainIsDead(c, common, INT32, "PartitionSnapshot");
    PlainIsDead(c, common, INT16, "PartitionSnapshot");
    NothingUnreadable(FETCH_SNAPSHOT_RESPONSE, common, version, "PartitionSnapshot", input);
  }
}
