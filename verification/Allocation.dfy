/**
 The allocation estimate: what `maximum_allocation_size` says of a frame, against
 how long the frame is. The two differ by an excess that is read off the frame
 without encoding it, and the estimate is an upper bound exactly when that is not
 positive. What makes it positive, in the main, are two things that are never
 charged for: the length in front of a record set and the byte in front of a
 present nullable structure.
 */
module Allocation {
  import opened Base
  import opened Schema
  import opened Types
  import opened Grammar
  import opened RoundTrip
  import opened Messages
  import opened FrameGrammar
  import opened Frames
  import Varint

  const TAG_BUFFER_COUNT_ALLOWANCE := 1
  const TAG_FIELD_ALLOWANCE := 6

  function TagBufferAllowance(tagged: nat): (r: nat) {
    TAG_BUFFER_COUNT_ALLOWANCE + tagged * TAG_FIELD_ALLOWANCE
  }

  function TaggedCount(fields: Fields): (r: nat) {
    if fields == [] then 0 else (if fields[0].meta.tag.Some? then 1 else 0) + TaggedCount(fields[1..])
  }

  /**
   What a tagged field is charged, by its metadata and the struct's tag buffer: four
   bytes if it is absent, and otherwise what its value is charged, which is in the
   buffer as a payload and not part of this model. Nothing here depends on how much.
   */
  type Charge = (FieldMeta, Value) -> nat

  /** An absent field is charged the four bytes of a length, whatever its kind. */
  function SizeOfField(charge: Charge, fm: FieldMeta, v: Value): (r: nat)
    decreases fm, 3, 0
  {
    match v
    case VNone => 4
    case VSome(x) => SizeOfPresent(charge, fm, x)
    case _ => SizeOfPresent(charge, fm, v)
  }

  function SizeOfPresent(charge: Charge, fm: FieldMeta, v: Value): (r: nat)
    decreases fm, 2, 0
  {
    if fm.kind.SequenceOf? && v.VVec? then 4 + SizeOfElements(charge, fm, v.elements) else SizeOfBase(charge, fm, v)
  }

  function SizeOfElements(charge: Charge, fm: FieldMeta, vs: seq<Value>): (r: nat)
    decreases fm, 1, |vs|
  {
    if vs == [] then 0 else SizeOfBase(charge, fm, vs[0]) + SizeOfElements(charge, fm, vs[1..])
  }

  function SizeOfBase(charge: Charge, fm: FieldMeta, v: Value): (r: nat)
    decreases fm, 0, 0
  {
    match fm.BaseKind()
    case ScalarKind(s) => Width(s)
    case StringKind => if v.VString? then 2 + |v.s| else 0
    case BytesKind => if v.VBytes? then 4 + |v.s| else 0
    case RecordsKind => if v.VRecords? && AreBatches(v.batches) then |WireBatches(v.batches)| else 0
    case Named(_) =>
      if v.VStruct? then TagBufferAllowance(TaggedCount(fm.fields)) + SizeOfFields(charge, fm.fields, v.fields) else 0
    case SequenceOf(_) => 0
  }

  /** The last thing in a struct. */
  function TagBuffer(vs: seq<NamedValue>): (r: Value)
    requires vs != []
  {
    vs[|vs| - 1].value
  }

  /** The fields of a struct; a tagged one is charged for although it is not there. */
  function SizeOfFields(charge: Charge, fields: Fields, vs: seq<NamedValue>): (r: nat)
    decreases fields, 0, 0
  {
    if fields == [] || vs == [] then 0
    else if fields[0].meta.tag.Some? then charge(fields[0].meta, TagBuffer(vs)) + SizeOfFields(charge, fields[1..], vs)
    else SizeOfField(charge, fields[0].meta, vs[0].value) + SizeOfFields(charge, fields[1..], vs[1..])
  }

  /** What is generated for each struct: a running total, field after field. */
  method SumFields(charge: Charge, fields: Fields, vs: seq<NamedValue>) returns (total: nat)
    ensures total == TagBufferAllowance(TaggedCount(fields)) + SizeOfFields(charge, fields, vs)
  {
    total := TagBufferAllowance(TaggedCount(fields));
    var i, k := 0, 0;
    while i < |fields| && k < |vs|
      invariant 0 <= i <= |fields| && 0 <= k <= |vs|
      invariant total + SizeOfFields(charge, fields[i..], vs[k..])
             == TagBufferAllowance(TaggedCount(fields)) + SizeOfFields(charge, fields, vs)
    {
      assert fields[i..][1..] == fields[i + 1..] && vs[k..][1..] == vs[k + 1..];
      if fields[i].meta.tag.Some? {
        total := total + charge(fields[i].meta, TagBuffer(vs));
      } else {
        total := total + SizeOfField(charge, fields[i].meta, vs[k].value);
        k := k + 1;
      }
      i := i + 1;
    }
  }

  function SizeOfMessage(charge: Charge, mm: MessageMeta, v: Value): (r: nat) {
    if v.VStruct? then TagBufferAllowance(TaggedCount(mm.fields)) + SizeOfFields(charge, mm.fields, v.fields) else 0
  }

  // ---------------------------------------------------------------------
  // How much longer than its charge a value is

  /** A length in front of something, against the bytes charged for it. */
  function LengthExcess(flexible: bool, length: nat, charged: nat): (r: int) {
    if flexible then Varint.LengthOf(length + 1) - charged else 0
  }

  /** The length in front of a record set, which nothing is charged for. */
  function RecordsLength(flexible: bool, length: nat): (r: nat) {
    if flexible then Varint.LengthOf((length + 1) % U32_LIMIT) else 4
  }

  /** What stands for an absent field, against the four bytes charged for it. */
  function NullExcess(flexible: bool, fm: FieldMeta): (r: int) {
    if fm.IsStructure() && !fm.kind.SequenceOf? && !fm.kind.RecordsKind? then -3
    else if flexible then -3
    else if fm.kind.SequenceOf? || fm.kind.RecordsKind? then 0
    else if fm.kind.StringKind? then -2
    else -4
  }

  /** Without an `Option` around it a record set is written without its records. */
  function RecordData(batches: seq<Batch>): (r: nat)
    requires AreBatches(batches)
  {
    if batches == [] then 0 else |batches[0].body| - FIXED_BATCH_LENGTH + RecordData(batches[1..])
  }

  function TagListLength(tags: seq<TagField>): (r: nat) {
    if tags == [] then 0
    else
      Varint.LengthOf(tags[0].tag) + Varint.LengthOf(|tags[0].data|) + |tags[0].data| + TagListLength(tags[1..])
  }

  function TagBufferLength(flexible: bool, v: Value): (r: nat) {
    if flexible && v.VSome? && v.some.VTags? then Varint.LengthOf(|v.some.tags|) + TagListLength(v.some.tags) else 0
  }

  function ExcessOfField(charge: Charge, c: Ctx, fm: FieldMeta, v: Value): (r: int)
    decreases fm, 3, 0
  {
    if !fm.version.Within(c.version) then 0 - SizeOfField(charge, fm, v)
    else match v
      case VNone => NullExcess(c.flexible, fm)
      case VSome(x) => |Presence(c, fm)| + ExcessOfPresent(charge, c, fm, x)
      case VRecords(batches) => if AreBatches(batches) then 0 - RecordData(batches) else 0
      case _ => ExcessOfPresent(charge, c, fm, v)
  }

  function ExcessOfPresent(charge: Charge, c: Ctx, fm: FieldMeta, v: Value): (r: int)
    decreases fm, 2, 0
  {
    if fm.kind.SequenceOf? && v.VVec?
    then LengthExcess(c.flexible, |v.elements|, 4) + ExcessOfElements(charge, c, fm, v.elements)
    else ExcessOfBase(charge, c, fm, v)
  }

  function ExcessOfElements(charge: Charge, c: Ctx, fm: FieldMeta, vs: seq<Value>): (r: int)
    decreases fm, 1, |vs|
  {
    if vs == [] then 0 else ExcessOfBase(charge, c, fm, vs[0]) + ExcessOfElements(charge, c, fm, vs[1..])
  }

  function ExcessOfBase(charge: Charge, c: Ctx, fm: FieldMeta, v: Value): (r: int)
    decreases fm, 0, 0
  {
    match v
    case VString(s) => LengthExcess(c.flexible, |s|, 2)
    case VBytes(s) => LengthExcess(c.flexible, |s|, 4)
    case VRecords(batches) => if AreBatches(batches) then RecordsLength(c.flexible, |WireBatches(batches)|) else 0
    case VStruct(_, fields) => if fm.BaseKind().Named? then ExcessOfFields(charge, c, fm.fields, fields) else 0
    case _ => 0
  }

  /** A tagged field is charged for twice, and what there is of it is in the tag buffer. */
  function ExcessOfFields(charge: Charge, c: Ctx, fields: Fields, vs: seq<NamedValue>): (r: int)
    decreases fields, 0, 0
  {
    if vs == [] then 0
    else if fields == [] then TagBufferLength(c.flexible, vs[0].value) - TAG_BUFFER_COUNT_ALLOWANCE
    else if fields[0].meta.tag.Some? then
      ExcessOfFields(charge, c, fields[1..], vs) - charge(fields[0].meta, TagBuffer(vs)) - TAG_FIELD_ALLOWANCE
    else ExcessOfField(charge, c, fields[0].meta, vs[0].value) + ExcessOfFields(charge, c, fields[1..], vs[1..])
  }

  // ---------------------------------------------------------------------
  // The length of what is written is the charge and the excess

  lemma CompactLength(length: nat)
    requires CompactPrefix(length).Ok?
    ensures |CompactPrefix(length).value| == Varint.LengthOf(length + 1)
  {
    Varint.EncodedLength(length + 1);
  }

  lemma {:induction false} HeadsLength(batches: seq<Batch>)
    requires AreBatches(batches)
    ensures |WireHeads(batches)| == |WireBatches(batches)| - RecordData(batches)
  {
    if batches != [] {
      HeadsLength(batches[1..]);
    }
  }

  lemma {:induction false} TagListIsThatLong(tags: seq<TagField>)
    requires AreTags(tags) && WireTagList(tags).Ok?
    ensures |WireTagList(tags).value| == TagListLength(tags)
  {
    if tags != [] {
      Varint.EncodedLength(tags[0].tag);
      Varint.EncodedLength(|tags[0].data|);
      TagListIsThatLong(tags[1..]);
    }
  }

  lemma TagBufferIsThatLong(c: Ctx, v: Value)
    requires HasType(v, TOption(TTags)) && WireTagBuffer(c, v).Ok?
    ensures |WireTagBuffer(c, v).value| == TagBufferLength(c.flexible, v)
  {
    if c.flexible && v.VSome? {
      assert HasType(v.some, TTags);
      Varint.EncodedLength(|v.some.tags|);
      TagListIsThatLong(v.some.tags);
    }
  }

  lemma {:induction false} BaseLength(charge: Charge, c: Ctx, common: set<string>, fm: FieldMeta, v: Value)
    requires ShapedField(fm) && HasType(v, BaseType(common, fm)) && WireBase(c, fm, v).Ok?
    ensures |WireBase(c, fm, v).value| == SizeOfBase(charge, fm, v) + ExcessOfBase(charge, c, fm, v)
    decreases fm, 0, 0
  {
    BaseValues(common, fm, v);
    match fm.BaseKind() {
      case ScalarKind(s) =>
      case StringKind =>
        if c.flexible { CompactLength(|v.s|); }
      case BytesKind =>
        if c.flexible { CompactLength(|v.s|); }
      case RecordsKind =>
        if c.flexible { Varint.EncodedLength((|WireBatches(v.batches)| + 1) % U32_LIMIT); }
      case Named(_) =>
        FieldsLength(charge, c, common, Inner(common, fm), fm.fields, v.fields);
    }
  }

  lemma {:induction false} ElementsLength(charge: Charge, c: Ctx, common: set<string>, fm: FieldMeta, vs: seq<Value>)
    requires ShapedField(fm) && WireElements(c, fm, vs).Ok?
    requires forall i :: 0 <= i < |vs| ==> HasType(vs[i], BaseType(common, fm))
    ensures |WireElements(c, fm, vs).value| == SizeOfElements(charge, fm, vs) + ExcessOfElements(charge, c, fm, vs)
    decreases fm, 1, |vs|
  {
    if vs != [] {
      BaseLength(charge, c, common, fm, vs[0]);
      ElementsLength(charge, c, common, fm, vs[1..]);
    }
  }

  lemma {:induction false} PresentLength(charge: Charge, c: Ctx, common: set<string>, fm: FieldMeta, v: Value)
    requires ShapedField(fm) && WirePresent(c, fm, v).Ok?
    requires if fm.kind.SequenceOf?
             then v.VVec? && forall i :: 0 <= i < |v.elements| ==> HasType(v.elements[i], BaseType(common, fm))
             else HasType(v, BaseType(common, fm))
    ensures |WirePresent(c, fm, v).value| == SizeOfPresent(charge, fm, v) + ExcessOfPresent(charge, c, fm, v)
    decreases fm, 2, 0
  {
    if fm.kind.SequenceOf? {
      ElementsLength(charge, c, common, fm, v.elements);
      if c.flexible { CompactLength(|v.elements|); }
    } else {
      BaseLength(charge, c, common, fm, v);
    }
  }

  lemma {:induction false} FieldLength(
    charge: Charge, c: Ctx, common: set<string>, parent: Option<VersionRange>, fm: FieldMeta, v: Value)
    requires ShapedField(fm) && HasType(v, FieldType(common, parent, fm)) && WireField(c, fm, v).Ok?
    ensures |WireField(c, fm, v).value| == SizeOfField(charge, fm, v) + ExcessOfField(charge, c, fm, v)
    decreases fm, 3, 0
  {
    FieldValues(common, parent, fm, v);
    if fm.version.Within(c.version) {
      if IsBare(parent, fm) {
        BaseValues(common, fm, v);
        if fm.kind.RecordsKind? {
          HeadsLength(v.batches);
          assert SizeOfPresent(charge, fm, v) == SizeOfBase(charge, fm, v);
        } else {
          PresentLength(charge, c, common, fm, v);
        }
      } else if v.VSome? {
        PresentLength(charge, c, common, fm, v.some);
      }
    }
  }

  lemma {:induction false} FieldsLength(
    charge: Charge, c: Ctx, common: set<string>, parent: Option<VersionRange>, fields: Fields, vs: seq<NamedValue>)
    requires ShapedEach(fields) && HaveTypes(vs, FieldTypes(common, parent, fields)) && WireFields(c, fields, vs).Ok?
    ensures |WireFields(c, fields, vs).value|
            == TagBufferAllowance(TaggedCount(fields)) + SizeOfFields(charge, fields, vs)
               + ExcessOfFields(charge, c, fields, vs)
    decreases fields, 0, 0
  {
    if fields == [] {
      assert |vs| == 1 && HasType(vs[0].value, TOption(TTags));
      TagBufferIsThatLong(c, vs[0].value);
    } else if fields[0].meta.tag.Some? {
      FieldsLength(charge, c, common, parent, fields[1..], vs);
    } else {
      FieldLength(charge, c, common, parent, fields[0].meta, vs[0].value);
      FieldsLength(charge, c, common, parent, fields[1..], vs[1..]);
    }
  }

  // ---------------------------------------------------------------------
  // Frames

  function SizeOfHeader(h: Header): (r: nat) {
    match h
    case Request(_, _, _, clientId) =>
      2 + 2 + 4 + (if clientId.None? then 4 else 2 + |clientId.value|) + TAG_BUFFER_COUNT_ALLOWANCE
    case Response(_) => 4 + TAG_BUFFER_COUNT_ALLOWANCE
  }

  function SizeOfFrame(charge: Charge, mm: MessageMeta, h: Header, body: Value): (r: nat) {
    4 + SizeOfHeader(h) + SizeOfMessage(charge, mm, body)
  }

  /** A header has something to spare, if anything: a missing client id takes two bytes, a tag buffer at most one. */
  function ExcessOfHeader(apiKey: int, flexible: bool, h: Header): (r: int)
    ensures -3 <= r <= 0
  {
    match h
    case Request(_, _, _, clientId) => (if clientId.None? then -2 else 0) + (if flexible then 0 else -1)
    case Response(_) => if flexible && apiKey != API_VERSIONS then 0 else -1
  }

  function ExcessOfFrame(charge: Charge, mm: MessageMeta, version: int, h: Header, body: Value): (r: int) {
    if !body.VStruct? then 0
    else
      ExcessOfHeader(mm.apiKey, mm.flexible.Within(version), h)
      + ExcessOfFields(charge, ContextOf(mm, version), mm.fields, body.fields)
  }

  /** How long every frame is, at every version: its estimate and its excess. */
  lemma FrameIsThatLong(charge: Charge, mm: MessageMeta, common: set<string>, version: int, h: Header, body: Value)
    requires IsHeader(h) && IsBody(mm, common, body) && EncodeFrame(mm, version, h, body).Ok?
    ensures |EncodeFrame(mm, version, h, body).value|
            == SizeOfFrame(charge, mm, h, body) + ExcessOfFrame(charge, mm, version, h, body)
  {
    FieldsLength(charge, ContextOf(mm, version), common, None, mm.fields, body.fields);
    EncodedParts(mm, version, h, body, []);
  }

  /** And when there is one: the message can be written, and the size fits the four bytes in front. */
  lemma EncodesExactly(charge: Charge, mm: MessageMeta, common: set<string>, version: int, h: Header, body: Value)
    requires IsHeader(h) && IsBody(mm, common, body)
    requires WireHeader(mm.apiKey, mm.flexible.Within(version), h).Ok? && WireMessage(mm, version, body).Ok?
    ensures EncodeFrame(mm, version, h, body).Ok?
            <==> SizeOfFrame(charge, mm, h, body) + ExcessOfFrame(charge, mm, version, h, body) - 4 <= I32_MAX
  {
    FieldsLength(charge, ContextOf(mm, version), common, None, mm.fields, body.fields);
    FrameIsItsParts(mm, version, h, body);
  }

  /** So the estimate is an upper bound exactly of the frames that have no excess. */
  lemma FitsExactly(charge: Charge, mm: MessageMeta, common: set<string>, version: int, h: Header, body: Value)
    requires IsHeader(h) && IsBody(mm, common, body) && EncodeFrame(mm, version, h, body).Ok?
    ensures |EncodeFrame(mm, version, h, body).value| <= SizeOfFrame(charge, mm, h, body)
            <==> ExcessOfFrame(charge, mm, version, h, body) <= 0
  {
    FrameIsThatLong(charge, mm, common, version, h, body);
  }

  // ---------------------------------------------------------------------
  // What is never charged for, and what is not charged enough

  function UnchargedInField(c: Ctx, fm: FieldMeta, v: Value): (r: nat)
    decreases fm, 3, 0
  {
    if !fm.version.Within(c.version) then 0
    else match v
      case VNone => 0
      case VSome(x) => |Presence(c, fm)| + UnchargedInPresent(c, fm, x)
      case VRecords(_) => 0
      case _ => UnchargedInPresent(c, fm, v)
  }

  function UnchargedInPresent(c: Ctx, fm: FieldMeta, v: Value): (r: nat)
    decreases fm, 2, 0
  {
    if fm.kind.SequenceOf? && v.VVec? then UnchargedInElements(c, fm, v.elements) else UnchargedInBase(c, fm, v)
  }

  function UnchargedInElements(c: Ctx, fm: FieldMeta, vs: seq<Value>): (r: nat)
    decreases fm, 1, |vs|
  {
    if vs == [] then 0 else UnchargedInBase(c, fm, vs[0]) + UnchargedInElements(c, fm, vs[1..])
  }

  function UnchargedInBase(c: Ctx, fm: FieldMeta, v: Value): (r: nat)
    decreases fm, 0, 0
  {
    match v
    case VRecords(batches) => if AreBatches(batches) then RecordsLength(c.flexible, |WireBatches(batches)|) else 0
    case VStruct(_, fields) => if fm.BaseKind().Named? then UnchargedInFields(c, fm.fields, fields) else 0
    case _ => 0
  }

  function UnchargedInFields(c: Ctx, fields: Fields, vs: seq<NamedValue>): (r: nat)
    decreases fields, 0, 0
  {
    if fields == [] || vs == [] then 0
    else if fields[0].meta.tag.Some? then UnchargedInFields(c, fields[1..], vs)
    else UnchargedInField(c, fields[0].meta, vs[0].value) + UnchargedInFields(c, fields[1..], vs[1..])
  }

  const SHORT_STRING := 16382
  const SHORT_SEQUENCE := 0x1000_0000 - 2

  /** In a flexible version, of what is on the wire: strings whose length fits two bytes, and the rest four. */
  predicate ShortField(c: Ctx, fm: FieldMeta, v: Value)
    decreases fm, 3, 0
  {
    c.flexible && fm.version.Within(c.version) ==>
      match v
      case VNone => true
      case VSome(x) => ShortPresent(c, fm, x)
      case _ => ShortPresent(c, fm, v)
  }

  predicate ShortPresent(c: Ctx, fm: FieldMeta, v: Value)
    decreases fm, 2, 0
  {
    if fm.kind.SequenceOf? && v.VVec? then |v.elements| <= SHORT_SEQUENCE && ShortElements(c, fm, v.elements)
    else ShortBase(c, fm, v)
  }

  predicate ShortElements(c: Ctx, fm: FieldMeta, vs: seq<Value>)
    decreases fm, 1, |vs|
  {
    vs != [] ==> ShortBase(c, fm, vs[0]) && ShortElements(c, fm, vs[1..])
  }

  predicate ShortBase(c: Ctx, fm: FieldMeta, v: Value)
    decreases fm, 0, 0
  {
    match v
    case VString(s) => |s| <= SHORT_STRING
    case VBytes(s) => |s| <= SHORT_SEQUENCE
    case VStruct(_, fields) => fm.BaseKind().Named? ==> ShortFields(c, fm.fields, fields)
    case _ => true
  }

  /** And no tagged field is present. */
  predicate ShortFields(c: Ctx, fields: Fields, vs: seq<NamedValue>)
    decreases fields, 0, 0
  {
    c.flexible && vs != [] ==>
      if fields == [] then vs[0].value.VNone? || vs[0].value == VSome(VTags([]))
      else if fields[0].meta.tag.Some? then ShortFields(c, fields[1..], vs)
      else ShortField(c, fields[0].meta, vs[0].value) && ShortFields(c, fields[1..], vs[1..])
  }

  lemma {:induction false} BaseBound(charge: Charge, c: Ctx, fm: FieldMeta, v: Value)
    requires c.flexible ==> ShortBase(c, fm, v)
    ensures ExcessOfBase(charge, c, fm, v) <= UnchargedInBase(c, fm, v)
    decreases fm, 0, 0
  {
    if v.VStruct? && fm.BaseKind().Named? {
      FieldsBound(charge, c, fm.fields, v.fields);
    }
  }

  lemma {:induction false} ElementsBound(charge: Charge, c: Ctx, fm: FieldMeta, vs: seq<Value>)
    requires c.flexible ==> ShortElements(c, fm, vs)
    ensures ExcessOfElements(charge, c, fm, vs) <= UnchargedInElements(c, fm, vs)
    decreases fm, 1, |vs|
  {
    if vs != [] {
      BaseBound(charge, c, fm, vs[0]);
      ElementsBound(charge, c, fm, vs[1..]);
    }
  }

  lemma {:induction false} PresentBound(charge: Charge, c: Ctx, fm: FieldMeta, v: Value)
    requires c.flexible ==> ShortPresent(c, fm, v)
    ensures ExcessOfPresent(charge, c, fm, v) <= UnchargedInPresent(c, fm, v)
    decreases fm, 2, 0
  {
    if fm.kind.SequenceOf? && v.VVec? {
      ElementsBound(charge, c, fm, v.elements);
    } else {
      BaseBound(charge, c, fm, v);
    }
  }

  lemma {:induction false} FieldBound(charge: Charge, c: Ctx, fm: FieldMeta, v: Value)
    requires ShortField(c, fm, v)
    ensures ExcessOfField(charge, c, fm, v) <= UnchargedInField(c, fm, v)
    decreases fm, 3, 0
  {
    if fm.version.Within(c.version) && !v.VNone? && !v.VRecords? {
      PresentBound(charge, c, fm, if v.VSome? then v.some else v);
    }
  }

  lemma {:induction false} FieldsBound(charge: Charge, c: Ctx, fields: Fields, vs: seq<NamedValue>)
    requires ShortFields(c, fields, vs)
    ensures ExcessOfFields(charge, c, fields, vs) <= UnchargedInFields(c, fields, vs)
    decreases fields, 0, 0
  {
    if vs == [] || fields == [] {
    } else if fields[0].meta.tag.Some? {
      FieldsBound(charge, c, fields[1..], vs);
    } else {
      FieldBound(charge, c, fields[0].meta, vs[0].value);
      FieldsBound(charge, c, fields[1..], vs[1..]);
    }
  }

  /**
   With no tagged field present and nothing very long, a frame is no longer than
   its estimate and the bytes that are never charged for.
   */
  lemma EstimateCoversFrame(
    charge: Charge, mm: MessageMeta, common: set<string>, version: int, h: Header, body: Value)
    requires IsHeader(h) && IsBody(mm, common, body)
    requires EncodeFrame(mm, version, h, body).Ok?
    requires ShortFields(ContextOf(mm, version), mm.fields, body.fields)
    ensures |EncodeFrame(mm, version, h, body).value|
            <= SizeOfFrame(charge, mm, h, body) + UnchargedInFields(ContextOf(mm, version), mm.fields, body.fields)
  {
    FrameIsThatLong(charge, mm, common, version, h, body);
    FieldsBound(charge, ContextOf(mm, version), mm.fields, body.fields);
  }

  /**
   In a flexible version the limit on the length of a string, or of a byte
   string, is exact: one byte more and the estimate is too small.
   */
  lemma ShortExactly(charge: Charge, c: Ctx, fm: FieldMeta, v: Value)
    requires c.flexible && WireBase(c, fm, v).Ok?
    requires (fm.BaseKind().StringKind? && v.VString?) || (fm.BaseKind().BytesKind? && v.VBytes?)
    ensures |WireBase(c, fm, v).value| <= SizeOfBase(charge, fm, v) <==> ShortBase(c, fm, v)
  {
    CompactLength(|v.s|);
  }
}
