/**
 The wire format as a grammar over the schema: what the bytes of a field are,
 and what a field reads back as. Neither half has any state; the two machines in
 `Encoder` and `Decoder` are proved to compute exactly these functions.

 The format is the "Protocol Primitive Types" of the Apache Kafka protocol guide,
 with the compact forms and tag buffers of flexible versions (KIP-482).
 */
module Grammar {
  import opened Base
  import opened Schema
  import opened Types
  import Utf8
  import Varint

  /** The version a message is encoded at, whether it is flexible, and the decoder's table of structures. */
  datatype Ctx = Ctx(version: int, flexible: bool, table: Fields)

  const MESSAGE_MAX_SIZE := 1024 * 1024 * 1024
  const MAXIMUM_TAGGED_FIELDS := 128

  // ---------------------------------------------------------------------
  // Fixed-width values

  function Width(s: Scalar): (r: nat) {
    match s
    case Bool => 1
    case Int8 => 1
    case Int16 => 2
    case Int32 => 4
    case Int64 => 8
    case UInt16 => 2
    case Float64 => 8
    case Uuid => 16
  }

  function WireScalar(s: Scalar, v: Value): (r: Bytes)
    requires HasScalarType(v, s)
  {
    match s
    case Bool => [if v.b then 1 else 0]
    case Int8 => Signed(v.n, 1)
    case Int16 => Signed(v.n, 2)
    case Int32 => Signed(v.n, 4)
    case Int64 => Signed(v.n, 8)
    case UInt16 => BigEndian(v.n, 2)
    case Float64 => BigEndian(v.n, 8)
    case Uuid => v.u
  }

  function ScalarFrom(s: Scalar, b: Bytes): (r: Value)
    requires |b| == Width(s)
  {
    match s
    case Bool => VBool(b[0] != 0)
    case UInt16 => VInt(FromBigEndian(b))
    case Float64 => VInt(FromBigEndian(b))
    case Uuid => VUuid(b)
    case _ => VInt(FromSigned(b))
  }

  function ReadScalar(s: Scalar, input: Bytes): (r: Result<Parsed<Value>>) {
    var p :- Take(input, Width(s));
    Ok(Parsed(ScalarFrom(s, p.value), p.rest))
  }

  // ---------------------------------------------------------------------
  // Lengths

  /** A compact length: one more than the length, so that zero can mean null. */
  function CompactPrefix(length: nat): (r: Result<Bytes>) {
    if length + 1 < U32_LIMIT then Ok(Varint.Encode(length + 1)) else Err(TryFromInt)
  }

  function StringPrefix(flexible: bool, length: nat): (r: Result<Bytes>) {
    if flexible then CompactPrefix(length)
    else if length <= 0x7fff then Ok(BigEndian(length, 2))
    else Err(TryFromInt)
  }

  function BytesPrefix(flexible: bool, length: nat): (r: Result<Bytes>) {
    if flexible then CompactPrefix(length)
    else if length < U32_LIMIT then Ok(BigEndian(length, 4))
    else Err(TryFromInt)
  }

  function SequencePrefix(flexible: bool, length: nat): (r: Result<Bytes>) {
    if flexible then CompactPrefix(length)
    else if length <= 0x7fff_ffff then Ok(BigEndian(length, 4))
    else Err(TryFromInt)
  }

  /**
   The length is a `u32` before one is added to it, so the largest wraps round to
   null; in a build with overflow checks the addition panics instead.
   */
  function RecordsPrefix(flexible: bool, length: nat): (r: Result<Bytes>) {
    if length >= U32_LIMIT then Err(TryFromInt)
    else if flexible then Ok(Varint.Encode((length + 1) % U32_LIMIT))
    else Ok(BigEndian(length, 4))
  }

  function ReadCompact(input: Bytes): (r: Result<Parsed<nat>>) {
    var p :- Varint.Read(input);
    if p.value == 0 then Err(Overflow) else Ok(Parsed(p.value - 1, p.rest))
  }

  function ReadUnsigned(input: Bytes, width: nat): (r: Result<Parsed<nat>>) {
    var p :- Take(input, width);
    Ok(Parsed(FromBigEndian(p.value), p.rest))
  }

  /** A signed length that must not be negative. */
  function ReadLength(input: Bytes, width: nat): (r: Result<Parsed<nat>>) {
    var p :- Take(input, width);
    var n := FromSigned(p.value);
    if n < 0 then Err(TryFromInt) else Ok(Parsed(n, p.rest))
  }

  function ReadStringLength(flexible: bool, input: Bytes): (r: Result<Parsed<nat>>) {
    if flexible then ReadCompact(input) else ReadLength(input, 2)
  }

  /** The length of a byte string, or of a record set. */
  function ReadBytesLength(flexible: bool, input: Bytes): (r: Result<Parsed<nat>>) {
    if flexible then ReadCompact(input) else ReadUnsigned(input, 4)
  }

  /** A length that may be null: zero in the compact form, minus one in the other. */
  function ReadNullableLength(flexible: bool, width: nat, input: Bytes): (r: Result<Parsed<Option<nat>>>) {
    if flexible then
      var p :- Varint.Read(input);
      Ok(Parsed(if p.value == 0 then None else Some(p.value - 1), p.rest))
    else
      var p :- Take(input, width);
      var n := FromSigned(p.value);
      if n == -1 then Ok(Parsed(None, p.rest))
      else if n < 0 then Err(TryFromInt)
      else Ok(Parsed(Some(n), p.rest))
  }

  /** That many bytes, unless they are more than a message may hold. */
  function ReadContent(length: nat, input: Bytes): (r: Result<Parsed<Bytes>>) {
    if length > MESSAGE_MAX_SIZE then Err(MessageMaxSizeExceeded(length)) else Take(input, length)
  }

  // ---------------------------------------------------------------------
  // Record sets

  function WireBatch(b: Batch): (r: Bytes)
    requires IsBatch(b)
  {
    Signed(b.baseOffset, 8) + Signed(b.batchLength, 4) + b.body
  }

  function WireBatches(batches: seq<Batch>): (r: Bytes)
    requires AreBatches(batches)
  {
    if batches == [] then [] else WireBatch(batches[0]) + WireBatches(batches[1..])
  }

  /** A batch without its length in front of it and without its records: its fields of a fixed width. */
  function WireHead(b: Batch): (r: Bytes)
    requires IsBatch(b)
  {
    Signed(b.baseOffset, 8) + Signed(b.batchLength, 4) + b.body[..FIXED_BATCH_LENGTH]
  }

  /** What is written for a record set that has no `Option` around it. */
  function WireHeads(batches: seq<Batch>): (r: Bytes)
    requires AreBatches(batches)
  {
    if batches == [] then [] else WireHead(batches[0]) + WireHeads(batches[1..])
  }

  const MAGIC_RECORD_BATCH_V2 := 2

  /** Whether some bytes are a batch: a header, and at least as many records as it says, unless it is an old one. */
  predicate HoldsBatch(b: Bytes) {
    && |b| >= 17
    && (b[16] == MAGIC_RECORD_BATCH_V2 ==>
          && |b| >= 12 + FIXED_BATCH_LENGTH
          && FIXED_BATCH_LENGTH <= FromSigned(b[8..12]) <= |b| - 12)
  }

  function Zeros(n: nat): (r: Bytes)
    ensures |r| == n && forall i :: 0 <= i < n ==> r[i] == 0
  {
    seq(n, _ => 0)
  }

  /** All that is kept of the body of an old batch is its magic. */
  function Husk(magic: byte): (r: Bytes)
    ensures |r| == FIXED_BATCH_LENGTH && r[MAGIC] == magic
    ensures forall i :: 0 <= i < |r| && i != MAGIC ==> r[i] == 0
  {
    Zeros(MAGIC) + [magic] + Zeros(FIXED_BATCH_LENGTH - MAGIC - 1)
  }

  /** `Batch::try_from`, of bytes that hold one. */
  function BatchFrom(b: Bytes): (r: Batch)
    requires HoldsBatch(b)
  {
    var offset, length := FromSigned(b[..8]), FromSigned(b[8..12]);
    if b[16] == MAGIC_RECORD_BATCH_V2 then Batch(offset, length, b[12..12 + length])
    else Batch(offset, length, Husk(b[16]))
  }

  /** One batch off the front of a record set. */
  function ReadBatch(b: Bytes): (r: Result<Parsed<Batch>>)
    ensures r.Ok? ==> |r.value.rest| < |b|
  {
    if |b| < 12 then Err(TryGet)
    else
      var length := FromSigned(b[8..12]);
      if length < 0 then Err(CapacityOverflow)
      else if length > |b| - 12 then Err(Overflow)
      else if !HoldsBatch(b[..12 + length]) then Err(BadBatch)
      else Ok(Parsed(BatchFrom(b[..12 + length]), b[12 + length..]))
  }

  function ReadBatches(b: Bytes): (r: Result<seq<Batch>>)
    decreases |b|
  {
    if b == [] then Ok([])
    else
      var first :- ReadBatch(b);
      var others :- ReadBatches(first.rest);
      Ok([first.value] + others)
  }

  // ---------------------------------------------------------------------
  // Tag buffers

  function WireTag(t: TagField): (r: Result<Bytes>) {
    if |t.data| >= U32_LIMIT then Err(TryFromInt)
    else Ok(Varint.Encode(t.tag) + Varint.Encode(|t.data|) + t.data)
  }

  function WireTagList(tags: seq<TagField>): (r: Result<Bytes>) {
    if tags == [] then Ok([])
    else
      var first :- WireTag(tags[0]);
      var others :- WireTagList(tags[1..]);
      Ok(first + others)
  }

  function WireTags(tags: seq<TagField>): (r: Result<Bytes>) {
    if |tags| >= U32_LIMIT then Err(TryFromInt)
    else
      var list :- WireTagList(tags);
      Ok(Varint.Encode(|tags|) + list)
  }

  function ReadTag(input: Bytes): (r: Result<Parsed<TagField>>) {
    var tag :- Varint.Read(input);
    var length :- Varint.Read(tag.rest);
    if length.value > MAXIMUM_TAGGED_FIELDS then Err(TooManyTags(length.value))
    else
      var data :- Take(length.rest, length.value);
      Ok(Parsed(TagField(tag.value, data.value), data.rest))
  }

  function ReadTagList(count: nat, input: Bytes): (r: Result<Parsed<seq<TagField>>>) {
    if count == 0 then Ok(Parsed([], input))
    else
      var first :- ReadTag(input);
      var others :- ReadTagList(count - 1, first.rest);
      Ok(Parsed([first.value] + others.value, others.rest))
  }

  function ReadTags(input: Bytes): (r: Result<Parsed<seq<TagField>>>) {
    var count :- Varint.Read(input);
    if count.value > MAXIMUM_TAGGED_FIELDS then Err(TooManyTags(count.value))
    else ReadTagList(count.value, count.rest)
  }

  // ---------------------------------------------------------------------
  // The bytes of a value

  /** What stands for an absent field that is valid at this version. */
  function WireNull(c: Ctx, fm: FieldMeta): (r: Result<Bytes>) {
    if fm.kind.RecordsKind? then Ok(if c.flexible then [1] else [0, 0, 0, 0])
    else if !fm.IsNullable(c.version) then Err(OmittedNonNullableField(c.version))
    else if fm.IsStructure() && !fm.kind.SequenceOf? then Ok([255])
    else if c.flexible then Ok([0])
    else if fm.kind.SequenceOf? then Ok([255, 255, 255, 255])
    else if fm.kind.StringKind? then Ok([255, 255])
    else Ok([])
  }

  /** A present nullable structure is announced by a byte. */
  function Presence(c: Ctx, fm: FieldMeta): (r: Bytes) {
    if fm.IsNullable(c.version) && fm.IsStructure() && !fm.kind.SequenceOf? then [1] else []
  }

  function WireField(c: Ctx, fm: FieldMeta, v: Value): (r: Result<Bytes>)
    decreases fm, 3, 0
  {
    if !fm.version.Within(c.version) then Ok([])
    else match v
      case VNone => WireNull(c, fm)
      case VSome(x) =>
        var body :- WirePresent(c, fm, x);
        Ok(Presence(c, fm) + body)
      case VRecords(batches) => if AreBatches(batches) then Ok(WireHeads(batches)) else Err(UnexpectedType)
      case _ => WirePresent(c, fm, v)
  }

  function WirePresent(c: Ctx, fm: FieldMeta, v: Value): (r: Result<Bytes>)
    decreases fm, 2, 0
  {
    if fm.kind.SequenceOf? then
      if !v.VVec? then Err(UnexpectedType)
      else
        var prefix :- SequencePrefix(c.flexible, |v.elements|);
        var body :- WireElements(c, fm, v.elements);
        Ok(prefix + body)
    else WireBase(c, fm, v)
  }

  function WireElements(c: Ctx, fm: FieldMeta, vs: seq<Value>): (r: Result<Bytes>)
    decreases fm, 1, |vs|
  {
    if vs == [] then Ok([])
    else
      var first :- WireBase(c, fm, vs[0]);
      var others :- WireElements(c, fm, vs[1..]);
      Ok(first + others)
  }

  function WireBase(c: Ctx, fm: FieldMeta, v: Value): (r: Result<Bytes>)
    decreases fm, 0, 0
  {
    match fm.BaseKind()
    case ScalarKind(s) => if HasScalarType(v, s) then Ok(WireScalar(s, v)) else Err(UnexpectedType)
    case StringKind =>
      if !v.VString? then Err(UnexpectedType)
      else
        var prefix :- StringPrefix(c.flexible, |v.s|);
        Ok(prefix + v.s)
    case BytesKind =>
      if !v.VBytes? then Err(UnexpectedType)
      else
        var prefix :- BytesPrefix(c.flexible, |v.s|);
        Ok(prefix + v.s)
    case RecordsKind =>
      if !(v.VRecords? && AreBatches(v.batches)) then Err(UnexpectedType)
      else
        var prefix :- RecordsPrefix(c.flexible, |WireBatches(v.batches)|);
        Ok(prefix + WireBatches(v.batches))
    case Named(_) => if v.VStruct? then WireFields(c, fm.fields, v.fields) else Err(UnexpectedType)
    case SequenceOf(_) => Err(UnexpectedType)
  }

  function WireFields(c: Ctx, fields: Fields, vs: seq<NamedValue>): (r: Result<Bytes>)
    decreases fields, 0, 0
  {
    if vs == [] then Err(UnexpectedType)
    else if fields == [] then
      if |vs| == 1 then WireTagBuffer(c, vs[0].value) else Err(UnexpectedType)
    else if fields[0].meta.tag.Some? then WireFields(c, fields[1..], vs)
    else
      var first :- WireField(c, fields[0].meta, vs[0].value);
      var others :- WireFields(c, fields[1..], vs[1..]);
      Ok(first + others)
  }

  function WireTagBuffer(c: Ctx, v: Value): (r: Result<Bytes>) {
    if !c.flexible || v.VNone? then Ok([])
    else if v.VSome? && v.some.VTags? then WireTags(v.some.tags)
    else Err(UnexpectedType)
  }

  // ---------------------------------------------------------------------
  // The value of some bytes

  /**
   A record set that has no `Option` around it. Its length is not read, so
   batches are read, each after a length of its own, until there is an error.
   */
  function LooseBatches(flexible: bool, input: Bytes): (e: Error)
    decreases |input|
  {
    match ReadByteString(flexible, input)
    case Err(e) => e
    case Ok(p) =>
      if !HoldsBatch(p.value.s) then BadBatch
      else if |p.rest| < |input| then LooseBatches(flexible, p.rest)
      else Endless
  }

  function ReadRecords(flexible: bool, input: Bytes): (r: Result<Parsed<Value>>) {
    var length :- ReadBytesLength(flexible, input);
    if length.value == 0 then Ok(Parsed(VNone, length.rest))
    else
      var content :- ReadContent(length.value, length.rest);
      var batches :- ReadBatches(content.value);
      Ok(Parsed(VSome(VRecords(batches)), content.rest))
  }

  /** That many bytes, if they are a string. */
  function ReadText(length: nat, input: Bytes): (r: Result<Parsed<Value>>)
    ensures r.Ok? ==> r.value.value.VString?
  {
    var content :- ReadContent(length, input);
    if !Utf8.IsValid(content.value) then Err(NotUtf8) else Ok(Parsed(VString(content.value), content.rest))
  }

  function ReadString(flexible: bool, input: Bytes): (r: Result<Parsed<Value>>) {
    var length :- ReadStringLength(flexible, input);
    ReadText(length.value, length.rest)
  }

  function ReadNullableString(flexible: bool, input: Bytes): (r: Result<Parsed<Value>>) {
    var length :- ReadNullableLength(flexible, 2, input);
    match length.value
    case None => Ok(Parsed(VNone, length.rest))
    case Some(count) =>
      var text :- ReadText(count, length.rest);
      Ok(Parsed(VSome(text.value), text.rest))
  }

  function ReadByteString(flexible: bool, input: Bytes): (r: Result<Parsed<Value>>)
    ensures r.Ok? ==> r.value.value.VBytes?
  {
    var length :- ReadBytesLength(flexible, input);
    var content :- ReadContent(length.value, length.rest);
    Ok(Parsed(VBytes(content.value), content.rest))
  }

  function ParseField(c: Ctx, common: set<string>, parent: Option<VersionRange>, fm: FieldMeta, input: Bytes)
    : (r: Result<Parsed<Value>>)
    decreases fm, 2, 0
  {
    if IsBare(parent, fm) then
      if fm.kind.StringKind? && !fm.version.Within(c.version) then Err(StringWithoutLength)
      else if fm.kind.RecordsKind? then Err(LooseBatches(c.flexible, input))
      else ParseBase(c, common, fm, input)
    else if !fm.version.Within(c.version) then Ok(Parsed(VNone, input))
    else if fm.kind.RecordsKind? then ReadRecords(c.flexible, input)
    else if fm.kind.SequenceOf? then
      var length :- ReadNullableLength(c.flexible, 4, input);
      match length.value
      case None => Ok(Parsed(VNone, length.rest))
      case Some(count) =>
        var elements :- ParseElements(c, common, fm, count, length.rest);
        Ok(Parsed(VSome(VVec(elements.value)), elements.rest))
    else if fm.kind.StringKind? then ReadNullableString(c.flexible, input)
    else if fm.IsNullable(c.version) && fm.IsStructure() then
      var presence :- Take(input, 1);
      if presence.value[0] >= 128 then Ok(Parsed(VNone, presence.rest))
      else
        var p :- ParseBase(c, common, fm, presence.rest);
        Ok(Parsed(VSome(p.value), p.rest))
    else
      var p :- ParseBase(c, common, fm, input);
      Ok(Parsed(VSome(p.value), p.rest))
  }

  function ParseElements(c: Ctx, common: set<string>, fm: FieldMeta, count: nat, input: Bytes)
    : (r: Result<Parsed<seq<Value>>>)
    decreases fm, 1, count
  {
    if count == 0 then Ok(Parsed([], input))
    else
      var first :- ParseBase(c, common, fm, input);
      var others :- ParseElements(c, common, fm, count - 1, first.rest);
      Ok(Parsed([first.value] + others.value, others.rest))
  }

  /** A sequence whose length was not read: elements, until there is an error. */
  function WithoutEnd(c: Ctx, common: set<string>, fm: FieldMeta, input: Bytes): (e: Error)
    decreases fm, 1, |input|
  {
    match ParseBase(c, common, fm, input)
    case Err(e) => e
    case Ok(p) => if |p.rest| < |input| then WithoutEnd(c, common, fm, p.rest) else Endless
  }

  function ParseBase(c: Ctx, common: set<string>, fm: FieldMeta, input: Bytes): (r: Result<Parsed<Value>>)
    decreases fm, 0, 0
  {
    match fm.BaseKind()
    case ScalarKind(s) => ReadScalar(s, input)
    case StringKind => ReadString(c.flexible, input)
    case BytesKind => ReadByteString(c.flexible, input)
    case Named(name) =>
      if IsBlind(c.table, fm) then Err(WithoutEnd(c, common, fm.fields[0].meta, input))
      else
        var fields :- ParseFields(c, common, Inner(common, fm), fm.fields, input);
        Ok(Parsed(VStruct(name, fields.value), fields.rest))
    case _ => Err(UnexpectedType)
  }

  function ParseFields(c: Ctx, common: set<string>, parent: Option<VersionRange>, fields: Fields, input: Bytes)
    : (r: Result<Parsed<seq<NamedValue>>>)
    decreases fields, 0, 0
  {
    if fields == [] then
      var tags :- ParseTagBuffer(c, input);
      Ok(Parsed([NamedValue(TAG_BUFFER, tags.value)], tags.rest))
    else if fields[0].meta.tag.Some? then ParseFields(c, common, parent, fields[1..], input)
    else
      var first :- ParseField(c, common, parent, fields[0].meta, input);
      var others :- ParseFields(c, common, parent, fields[1..], first.rest);
      Ok(Parsed([NamedValue(fields[0].name, first.value)] + others.value, others.rest))
  }

  function ParseTagBuffer(c: Ctx, input: Bytes): (r: Result<Parsed<Value>>) {
    if !c.flexible then Ok(Parsed(VNone, input))
    else
      var tags :- ReadTags(input);
      Ok(Parsed(VSome(VTags(tags.value)), tags.rest))
  }
}
