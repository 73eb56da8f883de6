/**
 The Rust types generated for a message, the values of those types, and the
 conditions on a message under which both halves of the codec can find the
 metadata they need.

 The types are the ones serde sees: tagged fields are not struct fields, and
 every struct ends with a `tag_buffer`.
 */
module Types {
  import opened Base
  import opened Schema
  import Utf8

  datatype Type =
    | TScalar(scalar: Scalar)
    | TString
    | TBytes
    | TRecords
    | TTags
    | TOption(some: Type)
    | TVec(element: Type)
    | TStruct(name: string, fields: seq<TypedField>)

  datatype TypedField = TypedField(name: string, ty: Type)

  const TAG_BUFFER := "tag_buffer"

  /** The version range an inner field's is compared with; a common struct has no parent. */
  function Inner(common: set<string>, fm: FieldMeta): (r: Option<VersionRange>) {
    if fm.BaseKind().Named? && fm.BaseKind().name in common then None else Some(fm.version)
  }

  /** Whether the generator leaves the `Option` out. */
  predicate IsBare(parent: Option<VersionRange>, fm: FieldMeta) {
    !fm.kind.SequenceOf? && fm.nullable.None? && fm.version.IsMandatory(parent)
  }

  /** The type of a field's value, or of an element, with nothing optional about it. */
  function BaseType(common: set<string>, fm: FieldMeta): (r: Type)
    decreases fm, 0
  {
    match fm.BaseKind()
    case ScalarKind(s) => TScalar(s)
    case StringKind => TString
    case BytesKind => TBytes
    case RecordsKind => TRecords
    case Named(name) => TStruct(name, FieldTypes(common, Inner(common, fm), fm.fields))
    case SequenceOf(_) => TTags  // not a kind any descriptor uses
  }

  function PresentType(common: set<string>, fm: FieldMeta): (r: Type)
    decreases fm, 1
  {
    if fm.kind.SequenceOf? then TVec(BaseType(common, fm)) else BaseType(common, fm)
  }

  function FieldType(common: set<string>, parent: Option<VersionRange>, fm: FieldMeta): (r: Type)
    decreases fm, 2
  {
    if IsBare(parent, fm) then BaseType(common, fm) else TOption(PresentType(common, fm))
  }

  function FieldTypes(common: set<string>, parent: Option<VersionRange>, fields: Fields): (r: seq<TypedField>)
    decreases fields
  {
    if fields == [] then [TypedField(TAG_BUFFER, TOption(TTags))]
    else if fields[0].meta.tag.Some? then FieldTypes(common, parent, fields[1..])
    else
      [TypedField(fields[0].name, FieldType(common, parent, fields[0].meta))]
      + FieldTypes(common, parent, fields[1..])
  }

  function MessageType(common: set<string>, mm: MessageMeta): (r: Type) {
    TStruct(mm.name, FieldTypes(common, None, mm.fields))
  }

  // ---------------------------------------------------------------------
  // Values

  /**
   A record batch: an offset, a length, and the bytes that follow them, which are
   fields of a fixed width, the magic among them, and then the records.
   */
  datatype Batch = Batch(baseOffset: int, batchLength: int, body: Bytes)

  const FIXED_BATCH_LENGTH := 49
  const MAGIC := 4  // where the magic is in the body

  datatype TagField = TagField(tag: nat, data: Bytes)

  datatype Value =
    | VBool(b: bool)
    | VInt(n: int)
    | VUuid(u: Bytes)
    | VString(s: Bytes)
    | VBytes(s: Bytes)
    | VRecords(batches: seq<Batch>)
    | VTags(tags: seq<TagField>)
    | VNone
    | VSome(some: Value)
    | VVec(elements: seq<Value>)
    | VStruct(name: string, fields: seq<NamedValue>)

  datatype NamedValue = NamedValue(name: string, value: Value)

  predicate HasScalarType(v: Value, s: Scalar) {
    match s
    case Bool => v.VBool?
    case Int8 => v.VInt? && FitsSigned(v.n, 1)
    case Int16 => v.VInt? && FitsSigned(v.n, 2)
    case Int32 => v.VInt? && FitsSigned(v.n, 4)
    case Int64 => v.VInt? && FitsSigned(v.n, 8)
    case UInt16 => v.VInt? && 0 <= v.n < Pow256(2)
    case Float64 => v.VInt? && 0 <= v.n < Pow256(8)  // the bits of the float
    case Uuid => v.VUuid? && |v.u| == 16
  }

  predicate IsBatch(b: Batch) {
    FitsSigned(b.baseOffset, 8) && FitsSigned(b.batchLength, 4) && |b.body| >= FIXED_BATCH_LENGTH
  }

  predicate AreBatches(batches: seq<Batch>) {
    forall i :: 0 <= i < |batches| ==> IsBatch(batches[i])
  }

  predicate AreTags(tags: seq<TagField>) {
    forall i :: 0 <= i < |tags| ==> tags[i].tag < U32_LIMIT
  }

  predicate HasType(v: Value, ty: Type)
    decreases v
  {
    match ty
    case TScalar(s) => HasScalarType(v, s)
    case TString => v.VString? && Utf8.IsValid(v.s)
    case TBytes => v.VBytes?
    case TRecords => v.VRecords? && AreBatches(v.batches)
    case TTags => v.VTags? && AreTags(v.tags)
    case TOption(t) => v.VNone? || (v.VSome? && HasType(v.some, t))
    case TVec(t) => v.VVec? && forall i :: 0 <= i < |v.elements| ==> HasType(v.elements[i], t)
    case TStruct(name, fields) => v.VStruct? && v.name == name && HaveTypes(v.fields, fields)
  }

  predicate HaveTypes(vs: seq<NamedValue>, fields: seq<TypedField>)
    decreases vs
  {
    if vs == [] || fields == [] then vs == [] && fields == []
    else
      && vs[0].name == fields[0].name
      && HasType(vs[0].value, fields[0].ty)
      && HaveTypes(vs[1..], fields[1..])
  }

  /** What the values of a field's type look like. */
  lemma FieldValues(common: set<string>, parent: Option<VersionRange>, fm: FieldMeta, v: Value)
    requires HasType(v, FieldType(common, parent, fm))
    ensures IsBare(parent, fm) ==> HasType(v, BaseType(common, fm))
    ensures !IsBare(parent, fm) && !v.VNone? ==>
              && v.VSome?
              && if fm.kind.SequenceOf?
                 then
                   && v.some.VVec?
                   && forall i :: 0 <= i < |v.some.elements| ==> HasType(v.some.elements[i], BaseType(common, fm))
                 else HasType(v.some, BaseType(common, fm))
  {
    if !IsBare(parent, fm) && v.VSome? {
      assert HasType(v.some, PresentType(common, fm));
    }
  }

  lemma BaseValues(common: set<string>, fm: FieldMeta, v: Value)
    requires HasType(v, BaseType(common, fm))
    ensures !v.VNone? && !v.VSome? && !v.VVec?
    ensures HasKind(common, fm, v)
  {
  }

  /** A value of a field's base type, by the field's kind. */
  predicate HasKind(common: set<string>, fm: FieldMeta, v: Value) {
    match fm.BaseKind()
    case ScalarKind(s) => HasScalarType(v, s)
    case StringKind => v.VString? && Utf8.IsValid(v.s)
    case BytesKind => v.VBytes?
    case RecordsKind => v.VRecords? && AreBatches(v.batches)
    case Named(name) =>
      v.VStruct? && v.name == name && HaveTypes(v.fields, FieldTypes(common, Inner(common, fm), fm.fields))
    case SequenceOf(_) => v.VTags?
  }

  /** The first field at or after `k` that has no tag. */
  function NextUntagged(fields: Fields, k: nat): (n: nat)
    requires k <= |fields|
    ensures k <= n <= |fields|
    ensures n < |fields| ==> fields[n].meta.tag.None?
    decreases |fields| - k
  {
    if k == |fields| || fields[k].meta.tag.None? then k else NextUntagged(fields, k + 1)
  }

  lemma {:induction false} SomeTypes(common: set<string>, parent: Option<VersionRange>, fields: Fields)
    ensures |FieldTypes(common, parent, fields)| >= 1
  {
    if fields != [] {
      SomeTypes(common, parent, fields[1..]);
    }
  }

  /** A struct's values, the first of them and the others; at the end is the tag buffer. */
  lemma {:induction false} TypesEnd(
    common: set<string>, parent: Option<VersionRange>, fields: Fields, vs: seq<NamedValue>)
    requires fields == [] && vs == [NamedValue(TAG_BUFFER, VSome(VTags([])))]
    ensures HaveTypes(vs, FieldTypes(common, parent, fields))
  {
    assert vs[1..] == [];
    assert FieldTypes(common, parent, fields)[1..] == [];
  }

  lemma {:induction false} TypesCons(
    common: set<string>, parent: Option<VersionRange>, fields: Fields, vs: seq<NamedValue>)
    requires fields != [] && fields[0].meta.tag.None? && vs != []
    requires vs[0].name == fields[0].name && HasType(vs[0].value, FieldType(common, parent, fields[0].meta))
    requires HaveTypes(vs[1..], FieldTypes(common, parent, fields[1..]))
    ensures HaveTypes(vs, FieldTypes(common, parent, fields))
  {
    var types := FieldTypes(common, parent, fields);
    assert types[1..] == FieldTypes(common, parent, fields[1..]);
  }

  /** Tagged fields are not struct fields: the next one is the next without a tag, or the tag buffer. */
  lemma {:induction false} TypesSkipTagged(common: set<string>, parent: Option<VersionRange>, fields: Fields, k: nat)
    requires k <= |fields|
    ensures var n := NextUntagged(fields, k);
            && FieldTypes(common, parent, fields[k..]) == FieldTypes(common, parent, fields[n..])
            && (n < |fields| <==> |FieldTypes(common, parent, fields[n..])| > 1)
    decreases |fields| - k
  {
    if k < |fields| && fields[k].meta.tag.Some? {
      assert fields[k..][0] == fields[k] && fields[k..][1..] == fields[k + 1..];
      TypesSkipTagged(common, parent, fields, k + 1);
    } else if k < |fields| {
      assert fields[k..][0] == fields[k];
      SomeTypes(common, parent, fields[k..][1..]);
    }
  }

  // ---------------------------------------------------------------------
  // Sound typing

  /** A version at which a struct whose fields were typed under `parent` is on the wire. */
  predicate Covers(parent: Option<VersionRange>, version: int) {
    match parent
    case None => 0 <= version <= I16_MAX
    case Some(p) => p.Within(version)
  }

  /** A range is mandatory in another if it starts no later and ends with it; at the top, if it is every version. */
  lemma MandatoryExactly(range: VersionRange, parent: VersionRange)
    ensures range.IsMandatory(Some(parent)) <==> range.start <= parent.start && range.end == parent.end
    ensures range.IsMandatory(None) <==> range == VersionRange(0, 32767)
  {
  }

  /**
   A field generated without an `Option` is valid wherever the struct around it
   is, so the encoder never skips a field that the decoder reads regardless.
   */
  lemma BareIsValid(parent: Option<VersionRange>, fm: FieldMeta, version: int)
    requires IsBare(parent, fm) && Covers(parent, version)
    ensures fm.version.Within(version) && !fm.IsNullable(version)
  {
  }

  /** Following a valid field down, its own fields' ranges are compared with one that covers the version. */
  lemma ValidCoversInner(common: set<string>, fm: FieldMeta, version: int)
    requires fm.version.Within(version) && 0 <= version <= I16_MAX
    ensures Covers(Inner(common, fm), version)
  {
  }

  /**
   Down the whole tree, as far as it is valid at a version: no field without an
   `Option`, which is one that is read regardless, is left out by the encoder.
   */
  predicate SkipsNothing(common: set<string>, parent: Option<VersionRange>, fields: Fields, version: int)
    decreases fields
  {
    fields != [] ==>
      var fm := fields[0].meta;
      && (IsBare(parent, fm) ==> fm.version.Within(version) && !fm.IsNullable(version))
      && (fm.version.Within(version) ==> SkipsNothing(common, Inner(common, fm), fm.fields, version))
      && SkipsNothing(common, parent, fields[1..], version)
  }

  /** The generated types are sound for the wire. */
  lemma {:induction false} TypesAreSound(
    common: set<string>, parent: Option<VersionRange>, fields: Fields, version: int)
    requires Covers(parent, version) && 0 <= version <= I16_MAX
    ensures SkipsNothing(common, parent, fields, version)
    decreases fields
  {
    if fields != [] {
      var fm := fields[0].meta;
      if IsBare(parent, fm) {
        BareIsValid(parent, fm, version);
      }
      if fm.version.Within(version) {
        ValidCoversInner(common, fm, version);
        TypesAreSound(common, Inner(common, fm), fm.fields, version);
      }
      TypesAreSound(common, parent, fields[1..], version);
    }
  }

  // ---------------------------------------------------------------------
  // Well-formed messages

  predicate IsFieldName(name: string) {
    name != "" && 'a' <= name[0] <= 'z'
  }

  predicate IsTypeName(name: string) {
    name != "" && 'A' <= name[0] <= 'Z'
  }

  predicate EndsWith(name: string, suffix: string) {
    |name| >= |suffix| && name[|name| - |suffix|..] == suffix
  }

  predicate IsMessageName(name: string) {
    EndsWith(name, "Request") || EndsWith(name, "Response")
  }

  /** Nothing but mandatory fixed-width fields, which need no metadata to be read. */
  predicate IsFlat(parent: Option<VersionRange>, fields: Fields) {
    forall i :: 0 <= i < |fields| && fields[i].meta.tag.None?
                ==> fields[i].meta.kind.ScalarKind? && IsBare(parent, fields[i].meta)
  }

  /** The decoder finds this structure's own fields by its type name, or does not need them. */
  predicate Resolves(mm: MessageMeta, common: set<string>, fm: FieldMeta)
    requires fm.BaseKind().Named?
  {
    var name := fm.BaseKind().name;
    match Find(Structures(mm), name)
    case Some(found) => found.fields == fm.fields
    case None => IsFlat(Inner(common, fm), fm.fields) && !IsMessageName(name)
  }

  /** A structure whose first field is a sequence of structures. */
  predicate StartsWithSequence(fields: Fields) {
    && fields != []
    && fields[0].meta.tag.None? && fields[0].meta.kind.SequenceOf? && fields[0].meta.BaseKind().Named?
  }

  /** A structure that is not in the decoder's table, and cannot be read without it. */
  predicate IsBlind(table: Fields, fm: FieldMeta) {
    fm.BaseKind().Named? && Find(table, fm.BaseKind().name) == None && StartsWithSequence(fm.fields)
  }

  /** The kinds and names the descriptors use. */
  predicate ShapedField(fm: FieldMeta)
    decreases fm, 1
  {
    && (fm.kind.SequenceOf? ==> !fm.kind.element.SequenceOf? && !fm.kind.element.RecordsKind?)
    && (fm.BaseKind().Named? ==> IsTypeName(fm.BaseKind().name))
    && (fm.BaseKind().Named? <==> fm.fields != [])
    && ShapedFields(fm.fields)
  }

  predicate ShapedFields(fields: Fields)
    decreases fields, 0
  {
    && DistinctNames(fields)
    && forall i :: 0 <= i < |fields| ==>
                     && IsFieldName(fields[i].name) && fields[i].name != TAG_BUFFER
                     && (fields[i].meta.tag.None? ==> ShapedField(fields[i].meta))
  }

  /** Every structure either resolves or is one of those that cannot be read. */
  predicate ResolvedField(mm: MessageMeta, common: set<string>, fm: FieldMeta)
    decreases fm, 1
  {
    && (fm.BaseKind().Named? ==>
          && fm.BaseKind().name != "HeaderMezzanine"
          && (Resolves(mm, common, fm) || (IsBlind(Structures(mm), fm) && !IsMessageName(fm.BaseKind().name))))
    && ResolvedFields(mm, common, fm.fields)
  }

  predicate ResolvedFields(mm: MessageMeta, common: set<string>, fields: Fields)
    decreases fields, 0
  {
    forall i :: 0 <= i < |fields| && fields[i].meta.tag.None? ==> ResolvedField(mm, common, fields[i].meta)
  }

  /** The names a message field must leave to the frame and its header. */
  const RESERVED: set<string> := {"size", "header", "body", "api_key", "api_version", "correlation_id", "client_id"}

  /** The names of a record batch's fields, and of the field that holds the batches. */
  const BATCH_FIELDS: set<string> := {
    "batches", "base_offset", "batch_length", "partition_leader_epoch", "magic", "crc", "attributes",
    "last_offset_delta", "base_timestamp", "max_timestamp", "producer_id", "producer_epoch", "base_sequence",
    "record_count", "record_data"}

  /** No field of a message is taken for one of a record batch. */
  predicate Apart(fields: Fields) {
    forall i :: 0 <= i < |fields| ==> fields[i].name !in BATCH_FIELDS
  }

  /** A record set that may be without an `Option` is in a message whose fields are apart from a batch's. */
  predicate ApartField(apart: bool, fm: FieldMeta)
    decreases fm, 1
  {
    (fm.kind.RecordsKind? && fm.nullable.None? ==> apart) && ApartFields(apart, fm.fields)
  }

  predicate ApartFields(apart: bool, fields: Fields)
    decreases fields, 0
  {
    forall i :: 0 <= i < |fields| && fields[i].meta.tag.None? ==> ApartField(apart, fields[i].meta)
  }

  /** A message that the encoder can find its way round. */
  predicate Writable(mm: MessageMeta) {
    && IsTypeName(mm.name)
    && ShapedFields(mm.fields)
    && ApartFields(Apart(mm.fields), mm.fields)
    && forall i :: 0 <= i < |mm.fields| ==> mm.fields[i].name !in RESERVED
  }

  /** And the decoder. */
  predicate WellFormed(mm: MessageMeta, common: set<string>) {
    && Writable(mm)
    && IsMessageName(mm.name)
    && Find(Structures(mm), mm.name) == None
    && Find(Structures(mm), "Frame") == None
    && Find(Structures(mm), "HeaderMezzanine") == None
    && ResolvedFields(mm, common, mm.fields)
  }
}
