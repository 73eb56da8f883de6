/**
 The grammar read back: decoding undoes encoding, exactly when no limit of the
 decoder is passed and nothing was null that has no null form.
 */
module RoundTrip {
  import opened Base
  import opened Schema
  import opened Types
  import opened Grammar
  import opened Batches
  import Varint

  // ---------------------------------------------------------------------
  // What a value comes back as, and when it comes back

  /** A field outside its version range is not on the wire; an empty record set reads as none. */
  function NormalField(c: Ctx, fm: FieldMeta, v: Value): (r: Value)
    decreases fm, 3, 0
  {
    if !fm.version.Within(c.version) then VNone
    else match v
      case VNone => VNone
      case VSome(x) =>
        if fm.kind.RecordsKind? && x == VRecords([]) then VNone else VSome(NormalPresent(c, fm, x))
      case _ => NormalPresent(c, fm, v)
  }

  function NormalPresent(c: Ctx, fm: FieldMeta, v: Value): (r: Value)
    decreases fm, 2, 0
  {
    if fm.kind.SequenceOf? && v.VVec? then VVec(NormalElements(c, fm, v.elements)) else NormalBase(c, fm, v)
  }

  function NormalElements(c: Ctx, fm: FieldMeta, vs: seq<Value>): (r: seq<Value>)
    decreases fm, 1, |vs|
  {
    if vs == [] then [] else [NormalBase(c, fm, vs[0])] + NormalElements(c, fm, vs[1..])
  }

  function NormalBase(c: Ctx, fm: FieldMeta, v: Value): (r: Value)
    decreases fm, 0, 0
  {
    if fm.BaseKind().Named? && v.VStruct? then VStruct(v.name, NormalFields(c, fm.fields, v.fields)) else v
  }

  function NormalFields(c: Ctx, fields: Fields, vs: seq<NamedValue>): (r: seq<NamedValue>)
    decreases fields, 0, 0
  {
    if vs == [] then []
    else if fields == [] then [NamedValue(vs[0].name, if c.flexible then vs[0].value else VNone)]
    else if fields[0].meta.tag.Some? then NormalFields(c, fields[1..], vs)
    else
      [NamedValue(vs[0].name, NormalField(c, fields[0].meta, vs[0].value))]
      + NormalFields(c, fields[1..], vs[1..])
  }

  /** A tag buffer inside the decoder's one limit, which it applies to count and payloads alike. */
  predicate SmallTags(tags: seq<TagField>) {
    |tags| <= 128 && SmallPayloads(tags)
  }

  /**
   The values that come back. At each field in turn: not null where the kind has
   no null form, no string, byte string or record set over the decoder's limit,
   no unsound batch, no record set without an `Option`, no
   structure that is not in the table and starts with a sequence, and no tag
   buffer over its limit.
   */
  predicate DecodableField(c: Ctx, fm: FieldMeta, v: Value)
    decreases fm, 3, 0
  {
    fm.version.Within(c.version) ==>
      match v
      case VNone => fm.kind.RecordsKind? || fm.kind.SequenceOf? || fm.kind.StringKind? || fm.IsStructure()
      case VSome(x) => DecodablePresent(c, fm, x)
      case VRecords(_) => false
      case _ => DecodablePresent(c, fm, v)
  }

  predicate DecodablePresent(c: Ctx, fm: FieldMeta, v: Value)
    decreases fm, 2, 0
  {
    if fm.kind.SequenceOf? then v.VVec? ==> DecodableElements(c, fm, v.elements) else DecodableBase(c, fm, v)
  }

  predicate DecodableElements(c: Ctx, fm: FieldMeta, vs: seq<Value>)
    decreases fm, 1, |vs|
  {
    vs != [] ==> DecodableBase(c, fm, vs[0]) && DecodableElements(c, fm, vs[1..])
  }

  predicate DecodableBase(c: Ctx, fm: FieldMeta, v: Value)
    decreases fm, 0, 0
  {
    match v
    case VString(s) => |s| <= 0x4000_0000
    case VBytes(s) => |s| <= 0x4000_0000
    case VRecords(batches) =>
      AreBatches(batches) && |WireBatches(batches)| <= 0x4000_0000 && SoundBatches(batches)
    case VStruct(_, fields) =>
      fm.BaseKind().Named? ==> !IsBlind(c.table, fm) && DecodableFields(c, fm.fields, fields)
    case _ => true
  }

  predicate DecodableFields(c: Ctx, fields: Fields, vs: seq<NamedValue>)
    decreases fields, 0, 0
  {
    vs != [] ==>
      if fields == [] then
        c.flexible ==> vs[0].value.VSome? && (vs[0].value.some.VTags? ==> SmallTags(vs[0].value.some.tags))
      else if fields[0].meta.tag.Some? then DecodableFields(c, fields[1..], vs)
      else DecodableField(c, fields[0].meta, vs[0].value) && DecodableFields(c, fields[1..], vs[1..])
  }

  // ---------------------------------------------------------------------
  // Reading from the front

  lemma TakeFront(front: Bytes, rest: Bytes)
    ensures Take(front + rest, |front|) == Ok(Parsed(front, rest))
  {
    assert (front + rest)[..|front|] == front;
    assert (front + rest)[|front|..] == rest;
  }

  lemma Associate(a: Bytes, b: Bytes, c: Bytes)
    ensures a + b + c == a + (b + c)
  {
  }

  lemma ScalarRoundTrip(s: Scalar, v: Value, rest: Bytes)
    requires HasScalarType(v, s)
    ensures ReadScalar(s, WireScalar(s, v) + rest) == Ok(Parsed(v, rest))
  {
    var wire := WireScalar(s, v);
    assert |wire| == Width(s);
    TakeFront(wire, rest);
    match s {
      case Bool =>
      case Uuid =>
      case UInt16 => BigEndianRoundTrip(v.n, 2);
      case Float64 => BigEndianRoundTrip(v.n, 8);
      case Int8 => SignedRoundTrip(v.n, 1);
      case Int16 => SignedRoundTrip(v.n, 2);
      case Int32 => SignedRoundTrip(v.n, 4);
      case Int64 => SignedRoundTrip(v.n, 8);
    }
  }

  // ---------------------------------------------------------------------
  // Lengths

  lemma CompactRoundTrip(length: nat, rest: Bytes)
    requires CompactPrefix(length).Ok?
    ensures ReadCompact(CompactPrefix(length).value + rest) == Ok(Parsed(length, rest))
    ensures forall width :: ReadNullableLength(true, width, CompactPrefix(length).value + rest)
                            == Ok(Parsed(Some(length), rest))
  {
    Varint.RoundTrip(length + 1, rest);
  }

  lemma FixedRoundTrip(n: nat, width: nat, rest: Bytes)
    requires n < Pow256(width)
    ensures Take(BigEndian(n, width) + rest, width) == Ok(Parsed(BigEndian(n, width), rest))
    ensures FromBigEndian(BigEndian(n, width)) == n
    ensures 2 * n < Pow256(width) ==> FromSigned(BigEndian(n, width)) == n
  {
    TakeFront(BigEndian(n, width), rest);
    BigEndianRoundTrip(n, width);
  }

  lemma StringLengthRoundTrip(flexible: bool, length: nat, rest: Bytes)
    requires StringPrefix(flexible, length).Ok?
    ensures var wire := StringPrefix(flexible, length).value + rest;
            && ReadStringLength(flexible, wire) == Ok(Parsed(length, rest))
            && ReadNullableLength(flexible, 2, wire) == Ok(Parsed(Some(length), rest))
  {
    if flexible {
      CompactRoundTrip(length, rest);
    } else {
      Pow256Values();
      FixedRoundTrip(length, 2, rest);
    }
  }

  lemma SequenceLengthRoundTrip(flexible: bool, length: nat, rest: Bytes)
    requires SequencePrefix(flexible, length).Ok?
    ensures ReadNullableLength(flexible, 4, SequencePrefix(flexible, length).value + rest)
            == Ok(Parsed(Some(length), rest))
  {
    if flexible {
      CompactRoundTrip(length, rest);
    } else {
      Pow256Values();
      FixedRoundTrip(length, 4, rest);
    }
  }

  lemma BytesLengthRoundTrip(flexible: bool, length: nat, rest: Bytes)
    requires BytesPrefix(flexible, length).Ok?
    ensures ReadBytesLength(flexible, BytesPrefix(flexible, length).value + rest) == Ok(Parsed(length, rest))
  {
    if flexible {
      CompactRoundTrip(length, rest);
    } else {
      Pow256Values();
      FixedRoundTrip(length, 4, rest);
    }
  }

  /** The one length that wraps reads as a null record set, which the decoder refuses. */
  lemma RecordsLengthRoundTrip(flexible: bool, length: nat, rest: Bytes)
    requires RecordsPrefix(flexible, length).Ok?
    ensures ReadBytesLength(flexible, RecordsPrefix(flexible, length).value + rest)
            == if flexible && length + 1 == U32_LIMIT then Err(Overflow) else Ok(Parsed(length, rest))
  {
    if flexible {
      Varint.RoundTrip((length + 1) % U32_LIMIT, rest);
    } else {
      Pow256Values();
      FixedRoundTrip(length, 4, rest);
    }
  }

  /** A length and that many bytes: refused exactly when over the limit. */
  lemma ContentRoundTrip(s: Bytes, rest: Bytes)
    ensures ReadContent(|s|, s + rest)
            == if |s| <= MESSAGE_MAX_SIZE then Ok(Parsed(s, rest)) else Err(MessageMaxSizeExceeded(|s|))
  {
    TakeFront(s, rest);
  }

  // ---------------------------------------------------------------------
  // Tag buffers

  lemma TagRoundTrip(t: TagField, rest: Bytes)
    requires t.tag < U32_LIMIT && WireTag(t).Ok?
    ensures ReadTag(WireTag(t).value + rest)
            == if |t.data| <= MAXIMUM_TAGGED_FIELDS then Ok(Parsed(t, rest)) else Err(TooManyTags(|t.data|))
  {
    var tag, length := Varint.Encode(t.tag), Varint.Encode(|t.data|);
    assert WireTag(t).value + rest == tag + (length + (t.data + rest));
    Varint.RoundTrip(t.tag, length + (t.data + rest));
    Varint.RoundTrip(|t.data|, t.data + rest);
    TakeFront(t.data, rest);
  }

  predicate SmallPayloads(tags: seq<TagField>) {
    forall i :: 0 <= i < |tags| ==> |tags[i].data| <= 128
  }

  lemma SmallPayloadsCons(tags: seq<TagField>)
    requires tags != []
    ensures SmallPayloads(tags) <==> |tags[0].data| <= 128 && SmallPayloads(tags[1..])
  {
    if SmallPayloads(tags[1..]) {
      assert forall i :: 0 < i < |tags| ==> tags[i] == tags[1..][i - 1];
    }
  }

  lemma {:induction false} TagListRoundTrip(tags: seq<TagField>, rest: Bytes)
    requires AreTags(tags) && WireTagList(tags).Ok?
    ensures var r := ReadTagList(|tags|, WireTagList(tags).value + rest);
            if SmallPayloads(tags) then r == Ok(Parsed(tags, rest)) else r.Err?
  {
    if tags == [] {
      assert WireTagList(tags).value + rest == rest;
    } else {
      var first, others := WireTag(tags[0]).value, WireTagList(tags[1..]).value;
      Associate(first, others, rest);
      TagRoundTrip(tags[0], others + rest);
      TagListRoundTrip(tags[1..], rest);
      SmallPayloadsCons(tags);
      assert tags == [tags[0]] + tags[1..];
    }
  }

  /** A tag buffer reads back exactly when it is inside the limit, and is refused otherwise. */
  lemma TagsRoundTrip(tags: seq<TagField>, rest: Bytes)
    requires AreTags(tags) && WireTags(tags).Ok?
    ensures var r := ReadTags(WireTags(tags).value + rest);
            if SmallTags(tags) then r == Ok(Parsed(tags, rest)) else r.Err?
  {
    var list := WireTagList(tags).value;
    Associate(Varint.Encode(|tags|), list, rest);
    Varint.RoundTrip(|tags|, list + rest);
    TagListRoundTrip(tags, rest);
  }

  // ---------------------------------------------------------------------
  // Values

  /** Reads back as `normal`, leaving `rest`, if it should; otherwise fails or reads as something else. */
  predicate ReadsBack<T(==)>(r: Result<Parsed<T>>, decodable: bool, normal: T, rest: Bytes) {
    if decodable then r == Ok(Parsed(normal, rest)) else r.Err? || r.value.value != normal
  }

  predicate ValidVersion(c: Ctx) {
    0 <= c.version <= I16_MAX
  }

  predicate ShapedEach(fields: Fields) {
    forall i :: 0 <= i < |fields| && fields[i].meta.tag.None? ==> ShapedField(fields[i].meta)
  }

  lemma {:induction false} BaseRoundTrip(
    c: Ctx, common: set<string>, fm: FieldMeta, v: Value, rest: Bytes)
    requires ValidVersion(c) && fm.version.Within(c.version)
    requires ShapedField(fm) && !fm.kind.RecordsKind?
    requires HasType(v, BaseType(common, fm)) && WireBase(c, fm, v).Ok?
    ensures ReadsBack(ParseBase(c, common, fm, WireBase(c, fm, v).value + rest),
                      DecodableBase(c, fm, v), NormalBase(c, fm, v), rest)
    decreases fm, 0, 0
  {
    match fm.BaseKind() {
      case ScalarKind(s) =>
        ScalarRoundTrip(s, v, rest);
      case StringKind =>
        var prefix := StringPrefix(c.flexible, |v.s|).value;
        Associate(prefix, v.s, rest);
        StringLengthRoundTrip(c.flexible, |v.s|, v.s + rest);
        ContentRoundTrip(v.s, rest);
      case BytesKind =>
        var prefix := BytesPrefix(c.flexible, |v.s|).value;
        Associate(prefix, v.s, rest);
        BytesLengthRoundTrip(c.flexible, |v.s|, v.s + rest);
        ContentRoundTrip(v.s, rest);
      case Named(name) =>
        if !IsBlind(c.table, fm) {
          ValidCoversInner(common, fm, c.version);
          FieldsRoundTrip(c, common, Inner(common, fm), fm.fields, v.fields, rest);
        }
    }
  }

  lemma {:induction false} ElementsRoundTrip(
    c: Ctx, common: set<string>, fm: FieldMeta, vs: seq<Value>, rest: Bytes)
    requires ValidVersion(c) && fm.version.Within(c.version)
    requires ShapedField(fm) && !fm.kind.RecordsKind?
    requires forall i :: 0 <= i < |vs| ==> HasType(vs[i], BaseType(common, fm))
    requires WireElements(c, fm, vs).Ok?
    ensures ReadsBack(ParseElements(c, common, fm, |vs|, WireElements(c, fm, vs).value + rest),
                      DecodableElements(c, fm, vs), NormalElements(c, fm, vs), rest)
    decreases fm, 1, |vs|
  {
    if vs == [] {
      assert WireElements(c, fm, vs).value + rest == rest;
    } else {
      var first, others := WireBase(c, fm, vs[0]).value, WireElements(c, fm, vs[1..]).value;
      Associate(first, others, rest);
      BaseRoundTrip(c, common, fm, vs[0], others + rest);
      ElementsRoundTrip(c, common, fm, vs[1..], rest);
      ElementsStep(c, common, fm, vs, first + (others + rest), others + rest, rest);
    }
  }

  /** The first element read back and then the others. */
  lemma {:induction false} ElementsStep(
    c: Ctx, common: set<string>, fm: FieldMeta, vs: seq<Value>, input: Bytes, next: Bytes, rest: Bytes)
    requires vs != []
    requires ReadsBack(ParseBase(c, common, fm, input), DecodableBase(c, fm, vs[0]), NormalBase(c, fm, vs[0]), next)
    requires ReadsBack(ParseElements(c, common, fm, |vs| - 1, next),
                       DecodableElements(c, fm, vs[1..]), NormalElements(c, fm, vs[1..]), rest)
    ensures ReadsBack(ParseElements(c, common, fm, |vs|, input),
                      DecodableElements(c, fm, vs), NormalElements(c, fm, vs), rest)
  {
    var head := ParseBase(c, common, fm, input);
    if head.Ok? {
      var tail := ParseElements(c, common, fm, |vs| - 1, head.value.rest);
      if tail.Ok? {
        ConsInjective(head.value.value, tail.value.value, NormalBase(c, fm, vs[0]), NormalElements(c, fm, vs[1..]));
      }
    }
  }

  lemma ConsInjective<T>(x: T, a: seq<T>, y: T, b: seq<T>)
    ensures [x] + a == [y] + b ==> x == y && a == b
  {
    if [x] + a == [y] + b {
      assert x == ([x] + a)[0] == ([y] + b)[0] == y;
      assert a == ([x] + a)[1..];
      assert b == ([y] + b)[1..];
    }
  }

  lemma {:induction false} FieldRoundTrip(
    c: Ctx, common: set<string>, parent: Option<VersionRange>, fm: FieldMeta, v: Value, rest: Bytes)
    requires ValidVersion(c) && Covers(parent, c.version)
    requires ShapedField(fm)
    requires HasType(v, FieldType(common, parent, fm)) && WireField(c, fm, v).Ok?
    ensures ReadsBack(ParseField(c, common, parent, fm, WireField(c, fm, v).value + rest),
                      DecodableField(c, fm, v), NormalField(c, fm, v), rest)
    decreases fm, 3, 0
  {
    FieldValues(common, parent, fm, v);
    if !fm.version.Within(c.version) {
      assert WireField(c, fm, v).value + rest == rest;
    } else if IsBare(parent, fm) && !fm.kind.RecordsKind? {
      BaseValues(common, fm, v);
      assert WireField(c, fm, v) == WirePresent(c, fm, v) == WireBase(c, fm, v);
      assert NormalField(c, fm, v) == NormalPresent(c, fm, v) == NormalBase(c, fm, v);
      assert DecodableField(c, fm, v) == DecodablePresent(c, fm, v) == DecodableBase(c, fm, v);
      BaseRoundTrip(c, common, fm, v, rest);
    } else if IsBare(parent, fm) {
      BaseValues(common, fm, v);
    } else if v.VNone? {
      NullRoundTrip(c, common, parent, fm, rest);
    } else if fm.kind.RecordsKind? {
      BaseValues(common, fm, v.some);
      RecordsRoundTrip(c, common, parent, fm, v.some, rest);
    } else if fm.kind.SequenceOf? {
      SequenceRoundTrip(c, common, parent, fm, v.some.elements, rest);
    } else {
      SingleRoundTrip(c, common, parent, fm, v.some, rest);
    }
  }

  lemma {:induction false} SequenceRoundTrip(
    c: Ctx, common: set<string>, parent: Option<VersionRange>, fm: FieldMeta, vs: seq<Value>,
    rest: Bytes)
    requires ValidVersion(c) && fm.version.Within(c.version)
    requires ShapedField(fm) && fm.kind.SequenceOf?
    requires forall i :: 0 <= i < |vs| ==> HasType(vs[i], BaseType(common, fm))
    requires WireField(c, fm, VSome(VVec(vs))).Ok?
    ensures ReadsBack(ParseField(c, common, parent, fm, WireField(c, fm, VSome(VVec(vs))).value + rest),
                      DecodableField(c, fm, VSome(VVec(vs))), NormalField(c, fm, VSome(VVec(vs))), rest)
    decreases fm, 2, 0
  {
    var v := VVec(vs);
    var prefix, body := SequencePrefix(c.flexible, |vs|).value, WireElements(c, fm, vs).value;
    assert WirePresent(c, fm, v).value == prefix + body;
    assert WireField(c, fm, VSome(v)).value == prefix + body;
    Associate(prefix, body, rest);
    SequenceLengthRoundTrip(c.flexible, |vs|, body + rest);
    ElementsRoundTrip(c, common, fm, vs, rest);
    assert DecodableField(c, fm, VSome(v)) == DecodablePresent(c, fm, v) == DecodableElements(c, fm, vs);
    assert NormalField(c, fm, VSome(v)) == VSome(NormalPresent(c, fm, v));
    assert NormalPresent(c, fm, v) == VVec(NormalElements(c, fm, vs));
  }

  lemma {:induction false} NullRoundTrip(
    c: Ctx, common: set<string>, parent: Option<VersionRange>, fm: FieldMeta, rest: Bytes)
    requires ValidVersion(c) && fm.version.Within(c.version) && !IsBare(parent, fm)
    requires ShapedField(fm) && WireNull(c, fm).Ok?
    ensures ReadsBack(ParseField(c, common, parent, fm, WireNull(c, fm).value + rest),
                      DecodableField(c, fm, VNone), VNone, rest)
  {
    var wire := WireNull(c, fm).value;
    if fm.kind.RecordsKind? {
      NullRecordsLength(c.flexible, rest);
    } else if fm.kind.SequenceOf? {
      NullLength(c.flexible, 4, rest);
    } else if fm.kind.StringKind? {
      NullLength(c.flexible, 2, rest);
    } else if fm.IsStructure() {
      TakeFront(wire, rest);
    }
  }

  /** A record set that is absent is written as an empty one. */
  lemma NullRecordsLength(flexible: bool, rest: Bytes)
    ensures ReadBytesLength(flexible, (if flexible then [1] else [0, 0, 0, 0]) + rest) == Ok(Parsed(0, rest))
  {
    RecordsLengthRoundTrip(flexible, 0, rest);
    if flexible {
      assert Varint.Encode(1) == [1];
    } else {
      assert BigEndian(0, 4) == [0, 0, 0, 0];
    }
  }

  /** The null length, compact or not. */
  lemma NullLength(flexible: bool, width: nat, rest: Bytes)
    requires width == 2 || width == 4
    ensures var wire := if flexible then [0] else if width == 2 then [255, 255] else [255, 255, 255, 255];
            ReadNullableLength(flexible, width, wire + rest) == Ok(Parsed(None, rest))
  {
    if flexible {
      Varint.RoundTrip(0, rest);
      assert Varint.Encode(0) == [0];
    } else {
      Pow256Values();
      SignedRoundTrip(-1, width);
      MinusOne2();
      MinusOne4();
      TakeFront(Signed(-1, width), rest);
    }
  }

  lemma MinusOne4()
    ensures FitsSigned(-1, 4) && Signed(-1, 4) == [255, 255, 255, 255]
  {
    Pow256Values();
    assert BigEndian(0xff, 1) == [255];
    assert BigEndian(0xffff, 2) == [255, 255];
    assert BigEndian(0xff_ffff, 3) == [255, 255, 255];
    assert BigEndian(0xffff_ffff, 4) == [255, 255, 255, 255];
  }

  lemma MinusOne2()
    ensures FitsSigned(-1, 2) && Signed(-1, 2) == [255, 255]
  {
    Pow256Values();
    assert BigEndian(0xff, 1) == [255];
    assert BigEndian(0xffff, 2) == [255, 255];
  }

  lemma {:induction false} RecordsRoundTrip(
    c: Ctx, common: set<string>, parent: Option<VersionRange>, fm: FieldMeta, v: Value, rest: Bytes)
    requires fm.version.Within(c.version) && !IsBare(parent, fm) && fm.kind.RecordsKind? && fm.fields == []
    requires v.VRecords? && AreBatches(v.batches) && WireBase(c, fm, v).Ok?
    ensures ReadsBack(ParseField(c, common, parent, fm, WireBase(c, fm, v).value + rest),
                      DecodableBase(c, fm, v), if v.batches == [] then VNone else VSome(v), rest)
    ensures WireField(c, fm, VSome(v)) == WireBase(c, fm, v)
    ensures DecodableField(c, fm, VSome(v)) == DecodableBase(c, fm, v)
    ensures NormalField(c, fm, VSome(v)) == if v.batches == [] then VNone else VSome(v)
  {
    RecordsUnfold(c, fm, v);
    var body := WireBatches(v.batches);
    var prefix := RecordsPrefix(c.flexible, |body|).value;
    Associate(prefix, body, rest);
    RecordsLengthRoundTrip(c.flexible, |body|, body + rest);
    BatchesLength(v.batches);
    if v.batches == [] {
      assert body + rest == rest;
    } else {
      ContentRoundTrip(body, rest);
      BatchesRoundTrip(v.batches);
    }
  }

  lemma RecordsUnfold(c: Ctx, fm: FieldMeta, v: Value)
    requires fm.version.Within(c.version) && fm.kind.RecordsKind? && fm.fields == [] && v.VRecords?
    ensures WireField(c, fm, VSome(v)) == WireBase(c, fm, v)
    ensures DecodableField(c, fm, VSome(v)) == DecodableBase(c, fm, v)
    ensures NormalField(c, fm, VSome(v)) == if v.batches == [] then VNone else VSome(v)
  {
    var wire := WirePresent(c, fm, v);
    assert wire == WireBase(c, fm, v);
    assert wire.Ok? ==> [] + wire.value == wire.value;
    assert DecodablePresent(c, fm, v) == DecodableBase(c, fm, v);
    assert NormalPresent(c, fm, v) == NormalBase(c, fm, v) == v;
  }

  lemma {:induction false} SingleRoundTrip(
    c: Ctx, common: set<string>, parent: Option<VersionRange>, fm: FieldMeta, x: Value, rest: Bytes)
    requires ValidVersion(c) && fm.version.Within(c.version) && !IsBare(parent, fm)
    requires ShapedField(fm) && !fm.kind.SequenceOf? && !fm.kind.RecordsKind?
    requires HasType(x, BaseType(common, fm)) && WireField(c, fm, VSome(x)).Ok?
    ensures ReadsBack(ParseField(c, common, parent, fm, WireField(c, fm, VSome(x)).value + rest),
                      DecodableField(c, fm, VSome(x)), NormalField(c, fm, VSome(x)), rest)
    decreases fm, 2, 0
  {
    var presence, body := Presence(c, fm), WireBase(c, fm, x).value;
    assert WireField(c, fm, VSome(x)).value == presence + body;
    assert DecodableField(c, fm, VSome(x)) == DecodablePresent(c, fm, x) == DecodableBase(c, fm, x);
    assert NormalField(c, fm, VSome(x)) == VSome(NormalPresent(c, fm, x)) == VSome(NormalBase(c, fm, x));
    if fm.kind.StringKind? {
      assert presence + body == body;
      var prefix := StringPrefix(c.flexible, |x.s|).value;
      Associate(prefix, x.s, rest);
      StringLengthRoundTrip(c.flexible, |x.s|, x.s + rest);
      ContentRoundTrip(x.s, rest);
    } else {
      BaseRoundTrip(c, common, fm, x, rest);
      if presence == [] {
        assert presence + body == body;
      } else {
        Associate(presence, body, rest);
        TakeFront(presence, body + rest);
      }
    }
  }

  lemma {:induction false} FieldsRoundTrip(
    c: Ctx, common: set<string>, parent: Option<VersionRange>, fields: Fields, vs: seq<NamedValue>,
    rest: Bytes)
    requires ValidVersion(c) && Covers(parent, c.version)
    requires ShapedEach(fields)
    requires HaveTypes(vs, FieldTypes(common, parent, fields)) && WireFields(c, fields, vs).Ok?
    ensures ReadsBack(ParseFields(c, common, parent, fields, WireFields(c, fields, vs).value + rest),
                      DecodableFields(c, fields, vs), NormalFields(c, fields, vs), rest)
    decreases fields, 0, 0
  {
    if fields == [] {
      TagBufferRoundTrip(c, vs, rest);
    } else if fields[0].meta.tag.Some? {
      FieldsRoundTrip(c, common, parent, fields[1..], vs, rest);
    } else {
      var v := vs[0].value;
      var first, others := WireField(c, fields[0].meta, v).value, WireFields(c, fields[1..], vs[1..]).value;
      Associate(first, others, rest);
      FieldRoundTrip(c, common, parent, fields[0].meta, v, others + rest);
      FieldsRoundTrip(c, common, parent, fields[1..], vs[1..], rest);
      FieldsStep(c, common, parent, fields, vs, first + (others + rest), others + rest, rest);
    }
  }

  /** The first field read back and then the others. */
  lemma {:induction false} FieldsStep(
    c: Ctx, common: set<string>, parent: Option<VersionRange>, fields: Fields, vs: seq<NamedValue>,
    input: Bytes, next: Bytes, rest: Bytes)
    requires vs != [] && fields != [] && fields[0].meta.tag.None? && vs[0].name == fields[0].name
    requires ReadsBack(ParseField(c, common, parent, fields[0].meta, input),
                       DecodableField(c, fields[0].meta, vs[0].value),
                       NormalField(c, fields[0].meta, vs[0].value), next)
    requires ReadsBack(ParseFields(c, common, parent, fields[1..], next),
                       DecodableFields(c, fields[1..], vs[1..]), NormalFields(c, fields[1..], vs[1..]), rest)
    ensures ReadsBack(ParseFields(c, common, parent, fields, input),
                      DecodableFields(c, fields, vs), NormalFields(c, fields, vs), rest)
  {
    var head := ParseField(c, common, parent, fields[0].meta, input);
    if head.Ok? {
      var tail := ParseFields(c, common, parent, fields[1..], head.value.rest);
      if tail.Ok? {
        ConsInjective(NamedValue(fields[0].name, head.value.value), tail.value.value,
                      NamedValue(vs[0].name, NormalField(c, fields[0].meta, vs[0].value)),
                      NormalFields(c, fields[1..], vs[1..]));
      }
    }
  }

  lemma TagBufferRoundTrip(c: Ctx, vs: seq<NamedValue>, rest: Bytes)
    requires HaveTypes(vs, [TypedField(TAG_BUFFER, TOption(TTags))]) && WireFields(c, [], vs).Ok?
    ensures forall common, parent ::
              ReadsBack(ParseFields(c, common, parent, [], WireFields(c, [], vs).value + rest),
                        DecodableFields(c, [], vs), NormalFields(c, [], vs), rest)
  {
    var wire := WireFields(c, [], vs).value;
    assert |vs| == 1 && HasType(vs[0].value, TOption(TTags));
    if c.flexible && vs[0].value.VSome? {
      assert HasType(vs[0].value.some, TTags);
      TagsRoundTrip(vs[0].value.some.tags, rest);
    } else {
      assert wire + rest == rest;
    }
  }

  /** Why a null byte string is not decodable: it is written as a length of zero, which the decoder refuses. */
  lemma NullBytesRefused(
    c: Ctx, common: set<string>, parent: Option<VersionRange>, fm: FieldMeta, rest: Bytes)
    requires ShapedField(fm) && fm.kind.BytesKind? && fm.version.Within(c.version) && fm.IsNullable(c.version)
    requires c.flexible
    ensures WireField(c, fm, VNone) == Ok([0]) && !DecodableField(c, fm, VNone)
    ensures ParseField(c, common, parent, fm, [0] + rest) == Err(Overflow)
  {
    Varint.RoundTrip(0, rest);
    assert Varint.Encode(0) == [0];
  }

  /**
   Outside the flexible versions, where no message has one, nothing would be
   written for it, and what follows would be read in its place.
   */
  lemma NullBytesTakeWhatFollows(
    c: Ctx, common: set<string>, parent: Option<VersionRange>, fm: FieldMeta, next: Bytes, rest: Bytes)
    requires ShapedField(fm) && fm.kind.BytesKind? && fm.version.Within(c.version) && fm.IsNullable(c.version)
    requires !c.flexible && |next| <= MESSAGE_MAX_SIZE
    ensures WireField(c, fm, VNone) == Ok([]) && !DecodableField(c, fm, VNone)
    ensures BytesPrefix(false, |next|).Ok?
    ensures ParseField(c, common, parent, fm, BytesPrefix(false, |next|).value + (next + rest))
            == Ok(Parsed(VSome(VBytes(next)), rest))
  {
    BytesLengthRoundTrip(false, |next|, next + rest);
    ContentRoundTrip(next, rest);
  }
}
