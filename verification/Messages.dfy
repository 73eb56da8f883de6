/**
 Whole messages: the round trip with its exact condition, prefix-freeness,
 injectivity, and exactly when a message cannot be encoded.
 */
module Messages {
  import opened Base
  import opened Schema
  import opened Types
  import opened Grammar
  import opened RoundTrip
  import opened PrefixFree
  import opened Descriptors
  import Varint

  function ContextOf(mm: MessageMeta, version: int): (c: Ctx) {
    Ctx(version, mm.flexible.Within(version), Structures(mm))
  }

  function WireMessage(mm: MessageMeta, version: int, v: Value): (r: Result<Bytes>) {
    if v.VStruct? then WireFields(ContextOf(mm, version), mm.fields, v.fields) else Err(UnexpectedType)
  }

  function ParseMessage(mm: MessageMeta, common: set<string>, version: int, input: Bytes)
    : (r: Result<Parsed<Value>>)
  {
    var fields :- ParseFields(ContextOf(mm, version), common, None, mm.fields, input);
    Ok(Parsed(VStruct(mm.name, fields.value), fields.rest))
  }

  predicate IsMessage(mm: MessageMeta, common: set<string>, version: int, v: Value) {
    WellFormed(mm, common) && 0 <= version <= I16_MAX && HasType(v, MessageType(common, mm))
  }

  /** A body of a message, as far as the encoder is concerned. */
  predicate IsBody(mm: MessageMeta, common: set<string>, v: Value) {
    Writable(mm) && HasType(v, MessageType(common, mm))
  }

  function Normal(mm: MessageMeta, version: int, v: Value): (r: Value)
    requires v.VStruct?
  {
    VStruct(v.name, NormalFields(ContextOf(mm, version), mm.fields, v.fields))
  }

  predicate Decodable(mm: MessageMeta, version: int, v: Value)
    requires v.VStruct?
  {
    DecodableFields(ContextOf(mm, version), mm.fields, v.fields)
  }

  /**
   The round trip, and exactly when it holds: a message that encodes is read
   back, leaving what follows it, if and only if it is decodable.
   */
  lemma MessageRoundTrip(mm: MessageMeta, common: set<string>, version: int, v: Value, rest: Bytes)
    requires IsMessage(mm, common, version, v) && WireMessage(mm, version, v).Ok?
    ensures ParseMessage(mm, common, version, WireMessage(mm, version, v).value + rest)
            == Ok(Parsed(Normal(mm, version, v), rest))
            <==> Decodable(mm, version, v)
  {
    var c := ContextOf(mm, version);
    FieldsRoundTrip(c, common, None, mm.fields, v.fields, rest);
  }

  lemma MessageExtends(mm: MessageMeta, common: set<string>, version: int, input: Bytes, more: Bytes)
    requires ParseMessage(mm, common, version, input).Ok?
    ensures ParseMessage(mm, common, version, input + more)
            == Extended(ParseMessage(mm, common, version, input), more)
  {
    FieldsExtend(ContextOf(mm, version), common, None, mm.fields, input, more);
  }

  /** No proper prefix of an encoding can be read as a message. */
  lemma PrefixRefused(mm: MessageMeta, common: set<string>, version: int, v: Value, n: nat)
    requires IsMessage(mm, common, version, v) && WireMessage(mm, version, v).Ok? && Decodable(mm, version, v)
    requires n < |WireMessage(mm, version, v).value|
    ensures ParseMessage(mm, common, version, WireMessage(mm, version, v).value[..n]).Err?
  {
    var wire := WireMessage(mm, version, v).value;
    MessageRoundTrip(mm, common, version, v, []);
    assert wire + [] == wire == wire[..n] + wire[n..];
    if ParseMessage(mm, common, version, wire[..n]).Ok? {
      MessageExtends(mm, common, version, wire[..n], wire[n..]);
    }
  }

  /** An encoding followed by anything is not an encoding of something else: the code is prefix-free. */
  lemma PrefixFreeAndInjective(
    mm: MessageMeta, common: set<string>, version: int, v: Value, w: Value, rest: Bytes)
    requires IsMessage(mm, common, version, v) && WireMessage(mm, version, v).Ok? && Decodable(mm, version, v)
    requires IsMessage(mm, common, version, w) && WireMessage(mm, version, w).Ok? && Decodable(mm, version, w)
    requires WireMessage(mm, version, w).value == WireMessage(mm, version, v).value + rest
    ensures rest == [] && Normal(mm, version, v) == Normal(mm, version, w)
  {
    var wire := WireMessage(mm, version, w).value;
    MessageRoundTrip(mm, common, version, v, rest);
    MessageRoundTrip(mm, common, version, w, []);
    assert wire + [] == wire;
  }

  /** An `EnvelopeResponse` with no data in it. */
  function EmptyEnvelope(code: int): (r: Value) {
    VStruct("EnvelopeResponse", [
      NamedValue("response_data", VNone), NamedValue("error_code", VInt(code)),
      NamedValue(TAG_BUFFER, VSome(VTags([])))])
  }

  lemma EmptyEnvelopeIsMessage(common: set<string>, version: int, code: int)
    requires 0 <= version <= I16_MAX && FitsSigned(code, 2)
    ensures IsMessage(ENVELOPE_RESPONSE, common, version, EmptyEnvelope(code))
  {
    EnvelopeIsWellFormed(common);
    var fields, vs := ENVELOPE_RESPONSE.fields, EmptyEnvelope(code).fields;
    TypesEnd(common, None, fields[1..][1..], vs[1..][1..]);
    TypesCons(common, None, fields[1..], vs[1..]);
    TypesCons(common, None, fields, vs);
  }

  /** It encodes, at every version, and is not read back. */
  lemma EmptyEnvelopeRefused(common: set<string>, version: int, code: int, rest: Bytes)
    requires 0 <= version <= I16_MAX && FitsSigned(code, 2)
    ensures IsMessage(ENVELOPE_RESPONSE, common, version, EmptyEnvelope(code))
    ensures var wire := WireMessage(ENVELOPE_RESPONSE, version, EmptyEnvelope(code));
            wire.Ok? && ParseMessage(ENVELOPE_RESPONSE, common, version, wire.value + rest) == Err(Overflow)
  {
    EmptyEnvelopeIsMessage(common, version, code);
    var c := ContextOf(ENVELOPE_RESPONSE, version);
    var fields, vs := ENVELOPE_RESPONSE.fields, EmptyEnvelope(code).fields;
    assert fields[1..][1..] == [] && vs[1..][1..] == vs[2..];
    var none: seq<TagField> := [];
    assert WireTags(none) == Ok(Varint.Encode(0) + []);
    assert WireFields(c, fields[1..][1..], vs[2..]).Ok?;
    var others := WireFields(c, fields[1..], vs[1..]);
    assert WireField(c, INT16, VInt(code)).Ok?;
    assert others.Ok?;
    NullBytesRefused(c, common, None, NULLABLE_BYTES, others.value + rest);
    Associate([0], others.value, rest);
    assert WireMessage(ENVELOPE_RESPONSE, version, EmptyEnvelope(code)) == Ok([0] + others.value);
  }

  // ---------------------------------------------------------------------
  // When a message cannot be encoded

  /** Some field on the wire at this version is absent and has no null form. */
  predicate OmitsField(c: Ctx, fm: FieldMeta, v: Value)
    decreases fm, 3, 0
  {
    && fm.version.Within(c.version)
    && match v
       case VNone => !fm.kind.RecordsKind? && !fm.IsNullable(c.version)
       case VSome(x) => OmitsPresent(c, fm, x)
       case _ => OmitsPresent(c, fm, v)
  }

  predicate OmitsPresent(c: Ctx, fm: FieldMeta, v: Value)
    decreases fm, 2, 0
  {
    if fm.kind.SequenceOf? then v.VVec? && OmitsInElements(c, fm, v.elements) else OmitsBase(c, fm, v)
  }

  predicate OmitsInElements(c: Ctx, fm: FieldMeta, vs: seq<Value>)
    decreases fm, 1, |vs|
  {
    vs != [] && (OmitsBase(c, fm, vs[0]) || OmitsInElements(c, fm, vs[1..]))
  }

  predicate OmitsBase(c: Ctx, fm: FieldMeta, v: Value)
    decreases fm, 0, 0
  {
    fm.BaseKind().Named? && v.VStruct? && OmitsInFields(c, fm.fields, v.fields)
  }

  predicate OmitsInFields(c: Ctx, fields: Fields, vs: seq<NamedValue>)
    decreases fields, 0, 0
  {
    && vs != [] && fields != []
    && if fields[0].meta.tag.Some? then OmitsInFields(c, fields[1..], vs)
       else OmitsField(c, fields[0].meta, vs[0].value) || OmitsInFields(c, fields[1..], vs[1..])
  }

  /** Every length on the wire fits the width it is written in. */
  predicate LengthsFitField(c: Ctx, fm: FieldMeta, v: Value)
    decreases fm, 3, 0
  {
    fm.version.Within(c.version) ==>
      match v
      case VNone => true
      case VSome(x) => LengthsFitPresent(c, fm, x)
      case VRecords(_) => true
      case _ => LengthsFitPresent(c, fm, v)
  }

  predicate LengthsFitPresent(c: Ctx, fm: FieldMeta, v: Value)
    decreases fm, 2, 0
  {
    if fm.kind.SequenceOf? then
      v.VVec? ==>
        && |v.elements| < (if c.flexible then U32_LIMIT - 1 else 0x8000_0000)
        && LengthsFitElements(c, fm, v.elements)
    else LengthsFitBase(c, fm, v)
  }

  predicate LengthsFitElements(c: Ctx, fm: FieldMeta, vs: seq<Value>)
    decreases fm, 1, |vs|
  {
    vs != [] ==> LengthsFitBase(c, fm, vs[0]) && LengthsFitElements(c, fm, vs[1..])
  }

  predicate LengthsFitBase(c: Ctx, fm: FieldMeta, v: Value)
    decreases fm, 0, 0
  {
    match v
    case VString(s) => |s| < if c.flexible then U32_LIMIT - 1 else 0x8000
    case VBytes(s) => |s| < if c.flexible then U32_LIMIT - 1 else U32_LIMIT
    case VRecords(batches) => AreBatches(batches) ==> |WireBatches(batches)| < U32_LIMIT
    case VStruct(_, fields) => fm.BaseKind().Named? ==> LengthsFitFields(c, fm.fields, fields)
    case _ => true
  }

  predicate LengthsFitFields(c: Ctx, fields: Fields, vs: seq<NamedValue>)
    decreases fields, 0, 0
  {
    vs != [] ==>
      if fields == [] then
        c.flexible && vs[0].value.VSome? && vs[0].value.some.VTags? ==> WireTags(vs[0].value.some.tags).Ok?
      else if fields[0].meta.tag.Some? then LengthsFitFields(c, fields[1..], vs)
      else LengthsFitField(c, fields[0].meta, vs[0].value) && LengthsFitFields(c, fields[1..], vs[1..])
  }

  /** Refused with the omitted-field error if that is what is wrong, and otherwise encoded. */
  predicate Answers<T>(c: Ctx, omits: bool, r: Result<T>) {
    if omits then r == Err(OmittedNonNullableField(c.version)) else r.Ok?
  }

  lemma {:induction false} BaseAnswers(c: Ctx, common: set<string>, fm: FieldMeta, v: Value)
    requires ShapedField(fm) && HasType(v, BaseType(common, fm)) && LengthsFitBase(c, fm, v)
    ensures Answers(c, OmitsBase(c, fm, v), WireBase(c, fm, v))
    decreases fm, 0, 0
  {
    BaseValues(common, fm, v);
    if fm.BaseKind().Named? {
      FieldsAnswer(c, common, Inner(common, fm), fm.fields, v.fields);
    }
  }

  lemma {:induction false} ElementsAnswer(
    c: Ctx, common: set<string>, fm: FieldMeta, vs: seq<Value>)
    requires ShapedField(fm) && LengthsFitElements(c, fm, vs)
    requires forall i :: 0 <= i < |vs| ==> HasType(vs[i], BaseType(common, fm))
    ensures Answers(c, OmitsInElements(c, fm, vs), WireElements(c, fm, vs))
    decreases fm, 1, |vs|
  {
    if vs != [] {
      BaseAnswers(c, common, fm, vs[0]);
      ElementsAnswer(c, common, fm, vs[1..]);
    }
  }

  lemma {:induction false} PresentAnswers(
    c: Ctx, common: set<string>, fm: FieldMeta, v: Value)
    requires ShapedField(fm) && LengthsFitPresent(c, fm, v)
    requires if fm.kind.SequenceOf?
             then v.VVec? && forall i :: 0 <= i < |v.elements| ==> HasType(v.elements[i], BaseType(common, fm))
             else HasType(v, BaseType(common, fm))
    ensures Answers(c, OmitsPresent(c, fm, v), WirePresent(c, fm, v))
    decreases fm, 2, 0
  {
    if fm.kind.SequenceOf? {
      ElementsAnswer(c, common, fm, v.elements);
    } else {
      BaseAnswers(c, common, fm, v);
    }
  }

  lemma {:induction false} FieldAnswers(
    c: Ctx, common: set<string>, parent: Option<VersionRange>, fm: FieldMeta, v: Value)
    requires ShapedField(fm) && HasType(v, FieldType(common, parent, fm))
    requires LengthsFitField(c, fm, v)
    ensures Answers(c, OmitsField(c, fm, v), WireField(c, fm, v))
    decreases fm, 3, 0
  {
    FieldValues(common, parent, fm, v);
    if fm.version.Within(c.version) {
      if IsBare(parent, fm) {
        BaseValues(common, fm, v);
        if fm.kind.RecordsKind? {
          assert !OmitsBase(c, fm, v) && !OmitsPresent(c, fm, v);
        } else {
          PresentAnswers(c, common, fm, v);
        }
      } else if v.VSome? {
        PresentAnswers(c, common, fm, v.some);
      }
    }
  }

  lemma {:induction false} FieldsAnswer(
    c: Ctx, common: set<string>, parent: Option<VersionRange>, fields: Fields, vs: seq<NamedValue>)
    requires ShapedEach(fields) && HaveTypes(vs, FieldTypes(common, parent, fields))
    requires LengthsFitFields(c, fields, vs)
    ensures Answers(c, OmitsInFields(c, fields, vs), WireFields(c, fields, vs))
    decreases fields, 0, 0
  {
    if fields == [] {
      assert |vs| == 1 && HasType(vs[0].value, TOption(TTags));
      if vs[0].value.VSome? {
        assert HasType(vs[0].value.some, TTags);
      }
    } else if fields[0].meta.tag.Some? {
      FieldsAnswer(c, common, parent, fields[1..], vs);
    } else {
      FieldAnswers(c, common, parent, fields[0].meta, vs[0].value);
      FieldsAnswer(c, common, parent, fields[1..], vs[1..]);
    }
  }

  /**
   When every length fits, a message is refused exactly when it leaves out a
   field that is valid at this version, not nullable and not records, and the
   error says so.
   */
  lemma RefusedExactlyWhenOmitted(mm: MessageMeta, common: set<string>, version: int, v: Value)
    requires IsBody(mm, common, v)
    requires LengthsFitFields(ContextOf(mm, version), mm.fields, v.fields)
    ensures Answers(ContextOf(mm, version), OmitsInFields(ContextOf(mm, version), mm.fields, v.fields),
                    WireMessage(mm, version, v))
  {
    FieldsAnswer(ContextOf(mm, version), common, None, mm.fields, v.fields);
  }
}
