/**
 Reading a field looks at no byte past the ones it consumes. With the round trip
 this makes the encodings of a message prefix-free and, up to what is not on the
 wire, injective.
 */
module PrefixFree {
  import opened Base
  import opened Schema
  import opened Types
  import opened Grammar
  import Varint

  lemma NullableLengthExtends(flexible: bool, width: nat, input: Bytes, more: Bytes)
    requires ReadNullableLength(flexible, width, input).Ok?
    ensures ReadNullableLength(flexible, width, input + more)
            == Extended(ReadNullableLength(flexible, width, input), more)
  {
    if flexible {
      Varint.ReadFromExtends(input, more, 0, 0);
    } else {
      TakeExtends(input, width, more);
    }
  }

  lemma StringLengthExtends(flexible: bool, input: Bytes, more: Bytes)
    requires ReadStringLength(flexible, input).Ok?
    ensures ReadStringLength(flexible, input + more) == Extended(ReadStringLength(flexible, input), more)
  {
    if flexible {
      Varint.ReadFromExtends(input, more, 0, 0);
    } else {
      TakeExtends(input, 2, more);
    }
  }

  lemma BytesLengthExtends(flexible: bool, input: Bytes, more: Bytes)
    requires ReadBytesLength(flexible, input).Ok?
    ensures ReadBytesLength(flexible, input + more) == Extended(ReadBytesLength(flexible, input), more)
  {
    if flexible {
      Varint.ReadFromExtends(input, more, 0, 0);
    } else {
      TakeExtends(input, 4, more);
    }
  }

  lemma TagExtends(input: Bytes, more: Bytes)
    requires ReadTag(input).Ok?
    ensures ReadTag(input + more) == Extended(ReadTag(input), more)
  {
    Varint.ReadFromExtends(input, more, 0, 0);
    var tag := Varint.Read(input).value;
    Varint.ReadFromExtends(tag.rest, more, 0, 0);
    var length := Varint.Read(tag.rest).value;
    TakeExtends(length.rest, length.value, more);
  }

  lemma {:induction false} TagListExtends(count: nat, input: Bytes, more: Bytes)
    requires ReadTagList(count, input).Ok?
    ensures ReadTagList(count, input + more) == Extended(ReadTagList(count, input), more)
  {
    if count > 0 {
      var first := ReadTag(input).value;
      TagExtends(input, more);
      TagListExtends(count - 1, first.rest, more);
      TagListStep(count, input, first.value, first.rest);
      TagListStep(count, input + more, first.value, first.rest + more);
    }
  }

  lemma {:induction false} TagListStep(count: nat, input: Bytes, first: TagField, rest: Bytes)
    requires count > 0 && ReadTag(input) == Ok(Parsed(first, rest)) && ReadTagList(count - 1, rest).Ok?
    ensures var others := ReadTagList(count - 1, rest).value;
            ReadTagList(count, input) == Ok(Parsed([first] + others.value, others.rest))
  {
  }

  lemma TagBufferExtends(c: Ctx, input: Bytes, more: Bytes)
    requires ParseTagBuffer(c, input).Ok?
    ensures ParseTagBuffer(c, input + more) == Extended(ParseTagBuffer(c, input), more)
  {
    if c.flexible {
      Varint.ReadFromExtends(input, more, 0, 0);
      var count := Varint.Read(input).value;
      TagListExtends(count.value, count.rest, more);
    }
  }

  lemma {:induction false} BaseExtends(c: Ctx, common: set<string>, fm: FieldMeta, input: Bytes, more: Bytes)
    requires ParseBase(c, common, fm, input).Ok?
    ensures ParseBase(c, common, fm, input + more) == Extended(ParseBase(c, common, fm, input), more)
    decreases fm, 0, 0
  {
    match fm.BaseKind() {
      case ScalarKind(s) =>
        TakeExtends(input, Width(s), more);
      case StringKind =>
        StringLengthExtends(c.flexible, input, more);
        var length := ReadStringLength(c.flexible, input).value;
        TakeExtends(length.rest, length.value, more);
      case BytesKind =>
        BytesLengthExtends(c.flexible, input, more);
        var length := ReadBytesLength(c.flexible, input).value;
        TakeExtends(length.rest, length.value, more);
      case Named(_) =>
        if !IsBlind(c.table, fm) {
          FieldsExtend(c, common, Inner(common, fm), fm.fields, input, more);
        }
    }
  }

  lemma {:induction false} ElementsExtend(
    c: Ctx, common: set<string>, fm: FieldMeta, count: nat, input: Bytes, more: Bytes)
    requires ParseElements(c, common, fm, count, input).Ok?
    ensures ParseElements(c, common, fm, count, input + more)
            == Extended(ParseElements(c, common, fm, count, input), more)
    decreases fm, 1, count
  {
    if count > 0 {
      BaseExtends(c, common, fm, input, more);
      ElementsExtend(c, common, fm, count - 1, ParseBase(c, common, fm, input).value.rest, more);
    }
  }

  lemma {:induction false} FieldExtends(
    c: Ctx, common: set<string>, parent: Option<VersionRange>, fm: FieldMeta, input: Bytes, more: Bytes)
    requires ParseField(c, common, parent, fm, input).Ok?
    ensures ParseField(c, common, parent, fm, input + more)
            == Extended(ParseField(c, common, parent, fm, input), more)
    decreases fm, 2, 0
  {
    if IsBare(parent, fm) && !fm.kind.RecordsKind? {
      BaseExtends(c, common, fm, input, more);
    } else if IsBare(parent, fm) || !fm.version.Within(c.version) {
    } else if fm.kind.RecordsKind? {
      BytesLengthExtends(c.flexible, input, more);
      var length := ReadBytesLength(c.flexible, input).value;
      if length.value != 0 {
        TakeExtends(length.rest, length.value, more);
      }
    } else if fm.kind.SequenceOf? {
      NullableLengthExtends(c.flexible, 4, input, more);
      var length := ReadNullableLength(c.flexible, 4, input).value;
      if length.value.Some? {
        ElementsExtend(c, common, fm, length.value.value, length.rest, more);
      }
    } else if fm.kind.StringKind? {
      NullableLengthExtends(c.flexible, 2, input, more);
      var length := ReadNullableLength(c.flexible, 2, input).value;
      if length.value.Some? {
        TakeExtends(length.rest, length.value.value, more);
      }
    } else if fm.IsNullable(c.version) && fm.IsStructure() {
      TakeExtends(input, 1, more);
      var presence := Take(input, 1).value;
      if presence.value[0] < 128 {
        BaseExtends(c, common, fm, presence.rest, more);
      }
    } else {
      BaseExtends(c, common, fm, input, more);
    }
  }

  lemma {:induction false} FieldsExtend(
    c: Ctx, common: set<string>, parent: Option<VersionRange>, fields: Fields, input: Bytes, more: Bytes)
    requires ParseFields(c, common, parent, fields, input).Ok?
    ensures ParseFields(c, common, parent, fields, input + more)
            == Extended(ParseFields(c, common, parent, fields, input), more)
    decreases fields, 0, 0
  {
    if fields == [] {
      TagBufferExtends(c, input, more);
    } else if fields[0].meta.tag.Some? {
      FieldsExtend(c, common, parent, fields[1..], input, more);
    } else {
      FieldExtends(c, common, parent, fields[0].meta, input, more);
      var first := ParseField(c, common, parent, fields[0].meta, input).value;
      FieldsExtend(c, common, parent, fields[1..], first.rest, more);
    }
  }
}
