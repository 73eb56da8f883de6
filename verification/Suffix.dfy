/**
 Reading only ever takes bytes off the front: what is left over is the end of what
 there was.
 */
module Suffix {
  import opened Base
  import opened Schema
  import opened Types
  import opened Grammar
  import Varint

  predicate IsSuffix(rest: Bytes, input: Bytes) {
    |rest| <= |input| && rest == input[|input| - |rest|..]
  }

  predicate Leaves<T>(r: Result<Parsed<T>>, input: Bytes) {
    r.Ok? ==> IsSuffix(r.value.rest, input)
  }

  lemma SuffixOfSuffix(a: Bytes, b: Bytes, c: Bytes)
    requires IsSuffix(a, b) && IsSuffix(b, c)
    ensures IsSuffix(a, c)
  {
  }

  lemma LeavesAfter<T>(r: Result<Parsed<T>>, rest: Bytes, input: Bytes)
    requires Leaves(r, rest) && IsSuffix(rest, input)
    ensures Leaves(r, input)
  {
    if r.Ok? {
      SuffixOfSuffix(r.value.rest, rest, input);
    }
  }

  lemma VarintLeaves(input: Bytes)
    ensures Leaves(Varint.Read(input), input)
    ensures Varint.Read(input).Ok? ==> |Varint.Read(input).value.rest| < |input|
  {
    Varint.ReadFromBounds(input, 0, 0);
  }

  lemma ContentLeaves(length: Parsed<nat>, input: Bytes)
    requires IsSuffix(length.rest, input)
    ensures Leaves(Take(length.rest, length.value), input)
    ensures Leaves(ReadContent(length.value, length.rest), input)
  {
    LeavesAfter(Take(length.rest, length.value), length.rest, input);
  }

  lemma NullableLengthLeaves(flexible: bool, width: nat, input: Bytes)
    ensures Leaves(ReadNullableLength(flexible, width, input), input)
  {
    VarintLeaves(input);
  }

  lemma NullableStringLeaves(flexible: bool, input: Bytes)
    ensures Leaves(ReadNullableString(flexible, input), input)
  {
    NullableLengthLeaves(flexible, 2, input);
    var length := ReadNullableLength(flexible, 2, input);
    if length.Ok? && length.value.value.Some? {
      ContentLeaves(Parsed(length.value.value.value, length.value.rest), input);
    }
  }

  lemma RecordsLeave(flexible: bool, input: Bytes)
    ensures Leaves(ReadRecords(flexible, input), input)
  {
    VarintLeaves(input);
    var length := ReadBytesLength(flexible, input);
    if length.Ok? {
      ContentLeaves(length.value, input);
    }
  }

  lemma TagLeaves(input: Bytes)
    ensures Leaves(ReadTag(input), input)
  {
    VarintLeaves(input);
    if Varint.Read(input).Ok? {
      var tag := Varint.Read(input).value;
      VarintLeaves(tag.rest);
      if Varint.Read(tag.rest).Ok? {
        var length := Varint.Read(tag.rest).value;
        SuffixOfSuffix(length.rest, tag.rest, input);
        ContentLeaves(length, input);
      }
    }
  }

  lemma {:induction false} TagListLeaves(count: nat, input: Bytes)
    ensures Leaves(ReadTagList(count, input), input)
  {
    if count > 0 && ReadTagList(count, input).Ok? {
      TagLeaves(input);
      var first := ReadTag(input).value;
      TagListLeaves(count - 1, first.rest);
      SuffixOfSuffix(ReadTagList(count - 1, first.rest).value.rest, first.rest, input);
    }
  }

  lemma TagBufferLeaves(c: Ctx, input: Bytes)
    ensures Leaves(ParseTagBuffer(c, input), input)
  {
    if c.flexible && ReadTags(input).Ok? {
      VarintLeaves(input);
      var count := Varint.Read(input).value;
      TagListLeaves(count.value, count.rest);
      SuffixOfSuffix(ReadTags(input).value.rest, count.rest, input);
    }
  }

  lemma {:induction false} BaseLeaves(c: Ctx, common: set<string>, fm: FieldMeta, input: Bytes)
    ensures Leaves(ParseBase(c, common, fm, input), input)
    decreases fm, 0, 0
  {
    VarintLeaves(input);
    match fm.BaseKind() {
      case StringKind =>
        var length := ReadStringLength(c.flexible, input);
        if length.Ok? { ContentLeaves(length.value, input); }
      case BytesKind =>
        var length := ReadBytesLength(c.flexible, input);
        if length.Ok? { ContentLeaves(length.value, input); }
      case Named(_) =>
        if !IsBlind(c.table, fm) {
          FieldsLeave(c, common, Inner(common, fm), fm.fields, input);
        }
      case _ =>
    }
  }

  lemma {:induction false} ElementsLeave(c: Ctx, common: set<string>, fm: FieldMeta, count: nat, input: Bytes)
    ensures Leaves(ParseElements(c, common, fm, count, input), input)
    decreases fm, 1, count
  {
    if count > 0 && ParseElements(c, common, fm, count, input).Ok? {
      BaseLeaves(c, common, fm, input);
      var first := ParseBase(c, common, fm, input).value;
      ElementsLeave(c, common, fm, count - 1, first.rest);
      SuffixOfSuffix(ParseElements(c, common, fm, count, input).value.rest, first.rest, input);
    }
  }

  lemma {:induction false} FieldLeaves(
    c: Ctx, common: set<string>, parent: Option<VersionRange>, fm: FieldMeta, input: Bytes)
    ensures Leaves(ParseField(c, common, parent, fm, input), input)
    decreases fm, 2, 0
  {
    if IsBare(parent, fm) {
      BaseLeaves(c, common, fm, input);
    } else if !fm.version.Within(c.version) {
    } else if fm.kind.RecordsKind? {
      RecordsLeave(c.flexible, input);
    } else if fm.kind.SequenceOf? {
      var length := ReadNullableLength(c.flexible, 4, input);
      NullableLengthLeaves(c.flexible, 4, input);
      if length.Ok? && length.value.value.Some? {
        var count, rest := length.value.value.value, length.value.rest;
        ElementsLeave(c, common, fm, count, rest);
        LeavesAfter(ParseElements(c, common, fm, count, rest), rest, input);
      }
    } else if fm.kind.StringKind? {
      NullableStringLeaves(c.flexible, input);
    } else if fm.IsNullable(c.version) && fm.IsStructure() {
      if input != [] && input[0] < 128 {
        BaseLeaves(c, common, fm, input[1..]);
        LeavesAfter(ParseBase(c, common, fm, input[1..]), input[1..], input);
      }
    } else {
      BaseLeaves(c, common, fm, input);
    }
  }

  lemma {:induction false} FieldsLeave(
    c: Ctx, common: set<string>, parent: Option<VersionRange>, fields: Fields, input: Bytes)
    ensures Leaves(ParseFields(c, common, parent, fields, input), input)
    decreases fields, 0, 0
  {
    if fields == [] {
      TagBufferLeaves(c, input);
    } else if fields[0].meta.tag.Some? {
      FieldsLeave(c, common, parent, fields[1..], input);
    } else if ParseFields(c, common, parent, fields, input).Ok? {
      FieldLeaves(c, common, parent, fields[0].meta, input);
      var first := ParseField(c, common, parent, fields[0].meta, input).value;
      FieldsLeave(c, common, parent, fields[1..], first.rest);
      SuffixOfSuffix(ParseFields(c, common, parent, fields, input).value.rest, first.rest, input);
    }
  }
}
