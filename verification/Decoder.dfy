/**
 The decoder: a serde deserializer that finds the fields of a struct by the
 struct's type name in a flattened table, and hands a length from one call to the
 next through a register.

 serde drives it with the type it wants, which is an argument here.
 */
module Decoder {
  import opened Base
  import opened Schema
  import opened Types
  import opened Grammar
  import opened Messages
  import opened FrameGrammar
  import opened Machines
  import Utf8
  import Varint

  /** What a call read, against what it should have. */
  predicate Reads<T(==)>(r: Result<T>, reader: Bytes, spec: Result<Parsed<T>>) {
    match spec
    case Ok(p) => r == Ok(p.value) && reader == p.rest
    case Err(e) => r == Err(e)
  }

  /** What is still to be read, after what has been. */
  function After<T>(done: seq<T>, others: Result<Parsed<seq<T>>>): (r: Result<Parsed<seq<T>>>) {
    if others.Ok? then Ok(Parsed(done + others.value.value, others.value.rest)) else others
  }

  lemma AfterStep<T>(done: seq<T>, x: T, others: Result<Parsed<seq<T>>>)
    ensures After(done, After([x], others)) == After(done + [x], others)
  {
    if others.Ok? {
      assert done + ([x] + others.value.value) == done + [x] + others.value.value;
    }
  }

  lemma AfterNothing<T>(others: Result<Parsed<seq<T>>>)
    ensures After([], others) == others
  {
    if others.Ok? {
      assert [] + others.value.value == others.value.value;
    }
  }

  class Decoder {
    var reader: Bytes
    var containers: seq<Container>
    var field: Option<string>
    var kind: Option<FrameKind>
    var apiKey: Option<int>
    var apiVersion: Option<int>
    var message: Option<MessageMeta>
    var structures: Option<Fields>
    var metaField: Option<FieldMeta>
    var parse: seq<Fields>
    var length: Option<nat>
    var inSeqOfPrimitive: bool
    var inRecords: bool

    /** The messages by API key: `RootMessageMeta::requests`. */
    const requests: map<int, MessageMeta>

    // -------------------------------------------------------------------
    // What the state says

    predicate InHeader()
      reads this
    {
      containers != [] && containers[0].name == "HeaderMezzanine"
    }

    predicate IsFlexible()
      reads this
    {
      if InHeader() && ((kind == Some(RequestFrame) && field == Some("client_id"))
                        || (kind == Some(ResponseFrame) && apiKey == Some(API_VERSIONS)))
      then false
      else message.Some? && apiVersion.Some? && message.value.flexible.Within(apiVersion.value)
    }

    /** Unlike the encoder's: with no metadata everything is valid. */
    predicate IsValid()
      reads this
    {
      apiVersion.None? || metaField.None? || metaField.value.version.Within(apiVersion.value)
    }

    predicate IsNullable()
      reads this
    {
      apiVersion.Some? && metaField.Some? && metaField.value.IsNullable(apiVersion.value)
    }

    predicate IsSequence()
      reads this
    {
      metaField.Some? && metaField.value.kind.SequenceOf?
    }

    predicate IsStructure()
      reads this
    {
      metaField.Some? && metaField.value.IsStructure()
    }

    predicate IsRecords()
      reads this
    {
      metaField.Some? && metaField.value.kind.RecordsKind?
    }

    predicate IsString()
      reads this
    {
      (InHeader() && field == Some("client_id")) || (metaField.Some? && metaField.value.kind.StringKind?)
    }

    predicate IsTagBuffer()
      reads this
    {
      field == Some(TAG_BUFFER)
    }

    predicate IsSequenceOfPrimitive()
      reads this
    {
      metaField.Some? && metaField.value.kind.SequenceOf? && metaField.value.kind.element.IsPrimitive()
    }

    // -------------------------------------------------------------------
    // Reading

    method ReadExact(n: nat) returns (r: Result<Bytes>)
      modifies this`reader
      ensures Reads(r, reader, Take(old(reader), n))
    {
      if |reader| < n {
        return Err(Io);
      }
      r := Ok(reader[..n]);
      reader := reader[n..];
    }

    method UnsignedVarint() returns (r: Result<nat>)
      modifies this`reader
      ensures Reads(r, reader, Varint.Read(old(reader)))
    {
      var shift: nat, accumulator: nat, done := 0, 0, false;
      while !done
        invariant shift % 7 == 0
        invariant !done ==> shift <= 35 && Varint.ReadFrom(reader, shift, accumulator) == Varint.Read(old(reader))
        invariant done ==> Varint.Read(old(reader)) == Ok(Parsed(accumulator, reader))
        decreases !done, |reader|
      {
        var b :- ReadExact(1);
        var sum := Varint.Accumulate(accumulator, b[0], shift);
        if sum.Err? {
          return Err(sum.error);
        }
        accumulator := sum.value;
        if b[0] >= Varint.CONTINUATION {
          shift := shift + 7;
        } else {
          done := true;
        }
      }
      r := Ok(accumulator);
    }

    /** A length of a string or byte string that cannot be null, into the register. */
    method ReadMandatoryNonNullableLength() returns (r: Result<()>)
      modifies this`reader, this`length
      ensures InHeader() || (IsNullable() && !inSeqOfPrimitive) || !IsValid() ==>
                r == Ok(()) && length == old(length) && reader == old(reader)
      ensures !(InHeader() || (IsNullable() && !inSeqOfPrimitive) || !IsValid()) ==>
                match (if IsFlexible() then ReadCompact(old(reader))
                       else ReadLength(old(reader), if HasShortLength() then 2 else 4))
                case Ok(p) => r == Ok(()) && length == Some(p.value) && reader == p.rest
                case Err(e) => r == Err(e)
    {
      var nullable := IsNullable() && !inSeqOfPrimitive;
      if InHeader() || nullable || !IsValid() {
        return Ok(());
      }
      if IsFlexible() {
        var n :- UnsignedVarint();
        if n == 0 {
          return Err(Overflow);
        }
        length := Some(n - 1);
      } else if HasShortLength() {
        var b :- ReadExact(2);
        if FromSigned(b) < 0 {
          return Err(TryFromInt);
        }
        length := Some(FromSigned(b));
      } else {
        var b :- ReadExact(4);
        if FromSigned(b) < 0 {
          return Err(TryFromInt);
        }
        length := Some(FromSigned(b));
      }
      r := Ok(());
    }

    predicate HasShortLength()
      reads this
    {
      IsString() || (inSeqOfPrimitive && metaField.Some? && metaField.value.kind.SequenceOf?
                     && metaField.value.kind.element.StringKind?)
    }

    // -------------------------------------------------------------------
    // Values

    /** The fixed-width values. A header's `api_key` and `api_version` are taken note of. */
    method DeserializeScalar(s: Scalar) returns (r: Result<Value>)
      modifies this`reader, this`apiKey, this`apiVersion, this`message, this`structures, this`parse
      ensures Reads(r, reader, ReadScalar(s, old(reader)))
      ensures r.Ok? && s.Int16? && old(Notes("api_key")) ==>
                var n := r.value.n;
                && apiKey == Some(n) && apiVersion == old(apiVersion)
                && message == (if n in requests then Some(requests[n]) else old(message))
                && structures == (if n in requests then Some(Structures(requests[n])) else old(structures))
                && parse == (if n in requests then [requests[n].fields] else []) + old(parse)
      ensures r.Ok? && s.Int16? && old(Notes("api_version")) ==>
                && apiVersion == Some(r.value.n) && apiKey == old(apiKey) && message == old(message)
                && structures == old(structures) && parse == old(parse)
      ensures !s.Int16? || (!old(Notes("api_key")) && !old(Notes("api_version"))) ==>
                && apiKey == old(apiKey) && apiVersion == old(apiVersion) && message == old(message)
                && structures == old(structures) && parse == old(parse)
    {
      var b :- ReadExact(Width(s));
      var v := ScalarFrom(s, b);
      if s.Int16? {
        if Notes("api_key") {
          apiKey := Some(v.n);
          if v.n in requests {
            message := Some(requests[v.n]);
            structures := Some(Structures(requests[v.n]));
            parse := [requests[v.n].fields] + parse;
          }
        } else if Notes("api_version") {
          apiVersion := Some(v.n);
        }
      }
      r := Ok(v);
    }

    predicate Notes(name: string)
      reads this
    {
      containers != [] && containers[0] == Struct("HeaderMezzanine") && field == Some(name)
    }

    /** That many bytes, unless they are more than a message may hold. */
    method ReadBytes(n: nat) returns (r: Result<Bytes>)
      modifies this`reader
      ensures Reads(r, reader, ReadContent(n, old(reader)))
    {
      if n > MESSAGE_MAX_SIZE {
        return Err(MessageMaxSizeExceeded(n));
      }
      r := ReadExact(n);
    }

    /** The length may already be in the register, put there by `DeserializeOption`. */
    method DeserializeString() returns (r: Result<Value>)
      modifies this`reader, this`length
      ensures r.Ok? ==> length == None
      ensures old(length).Some? ==> Reads(r, reader, ReadText(old(length).value, old(reader)))
      ensures old(length).None? && !InHeader() && !(IsNullable() && !inSeqOfPrimitive) && IsValid()
              && (IsFlexible() || HasShortLength()) ==>
                Reads(r, reader, ReadString(IsFlexible(), old(reader)))
      ensures old(length).None? && !IsValid() ==> r == Err(StringWithoutLength)
    {
      if length.None? {
        var _ :- ReadMandatoryNonNullableLength();
      }
      if length.None? {
        return Err(StringWithoutLength);
      }
      var n := length.value;
      length := None;
      var s :- ReadBytes(n);
      r := if Utf8.IsValid(s) then Ok(VString(s)) else Err(NotUtf8);
    }

    method DeserializeByteBuf() returns (r: Result<Value>)
      modifies this`reader
      ensures Reads(r, reader, ReadByteString(IsFlexible(), old(reader)))
    {
      var n: nat;
      if IsFlexible() {
        var compact :- UnsignedVarint();
        if compact == 0 {
          return Err(Overflow);
        }
        n := compact - 1;
      } else {
        var b :- ReadExact(4);
        n := FromBigEndian(b);
      }
      var s :- ReadBytes(n);
      r := Ok(VBytes(s));
    }

    // -------------------------------------------------------------------
    // Record sets and tag buffers

    /** `Batch`: one batch after another off the front of the record set's own bytes. */
    static method DecodeBatches(content: Bytes) returns (r: Result<seq<Batch>>)
      ensures r == ReadBatches(content)
    {
      var encoded: Bytes, batches: seq<Batch> := content, [];
      AfterNothing(Whole(ReadBatches(content)));
      while encoded != []
        invariant Whole(ReadBatches(content)) == After(batches, Whole(ReadBatches(encoded)))
        decreases |encoded|
      {
        var first := ReadBatch(encoded);
        if first.Err? {
          return Err(first.error);
        }
        AfterStep(batches, first.value.value, Whole(ReadBatches(first.value.rest)));
        batches := batches + [first.value.value];
        encoded := first.value.rest;
      }
      assert batches + [] == batches;
      r := Ok(batches);
    }

    method DeserializeTag() returns (r: Result<TagField>)
      modifies this`reader
      ensures Reads(r, reader, ReadTag(old(reader)))
    {
      var tag :- UnsignedVarint();
      var n :- UnsignedVarint();
      if n > MAXIMUM_TAGGED_FIELDS {
        return Err(TooManyTags(n));
      }
      var data :- ReadExact(n);
      r := Ok(TagField(tag, data));
    }

    method DeserializeTags() returns (r: Result<seq<TagField>>)
      modifies this`reader
      ensures Reads(r, reader, ReadTags(old(reader)))
    {
      var count :- UnsignedVarint();
      if count > MAXIMUM_TAGGED_FIELDS {
        return Err(TooManyTags(count));
      }
      r := DeserializeTagList(count);
    }

    method DeserializeTagList(count: nat) returns (r: Result<seq<TagField>>)
      modifies this`reader
      ensures Reads(r, reader, ReadTagList(count, old(reader)))
    {
      var tags: seq<TagField> := [];
      ghost var spec := ReadTagList(count, reader);
      AfterNothing(spec);
      for i := 0 to count
        invariant spec == After(tags, ReadTagList(count - i, reader))
      {
        var tag :- DeserializeTag();
        AfterStep(tags, tag, ReadTagList(count - i - 1, reader));
        tags := tags + [tag];
      }
      assert tags + [] == tags;
      r := Ok(tags);
    }

    // -------------------------------------------------------------------
    // The body of a message

    /** The state that outlives a value. */
    ghost function ScopeOf()
      : (seq<Container>, Option<FrameKind>, Option<int>, Option<int>, Option<MessageMeta>, Option<Fields>, seq<Fields>)
      reads this
    {
      (containers, kind, apiKey, apiVersion, message, structures, parse)
    }

    /** The message, its table and the version are known, and no length is waiting in the register. */
    ghost predicate InMessage(mm: MessageMeta, c: Ctx)
      reads this
    {
      && message == Some(mm) && structures == Some(Structures(mm)) && apiVersion == Some(c.version)
      && c == ContextOf(mm, c.version)
      && length == None && !inRecords && Find(Structures(mm), "Frame") == None
    }

    ghost predicate InBody(mm: MessageMeta, c: Ctx)
      reads this
    {
      InMessage(mm, c) && containers != [] && containers[0].name != "HeaderMezzanine"
    }

    /** Where a value can be read: at its field, or where the field is not needed. */
    ghost predicate AtField(fm: FieldMeta)
      reads this
    {
      metaField == Some(fm) && apiVersion.Some? && fm.version.Within(apiVersion.value)
    }

    /**
     The value of a field, of whatever type the generator gave it: what is read
     is what the grammar says of the field, whatever the bytes are.
     */
    method Deserialize(
      ty: Type, ghost mm: MessageMeta, ghost common: set<string>, ghost parent: Option<VersionRange>, ghost c: Ctx,
      ghost fm: FieldMeta)
      returns (r: Result<Value>)
      requires InBody(mm, c) && field != Some(TAG_BUFFER)
      requires metaField == Some(fm) || (metaField == None && fm.kind.ScalarKind? && IsBare(parent, fm))
      requires !inSeqOfPrimitive && ShapedField(fm) && ResolvedField(mm, common, fm)
      requires ty == FieldType(common, parent, fm)
      modifies this
      ensures r.Ok? ==> InBody(mm, c) && ScopeOf() == old(ScopeOf()) && !inSeqOfPrimitive
      ensures Reads(r, reader, ParseField(c, common, parent, fm, old(reader)))
      decreases ty, 3
    {
      if ty.TOption? {
        r := DeserializeOption(ty.some, mm, common, parent, c, fm);
      } else if ty.TString? {
        r := DeserializeString();
      } else if ty.TRecords? {
        var error := DeserializeLooseRecords(mm, c);
        r := Err(error);
      } else {
        r := DeserializeBase(ty, mm, common, c, fm);
      }
    }

    /**
     A record set that has no `Option` around it: a struct the table does not list,
     holding a sequence whose length nobody has read.
     */
    method DeserializeLooseRecords(ghost mm: MessageMeta, ghost c: Ctx) returns (error: Error)
      requires InBody(mm, c)
      modifies this
      ensures error == LooseBatches(c.flexible, old(reader))
    {
      containers := [Struct("Frame")] + containers;
      parse := [[]] + parse;
      field, metaField := Some("batches"), Find(parse[0], "batches");
      inSeqOfPrimitive := IsSequenceOfPrimitive();
      while true
        invariant IsFlexible() == c.flexible
        invariant LooseBatches(c.flexible, reader) == LooseBatches(c.flexible, old(reader))
        decreases |reader|
      {
        ghost var before := reader;
        var batch := DeserializeByteBuf();
        if batch.Err? {
          return batch.error;
        }
        if !HoldsBatch(batch.value.s) {
          return BadBatch;
        }
        LengthTaken(c.flexible, before);
      }
    }

    method DeserializeOption(
      ty: Type, ghost mm: MessageMeta, ghost common: set<string>, ghost parent: Option<VersionRange>, ghost c: Ctx,
      ghost fm: FieldMeta)
      returns (r: Result<Value>)
      requires InBody(mm, c) && field != Some(TAG_BUFFER)
      requires metaField == Some(fm) && !IsBare(parent, fm)
      requires !inSeqOfPrimitive && ShapedField(fm) && ResolvedField(mm, common, fm) && ty == PresentType(common, fm)
      modifies this
      ensures r.Ok? ==> InBody(mm, c) && ScopeOf() == old(ScopeOf()) && !inSeqOfPrimitive
      ensures Reads(r, reader, ParseField(c, common, parent, fm, old(reader)))
      decreases ty, 2
    {
      if IsValid() {
        if IsRecords() {
          r := DeserializeOptionalRecords();
        } else if IsSequence() {
          r := DeserializeOptionalSequence(ty, mm, common, parent, c, fm);
        } else if IsString() {
          r := DeserializeOptionalString();
        } else if IsNullable() && IsStructure() {
          r := DeserializeOptionalStructure(ty, mm, common, parent, c, fm);
        } else {
          length := None;
          var v :- DeserializeBase(ty, mm, common, c, fm);
          r := Ok(VSome(v));
        }
      } else {
        length := None;
        r := Ok(VNone);
      }
    }

    /** A byte says whether it is there. */
    method DeserializeOptionalStructure(
      ty: Type, ghost mm: MessageMeta, ghost common: set<string>, ghost parent: Option<VersionRange>, ghost c: Ctx,
      ghost fm: FieldMeta)
      returns (r: Result<Value>)
      requires InBody(mm, c) && field != Some(TAG_BUFFER) && AtField(fm) && !IsBare(parent, fm)
      requires fm.IsNullable(c.version) && fm.IsStructure() && !fm.kind.SequenceOf? && !fm.kind.RecordsKind?
      requires !inSeqOfPrimitive && ShapedField(fm) && ResolvedField(mm, common, fm) && ty == PresentType(common, fm)
      modifies this
      ensures r.Ok? ==> InBody(mm, c) && ScopeOf() == old(ScopeOf()) && !inSeqOfPrimitive
      ensures Reads(r, reader, ParseField(c, common, parent, fm, old(reader)))
      decreases ty, 1
    {
      var b :- ReadExact(1);
      if b[0] >= 128 {
        r := Ok(VNone);
      } else {
        length := None;
        var v :- DeserializeBase(ty, mm, common, c, fm);
        r := Ok(VSome(v));
      }
    }

    /**
     A record set: its length goes into the register, the struct around the
     batches is read, and the sequence in it takes that many bytes at once.
     */
    method DeserializeOptionalRecords() returns (r: Result<Value>)
      requires length == None && !inRecords && !inSeqOfPrimitive
      requires message.Some? && structures.Some? && Find(structures.value, "Frame") == None
      modifies this`reader, this`length, this`inRecords, this`inSeqOfPrimitive, this`metaField, this`field
      modifies this`containers, this`parse
      ensures containers == old(containers) && parse == old(parse)
      ensures r.Ok? ==> length == None && !inRecords && !inSeqOfPrimitive
      ensures Reads(r, reader, ReadRecords(old(IsFlexible()), old(reader)))
    {
      var n: nat;
      if IsFlexible() {
        var compact :- UnsignedVarint();
        if compact == 0 {
          return Err(Overflow);
        }
        n := compact - 1;
      } else {
        var b :- ReadExact(4);
        n := FromBigEndian(b);
      }
      if n == 0 {
        return Ok(VNone);
      }
      length := Some(n);
      inRecords := true;
      // `deflated::Frame` is a struct the table does not list, so its one field is read with no metadata.
      containers := [Struct("Frame")] + containers;
      parse := [[]] + parse;
      field, metaField := Some("batches"), Find(parse[0], "batches");
      var batches := DeserializeRecordSeq();
      parse := parse[1..];
      containers := containers[1..];
      r := if batches.Ok? then Ok(VSome(VRecords(batches.value))) else Err(batches.error);
    }

    /** The sequence takes all of its bytes at once and leaves the reader alone. */
    method DeserializeRecordSeq() returns (r: Result<seq<Batch>>)
      requires length.Some? && inRecords
      modifies this`reader, this`length, this`inRecords, this`inSeqOfPrimitive
      ensures r.Ok? ==> length == None && !inRecords && !inSeqOfPrimitive
      ensures Reads(r, reader, ReadBatchesOf(old(length).value, old(reader)))
    {
      inSeqOfPrimitive := IsSequenceOfPrimitive();
      var size := length.value;
      length := None;
      var content :- ReadBytes(size);
      r := DecodeBatches(content);
      inSeqOfPrimitive := false;
      inRecords := false;
    }

    method DeserializeOptionalString() returns (r: Result<Value>)
      requires length == None
      modifies this`reader, this`length
      ensures r.Ok? ==> length == None
      ensures Reads(r, reader, ReadNullableString(IsFlexible(), old(reader)))
    {
      var _ :- ReadNullable(2);
      if length.None? {
        return Ok(VNone);
      }
      var v :- DeserializeString();
      r := Ok(VSome(v));
    }

    /** A length that may be null, into the register. */
    method ReadNullable(width: nat) returns (r: Result<()>)
      modifies this`reader, this`length
      ensures match ReadNullableLength(IsFlexible(), width, old(reader))
              case Ok(p) => r == Ok(()) && length == p.value && reader == p.rest
              case Err(e) => r == Err(e)
    {
      if IsFlexible() {
        var n :- UnsignedVarint();
        length := if n == 0 then None else Some(n - 1);
      } else {
        var b :- ReadExact(width);
        var n := FromSigned(b);
        if n == -1 {
          length := None;
        } else if n < 0 {
          return Err(TryFromInt);
        } else {
          length := Some(n);
        }
      }
      r := Ok(());
    }

    method DeserializeOptionalSequence(
      ty: Type, ghost mm: MessageMeta, ghost common: set<string>, ghost parent: Option<VersionRange>, ghost c: Ctx,
      ghost fm: FieldMeta)
      returns (r: Result<Value>)
      requires InBody(mm, c) && AtField(fm) && fm.kind.SequenceOf?
      requires !inSeqOfPrimitive && ShapedField(fm) && ResolvedField(mm, common, fm) && ty == PresentType(common, fm)
      modifies this
      ensures r.Ok? ==> InBody(mm, c) && ScopeOf() == old(ScopeOf()) && !inSeqOfPrimitive
      ensures Reads(r, reader, ParseField(c, common, parent, fm, old(reader)))
      decreases ty, 1
    {
      var _ :- ReadNullable(4);
      if length.None? {
        return Ok(VNone);
      }
      var v :- DeserializeSeq(ty.element, mm, common, c, fm);
      r := Ok(VSome(VVec(v)));
    }

    /** As many elements as the register said. */
    method DeserializeSeq(
      ty: Type, ghost mm: MessageMeta, ghost common: set<string>, ghost c: Ctx, ghost fm: FieldMeta)
      returns (r: Result<seq<Value>>)
      requires length.Some? && message == Some(mm) && structures == Some(Structures(mm))
      requires apiVersion == Some(c.version)
      requires c == ContextOf(mm, c.version) && !inRecords && Find(Structures(mm), "Frame") == None
      requires containers != [] && containers[0].name != "HeaderMezzanine"
      requires AtField(fm) && fm.kind.SequenceOf?
      requires ShapedField(fm) && ResolvedField(mm, common, fm) && ty == BaseType(common, fm)
      modifies this
      ensures r.Ok? ==> InBody(mm, c) && ScopeOf() == old(ScopeOf()) && !inSeqOfPrimitive
      ensures Reads(r, reader, ParseElements(c, common, fm, old(length).value, old(reader)))
      decreases ty, 1
    {
      inSeqOfPrimitive := IsSequenceOfPrimitive();
      var count := length.value;
      length := None;
      var elements: seq<Value> := [];
      ghost var spec := ParseElements(c, common, fm, count, reader);
      AfterNothing(spec);
      for i := 0 to count
        invariant InBody(mm, c) && ScopeOf() == old(ScopeOf())
        invariant metaField == Some(fm) || fm.BaseKind().Named?
        invariant inSeqOfPrimitive == !fm.BaseKind().Named?
        invariant spec == After(elements, ParseElements(c, common, fm, count - i, reader))
      {
        var v :- DeserializeBase(ty, mm, common, c, fm);
        AfterStep(elements, v, ParseElements(c, common, fm, count - i - 1, reader));
        elements := elements + [v];
      }
      inSeqOfPrimitive := false;
      assert elements + [] == elements;
      r := Ok(elements);
    }

    /** A value that is there. Only a string looks at the field, and only a struct leaves another behind. */
    method DeserializeBase(
      ty: Type, ghost mm: MessageMeta, ghost common: set<string>, ghost c: Ctx, ghost fm: FieldMeta)
      returns (r: Result<Value>)
      requires InBody(mm, c) && (fm.BaseKind().StringKind? ==> fm.version.Within(c.version))
      requires metaField == Some(fm) || fm.BaseKind().Named? || fm.kind.ScalarKind?
      requires inSeqOfPrimitive == (fm.kind.SequenceOf? && !fm.BaseKind().Named?)
      requires fm.kind.StringKind? ==> !fm.IsNullable(c.version)
      requires ShapedField(fm) && ResolvedField(mm, common, fm) && !fm.kind.RecordsKind? && ty == BaseType(common, fm)
      modifies this
      ensures r.Ok? ==> InBody(mm, c) && ScopeOf() == old(ScopeOf()) && inSeqOfPrimitive == old(inSeqOfPrimitive)
      ensures r.Ok? && !fm.BaseKind().Named? ==> metaField == old(metaField)
      ensures Reads(r, reader, ParseBase(c, common, fm, old(reader)))
      decreases ty, 0
    {
      match ty {
        case TScalar(s) =>
          r := DeserializeScalar(s);
        case TString =>
          r := DeserializeString();
        case TBytes =>
          r := DeserializeByteBuf();
        case TStruct(name, types) =>
          r := DeserializeNamed(name, types, mm, common, c, fm);
      }
    }

    method DeserializeNamed(
      name: string, types: seq<TypedField>, ghost mm: MessageMeta, ghost common: set<string>, ghost c: Ctx,
      ghost fm: FieldMeta)
      returns (r: Result<Value>)
      requires InBody(mm, c) && !inSeqOfPrimitive && fm.BaseKind() == Named(name)
      requires ShapedField(fm) && ResolvedField(mm, common, fm)
      requires types == FieldTypes(common, Inner(common, fm), fm.fields)
      modifies this
      ensures r.Ok? ==> InBody(mm, c) && ScopeOf() == old(ScopeOf()) && !inSeqOfPrimitive
      ensures Reads(r, reader, ParseBase(c, common, fm, old(reader)))
      decreases types, 3
    {
      var v :- DeserializeStruct(name, types, mm, common, Inner(common, fm), c, fm.fields);
      r := Ok(VStruct(name, v));
    }

    /** How a struct's fields are found: by its type name in the table, or not at all. */
    ghost predicate FindsFields(
      mm: MessageMeta, name: string, parent: Option<VersionRange>, fields: Fields)
    {
      match Find(Structures(mm), name)
      case Some(found) => found.fields == fields
      case None => if IsMessageName(name) then fields == mm.fields else IsFlat(parent, fields)
    }

    /** A structure with no metadata that starts with a sequence. */
    ghost predicate BlindTo(mm: MessageMeta, name: string, fields: Fields) {
      Find(Structures(mm), name) == None && !IsMessageName(name) && StartsWithSequence(fields)
    }

    method DeserializeStruct(
      name: string, types: seq<TypedField>, ghost mm: MessageMeta, ghost common: set<string>,
      ghost parent: Option<VersionRange>, ghost c: Ctx, ghost fields: Fields)
      returns (r: Result<seq<NamedValue>>)
      requires InMessage(mm, c) && !inSeqOfPrimitive
      requires ShapedFields(fields) && ResolvedFields(mm, common, fields) && name != "HeaderMezzanine"
      requires FindsFields(mm, name, parent, fields) || BlindTo(mm, name, fields)
      requires types == FieldTypes(common, parent, fields)
      modifies this
      ensures r.Ok? ==> InMessage(mm, c) && ScopeOf() == old(ScopeOf()) && !inSeqOfPrimitive
      ensures BlindTo(mm, name, fields) ==> r == Err(WithoutEnd(c, common, fields[0].meta, old(reader)))
      ensures !BlindTo(mm, name, fields) ==> Reads(r, reader, ParseFields(c, common, parent, fields, old(reader)))
      decreases types, 2
    {
      var found := EnterStruct(name);
      FirstType(common, parent, fields);
      if found.None? && !IsMessageName(name) && IsOptionalSequence(types[0].ty) {
        var error := DeserializeUnlisted(types, mm, common, c, fields[0].meta);
        return Err(error);
      }
      assert fields[0..] == fields;
      r := DeserializeFields(types, mm, common, parent, c, fields, 0);
      if r.Ok? {
        parse := parse[1..];
        containers := containers[1..];
        if found.Some? {
          metaField := None;
        }
      }
    }

    /** Onto the stack go the fields that the table has for the type, or the message's, or none. */
    method EnterStruct(name: string) returns (found: Option<FieldMeta>)
      requires structures.Some? && message.Some?
      modifies this`containers, this`metaField, this`parse
      ensures containers == [Struct(name)] + old(containers) && found == Find(structures.value, name)
      ensures parse == [if found.Some? then found.value.fields
                        else if IsMessageName(name) then message.value.fields else []] + old(parse)
    {
      containers := [Struct(name)] + containers;
      found := Find(structures.value, name);
      if found.Some? {
        metaField := found;
        parse := [found.value.fields] + parse;
      } else if IsMessageName(name) {
        parse := [message.value.fields] + parse;
      } else {
        metaField := None;
        parse := [[]] + parse;
      }
    }

    /** The fields of a struct from the `k`th on, tag buffer included. */
    method DeserializeFields(
      types: seq<TypedField>, ghost mm: MessageMeta, ghost common: set<string>,
      ghost parent: Option<VersionRange>, ghost c: Ctx, ghost fields: Fields, ghost k: nat)
      returns (r: Result<seq<NamedValue>>)
      requires InBody(mm, c) && !inSeqOfPrimitive
      requires ShapedFields(fields) && ResolvedFields(mm, common, fields)
      requires parse != [] && (parse[0] == fields || (parse[0] == [] && IsFlat(parent, fields)))
      requires k <= |fields| && types == FieldTypes(common, parent, fields[k..])
      modifies this
      ensures r.Ok? ==> InBody(mm, c) && ScopeOf() == old(ScopeOf()) && !inSeqOfPrimitive
      ensures Reads(r, reader, ParseFields(c, common, parent, fields[k..], old(reader)))
      decreases types, 1
    {
      ghost var next := NextUntagged(fields, k);
      TypesSkipTagged(common, parent, fields, k);
      ParseSkipsTagged(c, common, parent, fields, k, reader);
      if |types| == 1 {
        assert fields[next..] == [];
        FindAbsent(parse[0], TAG_BUFFER);
        field := Some(types[0].name);
        metaField := Find(parse[0], types[0].name);
        var v :- DeserializeTagBuffer();
        r := Ok([NamedValue(types[0].name, v)]);
      } else {
        r := DeserializeNext(types, mm, common, parent, c, fields, next);
      }
    }

    /** The `k`th field of a struct, which has no tag, and the ones after it. */
    method DeserializeNext(
      types: seq<TypedField>, ghost mm: MessageMeta, ghost common: set<string>,
      ghost parent: Option<VersionRange>, ghost c: Ctx, ghost fields: Fields, ghost k: nat)
      returns (r: Result<seq<NamedValue>>)
      requires InBody(mm, c) && !inSeqOfPrimitive
      requires ShapedFields(fields) && ResolvedFields(mm, common, fields)
      requires parse != [] && (parse[0] == fields || (parse[0] == [] && IsFlat(parent, fields)))
      requires k < |fields| && fields[k].meta.tag.None? && types == FieldTypes(common, parent, fields[k..])
      modifies this
      ensures r.Ok? ==> InBody(mm, c) && ScopeOf() == old(ScopeOf()) && !inSeqOfPrimitive
      ensures Reads(r, reader, ParseFields(c, common, parent, fields[k..], old(reader)))
      decreases types, 0
    {
      assert fields[k..][0] == fields[k] && fields[k..][1..] == fields[k + 1..];
      var v :- DeserializeField(types[0].name, types[0].ty, mm, common, parent, c, fields, k);
      var vs :- DeserializeFields(types[1..], mm, common, parent, c, fields, k + 1);
      r := Ok([NamedValue(types[0].name, v)] + vs);
    }

    /** One field: the list on the stack says what it is, if it says anything. */
    method DeserializeField(
      name: string, ty: Type, ghost mm: MessageMeta, ghost common: set<string>, ghost parent: Option<VersionRange>,
      ghost c: Ctx, ghost fields: Fields, ghost k: nat)
      returns (r: Result<Value>)
      requires InBody(mm, c) && !inSeqOfPrimitive
      requires ShapedFields(fields) && ResolvedFields(mm, common, fields)
      requires parse != [] && (parse[0] == fields || (parse[0] == [] && IsFlat(parent, fields)))
      requires k < |fields| && fields[k].meta.tag.None? && name == fields[k].name
      requires ty == FieldType(common, parent, fields[k].meta)
      modifies this
      ensures r.Ok? ==> InBody(mm, c) && ScopeOf() == old(ScopeOf()) && !inSeqOfPrimitive
      ensures Reads(r, reader, ParseField(c, common, parent, fields[k].meta, old(reader)))
      decreases ty, 4
    {
      FindAt(fields, k);
      field := Some(name);
      metaField := Find(parse[0], name);
      r := Deserialize(ty, mm, common, parent, c, fields[k].meta);
    }

    /** Elements with no count of them: nothing but an error ends them. */
    method DeserializeEndless(
      ty: Type, ghost mm: MessageMeta, ghost common: set<string>, ghost c: Ctx, ghost fm: FieldMeta)
      returns (error: Error)
      requires InBody(mm, c) && !inSeqOfPrimitive && fm.kind.SequenceOf? && fm.BaseKind().Named?
      requires ShapedField(fm) && ResolvedField(mm, common, fm) && ty == BaseType(common, fm)
      modifies this
      ensures error == WithoutEnd(c, common, fm, old(reader))
      decreases ty, 1
    {
      while true
        invariant InBody(mm, c) && !inSeqOfPrimitive
        invariant WithoutEnd(c, common, fm, reader) == WithoutEnd(c, common, fm, old(reader))
        decreases |reader|
      {
        var before := |reader|;
        var v := DeserializeBase(ty, mm, common, c, fm);
        if v.Err? {
          return v.error;
        }
        // An element of no bytes would be read for ever.
        if |reader| >= before {
          return Endless;
        }
      }
    }

    /**
     A structure that is not in the table and starts with a sequence: no metadata
     is found for the sequence, so its length is not read, and no bytes decode.
     */
    method DeserializeUnlisted(
      types: seq<TypedField>, ghost mm: MessageMeta, ghost common: set<string>, ghost c: Ctx, ghost fm: FieldMeta)
      returns (error: Error)
      requires InBody(mm, c) && !inSeqOfPrimitive && parse != [] && parse[0] == []
      requires fm.kind.SequenceOf? && fm.BaseKind().Named? && ShapedField(fm) && ResolvedField(mm, common, fm)
      requires types != [] && types[0].name != TAG_BUFFER && types[0].ty == TOption(PresentType(common, fm))
      modifies this
      ensures error == WithoutEnd(c, common, fm, old(reader))
      decreases types, 1
    {
      field, metaField := Some(types[0].name), Find(parse[0], types[0].name);
      assert IsValid() && !IsRecords() && !IsSequence() && !IsString() && !IsNullable();
      length := None;
      inSeqOfPrimitive := IsSequenceOfPrimitive();
      error := DeserializeEndless(types[0].ty.some.element, mm, common, c, fm);
    }

    /** `DeserializeOption` at the one field that has no metadata. */
    method DeserializeTagBuffer() returns (r: Result<Value>)
      requires length == None && field == Some(TAG_BUFFER) && metaField == None
      modifies this`reader
      ensures Reads(r, reader, ParseTagBuffer(Ctx(0, IsFlexible(), []), old(reader)))
    {
      if IsFlexible() {
        var tags :- DeserializeTags();
        r := Ok(VSome(VTags(tags)));
      } else {
        r := Ok(VNone);
      }
    }

    // -------------------------------------------------------------------
    // The header and the frame

    /** `Decoder::request`. */
    constructor ForRequest(input: Bytes, messages: map<int, MessageMeta>)
      ensures reader == input && requests == messages && AtStart() && kind == Some(RequestFrame) && message == None
      ensures structures == None && parse == []
    {
      reader, containers, field, kind := input, [], None, Some(RequestFrame);
      apiKey, apiVersion, message, structures, metaField, parse := None, None, None, None, None, [];
      length, inSeqOfPrimitive, inRecords := None, false, false;
      requests := messages;
    }

    /** `Decoder::response`, for a message that is known. */
    constructor ForResponse(input: Bytes, responses: map<int, MessageMeta>, key: int, version: int)
      ensures reader == input && AtStart() && kind == Some(ResponseFrame) && requests == map[]
      ensures AnswersKey(responses, key, version) && parse == if key in responses then [responses[key].fields] else []
    {
      reader, containers, field, kind := input, [], None, Some(ResponseFrame);
      apiKey, apiVersion, message := Some(key), Some(version), MessageOf(responses, key);
      structures := if key in responses then Some(Structures(responses[key])) else None;
      metaField, parse := None, if key in responses then [responses[key].fields] else [];
      length, inSeqOfPrimitive, inRecords := None, false, false;
      requests := map[];
    }

    /** What is read is an answer to a request with this key and version. */
    ghost predicate AnswersKey(responses: map<int, MessageMeta>, key: int, version: int)
      reads this
    {
      && apiKey == Some(key) && apiVersion == Some(version) && message == MessageOf(responses, key)
      && structures == if key in responses then Some(Structures(responses[key])) else None
    }

    ghost predicate AtStart()
      reads this
    {
      containers == [] && metaField == None && length == None && !inSeqOfPrimitive && !inRecords
    }

    /** `Struct::next_element_seed`: the list on top of the stack, if there is one, says what the field is. */
    method NextField(name: string)
      modifies this`field, this`metaField
      ensures field == Some(name) && metaField == if parse == [] then old(metaField) else Find(parse[0], name)
    {
      field := Some(name);
      if parse != [] {
        metaField := Find(parse[0], name);
      }
    }

    /** In the header: the fields on top of the stack, if any, are not named like the header's. */
    ghost predicate InHeaderOf(frame: FrameKind)
      reads this
    {
      && containers != [] && containers[0] == Struct("HeaderMezzanine") && kind == Some(frame)
      && metaField == None && length == None && !inSeqOfPrimitive && !inRecords
      && (parse != [] ==> Unreserved(parse[0]))
    }

    /** A number in the header. */
    method DeserializeNumber(name: string, s: Scalar, ghost frame: FrameKind) returns (r: Result<int>)
      requires InHeaderOf(frame) && name in RESERVED && (s.Int16? || s.Int32?)
      requires forall key :: key in requests ==> Unreserved(requests[key].fields)
      requires name != "api_key" && name != "api_version" ==> s.Int32?
      modifies this`reader, this`apiKey, this`apiVersion, this`message, this`structures, this`parse
      modifies this`field, this`metaField
      ensures Reads(r, reader, ReadInt(s, old(reader)))
      ensures r.Ok? ==> InHeaderOf(frame)
      ensures s.Int32? ==> apiKey == old(apiKey) && apiVersion == old(apiVersion) && message == old(message)
                           && structures == old(structures) && parse == old(parse)
      ensures r.Ok? && s.Int16? && name == "api_key" ==>
                && apiKey == Some(r.value) && apiVersion == old(apiVersion)
                && message == (if r.value in requests then Some(requests[r.value]) else old(message))
                && structures == (if r.value in requests then Some(Structures(requests[r.value])) else old(structures))
      ensures r.Ok? && s.Int16? && name == "api_version" ==>
                && apiVersion == Some(r.value) && apiKey == old(apiKey) && message == old(message)
                && structures == old(structures) && parse == old(parse)
    {
      NextField(name);
      if parse != [] {
        FindAbsent(parse[0], name);
      }
      var v :- DeserializeScalar(s);
      r := Ok(v.n);
    }

    /** The client id, in the short form whatever the version. */
    method DeserializeClientId() returns (r: Result<Option<Bytes>>)
      requires InHeaderOf(RequestFrame)
      modifies this`reader, this`length, this`field, this`metaField
      ensures Reads(r, reader, ReadClientId(old(reader)))
      ensures r.Ok? ==> InHeaderOf(RequestFrame)
    {
      NextField("client_id");
      if parse != [] {
        FindAbsent(parse[0], "client_id");
      }
      var v :- DeserializeOptionalString();
      r := Ok(if v.VNone? then None else Some(v.some.s));
    }

    method DeserializeHeaderTags(ghost frame: FrameKind) returns (r: Result<()>)
      requires InHeaderOf(frame)
      modifies this`reader, this`field, this`metaField
      ensures match SkipTags(old(FlexibleTags()), old(reader))
              case Ok(rest) => r == Ok(()) && reader == rest
              case Err(e) => r == Err(e)
      ensures metaField == None
    {
      NextField(TAG_BUFFER);
      if parse != [] {
        FindAbsent(parse[0], TAG_BUFFER);
      }
      var _ :- DeserializeTagBuffer();
      r := Ok(());
    }

    /** Whether the header ends with a tag buffer. */
    ghost predicate FlexibleTags()
      reads this
    {
      && !(kind == Some(ResponseFrame) && apiKey == Some(API_VERSIONS))
      && message.Some? && apiVersion.Some? && message.value.flexible.Within(apiVersion.value)
    }

    /** The numbers of a request's header: from the first on, the message is known. */
    method DeserializeRequestNumbers() returns (r: Result<(int, int, int)>)
      requires InHeaderOf(RequestFrame) && message == None && structures == None && parse == []
      requires forall key :: key in requests ==> Unreserved(requests[key].fields)
      modifies this`reader, this`apiKey, this`apiVersion, this`message, this`structures, this`parse
      modifies this`field, this`metaField
      ensures Reads(r, reader, ReadNumbers(old(reader)))
      ensures r.Ok? ==>
                && InHeaderOf(RequestFrame)
                && apiKey == Some(r.value.0) && apiVersion == Some(r.value.1)
                && message == (if r.value.0 in requests then Some(requests[r.value.0]) else None)
                && structures == (if r.value.0 in requests then Some(Structures(requests[r.value.0])) else None)
    {
      var key :- DeserializeNumber("api_key", Int16, RequestFrame);
      var version :- DeserializeNumber("api_version", Int16, RequestFrame);
      var correlation :- DeserializeNumber("correlation_id", Int32, RequestFrame);
      r := Ok((key, version, correlation));
    }

    /** `HeaderMezzanine::Request`. */
    method DeserializeRequestHeader() returns (r: Result<Header>)
      requires InHeaderOf(RequestFrame) && message == None && structures == None && parse == []
      requires forall key :: key in requests ==> Unreserved(requests[key].fields)
      modifies this
      ensures Reads(r, reader, ParseRequestHeader(requests, old(reader)))
      ensures r.Ok? ==>
                && r.value.Request? && containers == old(containers) && kind == old(kind)
                && metaField == None && length == None && !inSeqOfPrimitive && !inRecords
                && apiKey == Some(r.value.apiKey) && apiVersion == Some(r.value.apiVersion)
                && message == (if r.value.apiKey in requests then Some(requests[r.value.apiKey]) else None)
                && structures
                   == (if r.value.apiKey in requests then Some(Structures(requests[r.value.apiKey])) else None)
    {
      var numbers :- DeserializeRequestNumbers();
      var client :- DeserializeClientIdAndTags();
      r := Ok(Request(numbers.0, numbers.1, numbers.2, client));
    }

    method DeserializeClientIdAndTags() returns (r: Result<Option<Bytes>>)
      requires InHeaderOf(RequestFrame)
      modifies this`reader, this`length, this`field, this`metaField
      ensures Reads(r, reader, ReadClientIdAndTags(old(FlexibleTags()), old(reader)))
      ensures r.Ok? ==> metaField == None && length == None
    {
      var client :- DeserializeClientId();
      var _ :- DeserializeHeaderTags(RequestFrame);
      r := Ok(client);
    }

    method DeserializeResponseHeader(ghost responses: map<int, MessageMeta>, ghost key: int, ghost version: int)
      returns (r: Result<Header>)
      requires InHeaderOf(ResponseFrame) && AnswersKey(responses, key, version)
      requires forall key :: key in requests ==> Unreserved(requests[key].fields)
      modifies this
      ensures Reads(r, reader, ParseResponseHeader(responses, key, version, old(reader)))
      ensures r.Ok? ==>
                && metaField == None && length == None && !inSeqOfPrimitive && !inRecords
                && ScopeOf() == old(ScopeOf())
    {
      var correlation :- DeserializeNumber("correlation_id", Int32, ResponseFrame);
      var _ :- DeserializeHeaderTags(ResponseFrame);
      r := Ok(Response(correlation));
    }

    /** The size in front of the frame; nothing is done with it here. */
    method DeserializeSize() returns (r: Result<int>)
      requires containers == [Struct("Frame")] && (parse != [] ==> Unreserved(parse[0])) && metaField == None
      modifies this
      ensures Reads(r, reader, ReadInt(Int32, old(reader)))
      ensures ScopeOf() == old(ScopeOf()) && metaField == None
      ensures length == old(length) && inSeqOfPrimitive == old(inSeqOfPrimitive) && inRecords == old(inRecords)
    {
      NextField("size");
      if parse != [] {
        FindAbsent(parse[0], "size");
      }
      var v :- DeserializeScalar(Int32);
      r := Ok(v.n);
    }

    /** The body: which message it is comes from the metadata, and there may be none. */
    method DeserializeBody(commons: map<int, set<string>>) returns (r: Result<Value>)
      requires message.Some? ==>
                 && structures == Some(Structures(message.value))
                 && apiKey == Some(message.value.apiKey) && apiVersion.Some?
                 && WellFormed(message.value, CommonOf(commons, message.value.apiKey))
      requires length == None && !inSeqOfPrimitive && !inRecords
      modifies this
      ensures old(message).None? ==> r == Err(UnknownContainer)
      ensures old(message).Some? ==>
                var mm := old(message).value;
                Reads(r, reader, ParseMessage(mm, CommonOf(commons, mm.apiKey), old(apiVersion).value, old(reader)))
    {
      if message.None? {
        return Err(UnknownContainer);
      }
      var mm := message.value;
      var common := CommonOf(commons, mm.apiKey);
      containers := [Enum("Body")] + containers;
      var fields :- DeserializeStruct(mm.name, FieldTypes(common, None, mm.fields), mm, common, None,
                                      ContextOf(mm, apiVersion.value), mm.fields);
      containers := containers[1..];
      r := Ok(VStruct(mm.name, fields));
    }

    /** The messages a decoder can be given. */
    ghost predicate KnowsMessages(commons: map<int, set<string>>) {
      forall key :: key in requests ==> requests[key].apiKey == key && WellFormed(requests[key], CommonOf(commons, key))
    }

    /** A request: whatever the bytes are, they are read as the grammar says. */
    method DeserializeRequestFrame(commons: map<int, set<string>>) returns (r: Result<Frame>)
      requires AtStart() && kind == Some(RequestFrame) && message == None && structures == None && parse == []
      requires KnowsMessages(commons)
      modifies this
      ensures Reads(r, reader, ParseRequestFrame(requests, commons, old(reader)))
    {
      MessagesAreUnreserved(commons);
      var start :- DeserializeSizeAndHeader();
      field := Some("body");
      var body :- DeserializeBody(commons);
      r := Ok(Frame(start.0, start.1, body));
    }

    lemma MessagesAreUnreserved(commons: map<int, set<string>>)
      requires KnowsMessages(commons)
      ensures forall key :: key in requests ==> Unreserved(requests[key].fields)
    {
    }

    method DeserializeSizeAndHeader() returns (r: Result<(int, Header)>)
      requires AtStart() && kind == Some(RequestFrame) && message == None && structures == None && parse == []
      requires forall key :: key in requests ==> Unreserved(requests[key].fields)
      modifies this
      ensures Reads(r, reader, ReadSizeAndHeader(requests, old(reader)))
      ensures r.Ok? ==>
                && r.value.1.Request? && length == None && !inSeqOfPrimitive && !inRecords
                && apiKey == Some(r.value.1.apiKey) && apiVersion == Some(r.value.1.apiVersion)
                && message == (if r.value.1.apiKey in requests then Some(requests[r.value.1.apiKey]) else None)
                && structures
                   == (if r.value.1.apiKey in requests then Some(Structures(requests[r.value.1.apiKey])) else None)
    {
      containers := [Struct("Frame")];
      var size :- DeserializeSize();
      field := Some("header");
      containers := [Struct("HeaderMezzanine"), Enum("HeaderMezzanine")] + containers;
      var header :- DeserializeRequestHeader();
      containers := containers[2..];
      r := Ok((size, header));
    }

    method DeserializeResponseFrame(
      commons: map<int, set<string>>, ghost responses: map<int, MessageMeta>, ghost key: int, ghost version: int)
      returns (r: Result<Frame>)
      requires AtStart() && kind == Some(ResponseFrame) && AnswersKey(responses, key, version) && requests == map[]
      requires message == None ==> parse == []
      requires key in responses ==> responses[key].apiKey == key && WellFormed(responses[key], CommonOf(commons, key))
      modifies this
      ensures Reads(r, reader, ParseResponseFrame(responses, commons, key, version, old(reader)))
    {
      var start :- DeserializeResponseStart(responses, key, version);
      field := Some("body");
      var body :- DeserializeBody(commons);
      r := Ok(Frame(start.0, start.1, body));
    }

    /** With a message the stack has a list of no fields on it for each of the two structs, and without one nothing. */
    method DeserializeResponseStart(ghost responses: map<int, MessageMeta>, ghost key: int, ghost version: int)
      returns (r: Result<(int, Header)>)
      requires AtStart() && kind == Some(ResponseFrame) && AnswersKey(responses, key, version) && requests == map[]
      requires message == None ==> parse == []
      modifies this
      ensures Reads(r, reader, ReadSizeAndResponseHeader(responses, key, version, old(reader)))
      ensures r.Ok? ==> AnswersKey(responses, key, version) && length == None && !inSeqOfPrimitive && !inRecords
    {
      containers, parse := [Struct("Frame")], if message.Some? then [[]] + parse else parse;
      var size :- DeserializeSize();
      field := Some("header");
      containers := [Struct("HeaderMezzanine"), Enum("HeaderMezzanine")] + containers;
      parse := if message.Some? then [[]] + parse else parse;
      var header :- DeserializeResponseHeader(responses, key, version);
      containers, parse := containers[2..], if message.Some? then parse[1..] else parse;
      r := Ok((size, header));
    }
  }

  /** No field is named like one of the header's, or the tag buffer. */
  predicate Unreserved(fields: Fields) {
    forall i :: 0 <= i < |fields| ==> fields[i].name !in RESERVED && fields[i].name != TAG_BUFFER
  }

  lemma {:induction false} ParseSkipsTagged(
    c: Ctx, common: set<string>, parent: Option<VersionRange>, fields: Fields, k: nat, input: Bytes)
    requires k <= |fields|
    ensures ParseFields(c, common, parent, fields[k..], input)
            == ParseFields(c, common, parent, fields[NextUntagged(fields, k)..], input)
    decreases |fields| - k
  {
    if k < |fields| && fields[k].meta.tag.Some? {
      assert fields[k..][0] == fields[k] && fields[k..][1..] == fields[k + 1..];
      ParseSkipsTagged(c, common, parent, fields, k + 1, input);
    }
  }

  predicate IsOptionalSequence(ty: Type) {
    ty.TOption? && ty.some.TVec?
  }

  lemma {:induction false} FirstType(common: set<string>, parent: Option<VersionRange>, fields: Fields)
    ensures var types := FieldTypes(common, parent, fields);
            && types != []
            && (IsFlat(parent, fields) ==> !IsOptionalSequence(types[0].ty))
            && (StartsWithSequence(fields) ==>
                  types[0] == TypedField(fields[0].name, TOption(PresentType(common, fields[0].meta))))
    decreases |fields|
  {
    if fields != [] {
      var fm := fields[0].meta;
      if fm.tag.Some? {
        FirstType(common, parent, fields[1..]);
        assert forall i :: 0 <= i < |fields| - 1 ==> fields[1..][i] == fields[i + 1];
      } else if IsFlat(parent, fields) {
        assert fm.kind.ScalarKind? && FieldType(common, parent, fm) == BaseType(common, fm);
      }
    }
  }

  /** A byte string is read after a length, which takes at least a byte. */
  lemma LengthTaken(flexible: bool, input: Bytes)
    ensures ReadByteString(flexible, input).Ok? ==> |ReadByteString(flexible, input).value.rest| < |input|
  {
    Varint.ReadFromBounds(input, 0, 0);
  }

  function ReadBatchesOf(size: nat, input: Bytes): (r: Result<Parsed<seq<Batch>>>) {
    var content :- ReadContent(size, input);
    var batches :- ReadBatches(content.value);
    Ok(Parsed(batches, content.rest))
  }

  /** A record set has nothing after it. */
  function Whole<T>(r: Result<seq<T>>): (w: Result<Parsed<seq<T>>>) {
    if r.Ok? then Ok(Parsed(r.value, [])) else Err(r.error)
  }
}
