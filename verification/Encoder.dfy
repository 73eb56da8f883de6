/**
 The encoder: a serde serializer that finds a field's metadata by descending a
 stack of field lists, falling back to the fields of the message.

 serde drives it with typed values, so the type of a value is an argument here.
 */
module Encoder {
  import opened Base
  import opened Schema
  import opened Types
  import opened Grammar
  import opened RoundTrip
  import opened Messages
  import opened FrameGrammar
  import opened Buffers
  import opened Machines
  import Varint

  /** What a call wrote, against what it should have. */
  predicate Wrote(before: Bytes, after: Bytes, r: Result<()>, spec: Result<Bytes>) {
    match spec
    case Ok(b) => r == Ok(()) && after == before + b
    case Err(e) => r == Err(e)
  }

  function Prefixed(prefix: Result<Bytes>, body: Bytes): (r: Result<Bytes>) {
    var p :- prefix;
    Ok(p + body)
  }

  /** What is still to be written, after what has been. */
  function Following(done: Bytes, others: Result<Bytes>): (r: Result<Bytes>) {
    if others.Ok? then Ok(done + others.value) else others
  }

  lemma FollowingStep(done: Bytes, b: Bytes, others: Result<Bytes>)
    ensures Following(done, Following(b, others)) == Following(done + b, others)
  {
    if others.Ok? {
      Associate(done, b, others.value);
    }
  }

  /** Two writes, one after the other. */
  lemma TwoWrites(before: Bytes, b: Bytes, after: Bytes, r: Result<()>, others: Result<Bytes>)
    requires Wrote(before + b, after, r, others)
    ensures Wrote(before, after, r, Following(b, others))
  {
    if others.Ok? {
      Associate(before, b, others.value);
    }
  }

  lemma FollowingNothing(others: Result<Bytes>)
    ensures Following([], others) == others
  {
    if others.Ok? {
      assert [] + others.value == others.value;
    }
  }

  /** The values that need no metadata: header fields and tag buffers. */
  predicate IsPlain(ty: Type) {
    ty.TScalar? || ty.TTags? || ty == TOption(TTags) || ty == TOption(TString)
  }

  /** What they are written as. */
  function WirePlain(v: Value, ty: Type, clientId: bool, skipped: bool): (r: Result<Bytes>)
    requires HasType(v, ty) && IsPlain(ty)
  {
    match ty
    case TScalar(s) => Ok(WireScalar(s, v))
    case TTags => WireTags(v.tags)
    case TOption(t) =>
      if v.VNone? then Ok(if clientId then [255, 255] else [])
      else if skipped then Ok([])
      else
        assert HasType(v.some, t);
        if t.TTags? then WireTags(v.some.tags)
        else if clientId then Prefixed(StringPrefix(false, |v.some.s|), v.some.s)
        else Ok([])
  }

  /** A field of a message that the encoder can write. */
  predicate WritesField(mm: MessageMeta, fm: FieldMeta) {
    ShapedField(fm) && ApartField(Apart(mm.fields), fm)
  }

  predicate WritesFields(mm: MessageMeta, fields: Fields) {
    ShapedFields(fields) && ApartFields(Apart(mm.fields), fields)
  }

  class Encoder {
    var working: BytesMut
    var containers: seq<Container>
    var field: Option<string>
    var kind: Option<FrameKind>
    var apiKey: Option<int>
    var apiVersion: Option<int>
    var message: Option<MessageMeta>
    var metaField: Option<FieldMeta>
    var parse: seq<Fields>

    /** The messages by API key: `RootMessageMeta::requests`. */
    const requests: map<int, MessageMeta>

    /** `Encoder::request`. */
    constructor ForRequest(buffer: BytesMut, messages: map<int, MessageMeta>)
      ensures working == buffer && containers == [] && field == None && kind == Some(RequestFrame)
      ensures apiKey == None && apiVersion == None && message == None && metaField == None && parse == []
      ensures requests == messages
    {
      working, containers, field, kind := buffer, [], None, Some(RequestFrame);
      apiKey, apiVersion, message, metaField, parse := None, None, None, None, [];
      requests := messages;
    }

    /** `Encoder::response`, for a message that is known. */
    constructor ForResponse(buffer: BytesMut, responses: map<int, MessageMeta>, key: int, version: int)
      ensures working == buffer && containers == [] && field == None && kind == Some(ResponseFrame)
      ensures apiKey == Some(key) && apiVersion == Some(version) && message == MessageOf(responses, key)
      ensures metaField == None && parse == if key in responses then [responses[key].fields] else []
    {
      working, containers, field, kind := buffer, [], None, Some(ResponseFrame);
      apiKey, apiVersion, message, metaField := Some(key), Some(version), MessageOf(responses, key), None;
      parse := if key in responses then [responses[key].fields] else [];
      requests := map[];
    }

    // -------------------------------------------------------------------
    // What the state says

    /** `field_meta`: the front of the stack, then the message. */
    function FieldMetaOf(name: string): (r: Option<FieldMeta>)
      reads this
    {
      var front := if parse == [] then None else Find(parse[0], name);
      if front.Some? then front
      else if message.Some? then Find(message.value.fields, name)
      else None
    }

    predicate InHeader()
      reads this
    {
      containers != [] && containers[0].StructVariant? && containers[0].name == "HeaderMezzanine"
    }

    predicate IsClientId()
      reads this
    {
      field.Some? && IsClientIdField(field.value)
    }

    predicate IsFlexible()
      reads this
    {
      FlexibleUnless(IsClientId())
    }

    /** The client id is never compact, and nothing is in the header of an API versions response. */
    predicate FlexibleUnless(clientId: bool)
      reads this
    {
      if InHeader() && (clientId || (kind == Some(ResponseFrame) && apiKey == Some(API_VERSIONS))) then false
      else message.Some? && apiVersion.Some? && message.value.flexible.Within(apiVersion.value)
    }

    predicate IsNullable()
      reads this
    {
      apiVersion.Some? && metaField.Some? && metaField.value.IsNullable(apiVersion.value)
    }

    predicate IsValid()
      reads this
    {
      apiVersion.Some? && metaField.Some? && metaField.value.version.Within(apiVersion.value)
    }

    predicate IsSequence()
      reads this
    {
      metaField.Some? && metaField.value.kind.SequenceOf?
    }

    predicate IsStructure()
      reads this
    {
      metaField.Some? && metaField.value.IsStructure()
    }

    predicate IsString()
      reads this
    {
      (InHeader() && field == Some("client_id")) || (metaField.Some? && metaField.value.kind.StringKind?)
    }

    predicate IsRecords()
      reads this
    {
      metaField.Some? && metaField.value.kind.RecordsKind?
    }

    predicate IsTagBuffer()
      reads this
    {
      field == Some(TAG_BUFFER)
    }

    // -------------------------------------------------------------------
    // The state a body is encoded in

    /** The message and the version are known. */
    ghost predicate InMessage(mm: MessageMeta, c: Ctx)
      reads this
    {
      && message == Some(mm) && apiVersion == Some(c.version) && c == ContextOf(mm, c.version)
      && ShapedFields(mm.fields)
    }

    /** Inside a struct of the message's body, not in the header. */
    ghost predicate InBody(mm: MessageMeta, c: Ctx)
      reads this
    {
      InMessage(mm, c) && working.Valid() && containers != [] && containers[0].Struct?
    }

    /** At a field: its children are on the stack. */
    ghost predicate AtField(fm: FieldMeta)
      reads this
    {
      parse != [] && parse[0] == fm.fields
    }

    /** In a struct: its fields are on the stack, or are those of the message and nothing hides them. */
    ghost predicate InStruct(mm: MessageMeta, fields: Fields)
      reads this
    {
      parse != [] && (parse[0] == fields || (parse[0] == [] && fields == mm.fields))
    }

    // -------------------------------------------------------------------
    // Writing

    method Put(b: Bytes)
      requires working.Valid()
      modifies this`working
      ensures working.Valid() && working.contents == old(working.contents) + b
    {
      working := working.Put(b);
    }

    method UnsignedVarint(value: nat)
      requires working.Valid()
      modifies this`working
      ensures working.Valid() && working.contents == old(working.contents) + Varint.Encode(value)
    {
      var v: nat := value;
      while v >= Varint.CONTINUATION
        invariant working.Valid()
        invariant working.contents + Varint.Encode(v) == old(working.contents) + Varint.Encode(value)
      {
        ghost var before := working.contents;
        Put([v % 128 + Varint.CONTINUATION]);
        assert before + Varint.Encode(v) == working.contents + Varint.Encode(v / 128);
        v := v / 128;
      }
      Put([v]);
    }

    /** A string, a byte string or a sequence in a flexible version: one more than the length. */
    method PutCompact(length: nat) returns (r: Result<()>)
      requires working.Valid()
      modifies this`working
      ensures working.Valid()
      ensures Wrote(old(working.contents), working.contents, r, CompactPrefix(length))
    {
      if length + 1 >= U32_LIMIT {
        return Err(TryFromInt);
      }
      UnsignedVarint(length + 1);
      r := Ok(());
    }

    /**
     The fixed-width values. A header's `api_key` and `api_version` are taken note
     of as they go by: from then on the message and the version are known.
     */
    method SerializeScalar(v: Value, s: Scalar)
      requires working.Valid() && HasScalarType(v, s)
      modifies this
      ensures working.Valid() && working.contents == old(working.contents) + WireScalar(s, v)
      ensures containers == old(containers) && field == old(field) && kind == old(kind) && metaField == old(metaField)
      ensures old(NotesApiKey(s)) ==>
                && apiKey == Some(v.n) && apiVersion == old(apiVersion)
                && message == (if v.n in requests then Some(requests[v.n]) else old(message))
                && parse == (if v.n in requests then [requests[v.n].fields] else []) + old(parse)
      ensures !old(NotesApiKey(s)) ==> apiKey == old(apiKey) && message == old(message) && parse == old(parse)
      ensures old(NotesApiVersion(s)) ==> apiVersion == Some(v.n)
      ensures !old(NotesApiKey(s)) && !old(NotesApiVersion(s)) ==> apiVersion == old(apiVersion)
    {
      if NotesApiKey(s) {
        apiKey := Some(v.n);
        if v.n in requests {
          message := Some(requests[v.n]);
          parse := [requests[v.n].fields] + parse;
        }
      } else if NotesApiVersion(s) {
        apiVersion := Some(v.n);
      }
      Put(WireScalar(s, v));
    }

    predicate NotesApiKey(s: Scalar)
      reads this
    {
      s.Int16? && containers != [] && containers[0] == StructVariant("HeaderMezzanine", "Request")
      && field == Some("api_key")
    }

    predicate NotesApiVersion(s: Scalar)
      reads this
    {
      s.Int16? && containers != [] && containers[0] == StructVariant("HeaderMezzanine", "Request")
      && field == Some("api_version")
    }

    method SerializeStr(s: Bytes) returns (r: Result<()>)
      requires working.Valid()
      modifies this`working
      ensures working.Valid()
      ensures Wrote(old(working.contents), working.contents, r,
                    if IsClientId() then Prefixed(StringPrefix(false, |s|), s)
                    else if IsValid() then Prefixed(StringPrefix(IsFlexible(), |s|), s)
                    else Ok([]))
    {
      if IsClientId() {
        if |s| > 0x7fff {
          return Err(TryFromInt);
        }
        Put(BigEndian(|s|, 2));
        Put(s);
      } else if IsValid() {
        if IsFlexible() {
          var _ :- PutCompact(|s|);
        } else {
          if |s| > 0x7fff {
            return Err(TryFromInt);
          }
          Put(BigEndian(|s|, 2));
        }
        Put(s);
      }
      r := Ok(());
    }

    method SerializeBytes(s: Bytes) returns (r: Result<()>)
      requires working.Valid()
      modifies this`working
      ensures working.Valid()
      ensures Wrote(old(working.contents), working.contents, r,
                    if IsValid() then Prefixed(BytesPrefix(IsFlexible(), |s|), s) else Ok([]))
    {
      if IsValid() {
        if IsFlexible() {
          var _ :- PutCompact(|s|);
        } else {
          if |s| >= U32_LIMIT {
            return Err(TryFromInt);
          }
          Put(BigEndian(|s|, 4));
        }
        Put(s);
      }
      r := Ok(());
    }

    /** The length of a sequence, when it has one and the field is valid. */
    method SerializeSeq(length: nat) returns (r: Result<()>)
      requires working.Valid()
      modifies this`working
      ensures working.Valid()
      ensures Wrote(old(working.contents), working.contents, r,
                    if IsValid() then SequencePrefix(IsFlexible(), length) else Ok([]))
    {
      if IsValid() {
        if IsFlexible() {
          var _ :- PutCompact(length);
        } else {
          if length > 0x7fff_ffff {
            return Err(TryFromInt);
          }
          Put(BigEndian(length, 4));
        }
      }
      r := Ok(());
    }

    method SerializeNone() returns (r: Result<()>)
      requires working.Valid()
      modifies this`working
      ensures working.Valid()
      ensures IsClientId() ==> Wrote(old(working.contents), working.contents, r, Ok([255, 255]))
      ensures !IsClientId() && !IsValid() ==> Wrote(old(working.contents), working.contents, r, Ok([]))
      ensures !InHeader() && IsValid() && message.Some? ==>
                Wrote(old(working.contents), working.contents, r,
                      WireNull(ContextOf(message.value, apiVersion.value), metaField.value))
    {
      if IsClientId() {
        Put([255, 255]);
      } else if IsValid() && IsRecords() {
        if IsFlexible() {
          UnsignedVarint(1);
        } else {
          Put([0, 0, 0, 0]);
        }
      } else if IsValid() && IsNullable() {
        if IsStructure() && !IsSequence() {
          Put([255]);
        } else if IsFlexible() {
          UnsignedVarint(0);
        } else if IsSequence() {
          Put([255, 255, 255, 255]);
        } else if IsString() {
          Put([255, 255]);
        }
      } else if IsValid() {
        return Err(OmittedNonNullableField(apiVersion.value));
      }
      r := Ok(());
    }

    // -------------------------------------------------------------------
    // Record sets and tag buffers

    /** Room for a length is made sure of, and the buffer split behind it. */
    method SplitPastLength() returns (spare: BytesMut)
      requires working.Valid()
      modifies this`working
      ensures working.Valid() && working.contents == old(working.contents)
      ensures spare.Valid() && spare.contents == []
    {
      working := working.Reserve(4);
      var split := working.SplitOff(|working.contents| + 4);
      working := split.0;
      spare := split.1;
    }

    /**
     The records splice. The batches are written past the four bytes set aside for
     their length, in what was spare capacity; then the length goes in front of
     them and the two buffers are joined again. `SplitOff` is within capacity for
     every capacity the buffer started with, because of the `Reserve` before it.
     */
    method SpliceRecords(batches: seq<Batch>) returns (r: Result<()>)
      requires working.Valid() && AreBatches(batches)
      modifies this`working
      ensures working.Valid()
      ensures Wrote(old(working.contents), working.contents, r,
                    Prefixed(RecordsPrefix(IsFlexible(), |WireBatches(batches)|), WireBatches(batches)))
    {
      var spare := SplitPastLength();
      var records := EncodeBatches(spare, batches);
      assert records.contents == WireBatches(batches);

      var _ :- PutRecordsLength(|records.contents|);
      Associate(old(working.contents), RecordsPrefix(IsFlexible(), |records.contents|).value, records.contents);
      working := working.Unsplit(records);
      r := Ok(());
    }

    method PutRecordsLength(length: nat) returns (r: Result<()>)
      requires working.Valid()
      modifies this`working
      ensures working.Valid()
      ensures Wrote(old(working.contents), working.contents, r, RecordsPrefix(IsFlexible(), length))
    {
      if length >= U32_LIMIT {
        return Err(TryFromInt);
      }
      if IsFlexible() {
        UnsignedVarint((length + 1) % U32_LIMIT);
      } else {
        Put(BigEndian(length, 4));
      }
      r := Ok(());
    }

    static method EncodeBatches(start: BytesMut, batches: seq<Batch>) returns (records: BytesMut)
      requires start.Valid() && AreBatches(batches)
      ensures records.Valid() && records.contents == start.contents + WireBatches(batches)
    {
      records := start;
      for i := 0 to |batches|
        invariant records.Valid()
        invariant records.contents + WireBatches(batches[i..]) == start.contents + WireBatches(batches)
      {
        ghost var before := records.contents;
        var b := batches[i];
        records := records.Put(Signed(b.baseOffset, 8)).Put(Signed(b.batchLength, 4)).Put(b.body);
        assert batches[i..][1..] == batches[i + 1..];
        assert before + WireBatches(batches[i..]) == records.contents + WireBatches(batches[i + 1..]);
      }
      assert batches[|batches|..] == [];
    }

    method SerializeTag(t: TagField) returns (r: Result<()>)
      requires working.Valid()
      modifies this`working
      ensures working.Valid()
      ensures Wrote(old(working.contents), working.contents, r, WireTag(t))
    {
      if |t.data| >= U32_LIMIT {
        return Err(TryFromInt);
      }
      UnsignedVarint(t.tag);
      UnsignedVarint(|t.data|);
      Put(t.data);
      r := Ok(());
    }

    method SerializeTags(tags: seq<TagField>) returns (r: Result<()>)
      requires working.Valid()
      modifies this`working
      ensures working.Valid()
      ensures Wrote(old(working.contents), working.contents, r, WireTags(tags))
    {
      if |tags| >= U32_LIMIT {
        return Err(TryFromInt);
      }
      UnsignedVarint(|tags|);
      ghost var head, done := working.contents, [];
      assert tags[0..] == tags;
      FollowingNothing(WireTagList(tags));
      for i := 0 to |tags|
        invariant working.Valid() && working.contents == head + done
        invariant WireTagList(tags) == Following(done, WireTagList(tags[i..]))
      {
        assert tags[i..][0] == tags[i] && tags[i..][1..] == tags[i + 1..];
        ghost var wire := WireTag(tags[i]);
        var _ :- SerializeTag(tags[i]);
        FollowingStep(done, wire.value, WireTagList(tags[i + 1..]));
        Associate(head, done, wire.value);
        done := done + wire.value;
      }
      assert tags[|tags|..] == [];
      Associate(old(working.contents), Varint.Encode(|tags|), done);
      r := Ok(());
    }

    // -------------------------------------------------------------------
    // Values, as serde hands them over

    /**
     A value with no metadata in force: a header's fields, and every tag buffer.
     The dispatch is that of `Serialize`.
     */
    method SerializeWithoutMeta(v: Value, ty: Type) returns (r: Result<()>)
      requires working.Valid() && metaField == None && HasType(v, ty) && IsPlain(ty)
      modifies this
      ensures working.Valid() && containers == old(containers) && kind == old(kind)
      ensures NotesHeader(v, ty)
      ensures Wrote(old(working.contents), working.contents, r,
                    WirePlain(v, ty, old(IsClientId()), old(IsTagBuffer() && !IsFlexible())))
    {
      match ty {
        case TScalar(s) =>
          SerializeScalar(v, s);
          r := Ok(());
        case TTags =>
          r := SerializeTags(v.tags);
        case TOption(t) =>
          if v.VNone? {
            r := SerializeNone();
          } else if IsTagBuffer() && !IsFlexible() {
            r := Ok(());
          } else if t.TString? {
            r := SerializeStr(v.some.s);
          } else {
            r := SerializeTags(v.some.tags);
          }
      }
    }

    /** What a header's `api_key` and `api_version` do to the state; nothing else does anything to it. */
    twostate predicate NotesHeader(v: Value, ty: Type)
      reads this
    {
      if ty.TScalar? && old(NotesApiKey(ty.scalar)) && v.VInt? then
        && apiKey == Some(v.n) && apiVersion == old(apiVersion)
        && message == (if v.n in requests then Some(requests[v.n]) else old(message))
        && parse == (if v.n in requests then [requests[v.n].fields] else []) + old(parse)
      else if ty.TScalar? && old(NotesApiVersion(ty.scalar)) && v.VInt? then
        && apiKey == old(apiKey) && apiVersion == Some(v.n) && message == old(message) && parse == old(parse)
      else
        && apiKey == old(apiKey) && apiVersion == old(apiVersion) && message == old(message) && parse == old(parse)
    }

    /** The state that outlives a value: everything but the bytes, the field name and the field in force. */
    ghost function ScopeOf()
      : (seq<Container>, Option<FrameKind>, Option<int>, Option<int>, Option<MessageMeta>, seq<Fields>)
      reads this
    {
      (containers, kind, apiKey, apiVersion, message, parse)
    }

    /**
     The value of a field that is valid at this version. What is written is what
     the grammar says of the field, for every value of the field's type. The three
     methods from here are serde's one dispatch on the form of a value.
     */
    method Serialize(
      v: Value, ty: Type, ghost mm: MessageMeta, ghost common: set<string>, ghost parent: Option<VersionRange>,
      ghost c: Ctx, ghost fm: FieldMeta)
      returns (r: Result<()>)
      requires InBody(mm, c) && AtField(fm) && metaField == Some(fm) && field != Some(TAG_BUFFER)
      requires WritesField(mm, fm) && fm.version.Within(c.version)
      requires ty == FieldType(common, parent, fm) && HasType(v, ty)
      modifies this
      ensures working.Valid() && ScopeOf() == old(ScopeOf())
      ensures Wrote(old(working.contents), working.contents, r, WireField(c, fm, v))
      decreases v, 6
    {
      FieldValues(common, parent, fm, v);
      if ty.TOption? {
        if v.VNone? {
          r := SerializeNone();
        } else {
          r := SerializeSome(v.some, ty.some, mm, common, c, fm);
        }
      } else {
        BaseValues(common, fm, v);
        if ty.TRecords? {
          SerializeLooseRecords(v.batches, mm, c);
          r := Ok(());
        } else {
          assert WireField(c, fm, v) == WirePresent(c, fm, v) == WireBase(c, fm, v);
          r := SerializeBase(v, ty, mm, common, c, fm);
        }
      }
    }

    method SerializeSome(
      x: Value, ty: Type, ghost mm: MessageMeta, ghost common: set<string>, ghost c: Ctx, ghost fm: FieldMeta)
      returns (r: Result<()>)
      requires InBody(mm, c) && AtField(fm) && metaField == Some(fm) && field != Some(TAG_BUFFER)
      requires WritesField(mm, fm) && fm.version.Within(c.version)
      requires ty == PresentType(common, fm) && HasType(x, ty)
      modifies this
      ensures working.Valid() && ScopeOf() == old(ScopeOf())
      ensures Wrote(old(working.contents), working.contents, r, WireField(c, fm, VSome(x)))
      decreases x, 5
    {
      if IsTagBuffer() && !IsFlexible() {
        r := Ok(());
      } else if IsRecords() {
        SplicesField(c, common, fm, x);
        r := SpliceRecords(x.batches);
      } else {
        r := SerializeAnnounced(x, ty, mm, common, c, fm);
      }
    }

    method SerializeAnnounced(
      x: Value, ty: Type, ghost mm: MessageMeta, ghost common: set<string>, ghost c: Ctx, ghost fm: FieldMeta)
      returns (r: Result<()>)
      requires InBody(mm, c) && AtField(fm) && metaField == Some(fm)
      requires WritesField(mm, fm) && fm.version.Within(c.version) && !fm.kind.RecordsKind?
      requires ty == PresentType(common, fm) && HasType(x, ty)
      modifies this
      ensures working.Valid() && ScopeOf() == old(ScopeOf())
      ensures Wrote(old(working.contents), working.contents, r, WireField(c, fm, VSome(x)))
      decreases x, 4, 1
    {
      PutPresence(mm, c, fm);
      r := SerializePresent(x, ty, mm, common, c, fm);
      TwoWrites(old(working.contents), Presence(c, fm), working.contents, r, WirePresent(c, fm, x));
    }

    /** The byte in front of a structure that is there but need not be. */
    method PutPresence(ghost mm: MessageMeta, ghost c: Ctx, ghost fm: FieldMeta)
      requires InBody(mm, c) && metaField == Some(fm) && fm.version.Within(c.version)
      modifies this`working
      ensures working.Valid() && working.contents == old(working.contents) + Presence(c, fm)
    {
      if IsValid() && IsNullable() && IsStructure() && !IsSequence() {
        Put([1]);
      }
    }

    method SerializePresent(
      v: Value, ty: Type, ghost mm: MessageMeta, ghost common: set<string>, ghost c: Ctx, ghost fm: FieldMeta)
      returns (r: Result<()>)
      requires InBody(mm, c) && AtField(fm) && metaField == Some(fm)
      requires WritesField(mm, fm) && fm.version.Within(c.version) && !fm.kind.RecordsKind?
      requires ty == PresentType(common, fm) && HasType(v, ty)
      modifies this
      ensures working.Valid() && ScopeOf() == old(ScopeOf())
      ensures Wrote(old(working.contents), working.contents, r, WirePresent(c, fm, v))
      decreases v, 4, 0
    {
      if ty.TVec? {
        var _ :- SerializeSeq(|v.elements|);
        ghost var prefix := SequencePrefix(c.flexible, |v.elements|).value;
        r := SerializeElements(v.elements, ty.element, mm, common, c, fm);
        TwoWrites(old(working.contents), prefix, working.contents, r, WireElements(c, fm, v.elements));
      } else {
        r := SerializeBase(v, ty, mm, common, c, fm);
      }
    }

    method SerializeElements(
      vs: seq<Value>, ty: Type, ghost mm: MessageMeta, ghost common: set<string>, ghost c: Ctx, ghost fm: FieldMeta)
      returns (r: Result<()>)
      requires InBody(mm, c) && AtField(fm) && metaField == Some(fm)
      requires WritesField(mm, fm) && fm.version.Within(c.version) && !fm.kind.RecordsKind?
      requires ty == BaseType(common, fm) && forall i :: 0 <= i < |vs| ==> HasType(vs[i], ty)
      modifies this
      ensures working.Valid() && ScopeOf() == old(ScopeOf())
      ensures Wrote(old(working.contents), working.contents, r, WireElements(c, fm, vs))
      decreases vs, 0
    {
      ghost var done: Bytes := [];
      assert vs[0..] == vs;
      FollowingNothing(WireElements(c, fm, vs));
      for i := 0 to |vs|
        invariant InBody(mm, c) && AtField(fm) && ScopeOf() == old(ScopeOf())
        invariant metaField == Some(fm) || fm.BaseKind().Named?
        invariant working.contents == old(working.contents) + done
        invariant WireElements(c, fm, vs) == Following(done, WireElements(c, fm, vs[i..]))
      {
        assert vs[i..][0] == vs[i] && vs[i..][1..] == vs[i + 1..];
        ghost var wire := WireBase(c, fm, vs[i]);
        var _ :- SerializeBase(vs[i], ty, mm, common, c, fm);
        FollowingStep(done, wire.value, WireElements(c, fm, vs[i + 1..]));
        Associate(old(working.contents), done, wire.value);
        done := done + wire.value;
      }
      assert vs[|vs|..] == [];
      r := Ok(());
    }

    /** Of the field in force only its structs can do without: the fields of the first leave none behind. */
    method SerializeBase(
      v: Value, ty: Type, ghost mm: MessageMeta, ghost common: set<string>, ghost c: Ctx, ghost fm: FieldMeta)
      returns (r: Result<()>)
      requires InBody(mm, c) && AtField(fm) && (metaField == Some(fm) || fm.BaseKind().Named?)
      requires WritesField(mm, fm) && fm.version.Within(c.version) && !fm.kind.RecordsKind?
      requires ty == BaseType(common, fm) && HasType(v, ty)
      modifies this
      ensures working.Valid() && ScopeOf() == old(ScopeOf())
      ensures fm.BaseKind().Named? || metaField == old(metaField)
      ensures Wrote(old(working.contents), working.contents, r, WireBase(c, fm, v))
      decreases v, 3
    {
      BaseValues(common, fm, v);
      match ty {
        case TScalar(s) =>
          SerializeScalar(v, s);
          r := Ok(());
        case TString =>
          r := SerializeStr(v.s);
        case TBytes =>
          r := SerializeBytes(v.s);
        case TStruct(name, types) =>
          r := SerializeStruct(v, name, types, mm, common, Inner(common, fm), c, fm.fields);
      }
    }

    /**
     A struct: its name is not the name of a field, so nothing is pushed for it
     and its fields are found where its field, or the message, put them.
     */
    method SerializeStruct(
      v: Value, name: string, types: seq<TypedField>, ghost mm: MessageMeta, ghost common: set<string>,
      ghost parent: Option<VersionRange>, ghost c: Ctx, ghost fields: Fields)
      returns (r: Result<()>)
      requires working.Valid() && InMessage(mm, c) && InStruct(mm, fields)
      requires WritesFields(mm, fields) && IsTypeName(name)
      requires v.VStruct? && types == FieldTypes(common, parent, fields) && HaveTypes(v.fields, types)
      modifies this
      ensures working.Valid() && ScopeOf() == old(ScopeOf())
      ensures Wrote(old(working.contents), working.contents, r, WireFields(c, fields, v.fields))
      decreases v, 2
    {
      containers := [Struct(name)] + containers;
      var found := FieldMetaOf(name);
      if found.Some? {
        metaField := found;
        parse := [found.value.fields] + parse;
      }
      NotAField(old(parse[0]), name);
      NotAField(mm.fields, name);
      assert fields[0..] == fields;
      r := SerializeFields(v.fields, types, mm, common, parent, c, fields, 0);
      containers := containers[1..];
    }

    /** The fields of a struct from the `k`th on, tag buffer included. */
    method SerializeFields(
      vs: seq<NamedValue>, types: seq<TypedField>, ghost mm: MessageMeta, ghost common: set<string>,
      ghost parent: Option<VersionRange>, ghost c: Ctx, ghost fields: Fields, ghost k: nat)
      returns (r: Result<()>)
      requires InBody(mm, c) && InStruct(mm, fields) && WritesFields(mm, fields)
      requires k <= |fields| && types == FieldTypes(common, parent, fields[k..]) && HaveTypes(vs, types)
      modifies this
      ensures working.Valid() && ScopeOf() == old(ScopeOf())
      ensures Wrote(old(working.contents), working.contents, r, WireFields(c, fields[k..], vs))
      decreases vs, 1
    {
      ghost var next := NextUntagged(fields, k);
      TypesSkipTagged(common, parent, fields, k);
      WireSkipsTagged(c, fields, k, vs);
      if |types| == 1 {
        assert fields[next..] == [];
        NoTagBufferField(mm, fields);
        TagBufferIsPlain(c, vs[0].value);
        r := SerializeUnlisted(vs[0].name, vs[0].value, types[0].ty);
      } else {
        r := SerializeNext(vs, types, mm, common, parent, c, fields, next);
      }
    }

    /** The `k`th field of a struct, which has no tag, and the ones after it. */
    method SerializeNext(
      vs: seq<NamedValue>, types: seq<TypedField>, ghost mm: MessageMeta, ghost common: set<string>,
      ghost parent: Option<VersionRange>, ghost c: Ctx, ghost fields: Fields, ghost k: nat)
      returns (r: Result<()>)
      requires InBody(mm, c) && InStruct(mm, fields) && WritesFields(mm, fields)
      requires k < |fields| && fields[k].meta.tag.None?
      requires types == FieldTypes(common, parent, fields[k..]) && HaveTypes(vs, types)
      modifies this
      ensures working.Valid() && ScopeOf() == old(ScopeOf())
      ensures Wrote(old(working.contents), working.contents, r, WireFields(c, fields[k..], vs))
      decreases vs, 0
    {
      ghost var fm := fields[k].meta;
      FieldOfThatName(mm, fields, k);
      assert fields[k..][0] == fields[k] && fields[k..][1..] == fields[k + 1..];
      var _ :- SerializeField(vs[0].name, vs[0].value, types[0].ty, mm, common, parent, c, fm);
      r := SerializeFields(vs[1..], types[1..], mm, common, parent, c, fields, k + 1);
      TwoWrites(old(working.contents), WireField(c, fm, vs[0].value).value, working.contents, r,
                WireFields(c, fields[k + 1..], vs[1..]));
    }

    /** One field: on the stack while it is written, and nothing at all outside its version range. */
    method SerializeField(
      key: string, v: Value, ty: Type, ghost mm: MessageMeta, ghost common: set<string>,
      ghost parent: Option<VersionRange>, ghost c: Ctx, ghost fm: FieldMeta)
      returns (r: Result<()>)
      requires InBody(mm, c) && key != TAG_BUFFER && FieldMetaOf(key) == Some(fm)
      requires WritesField(mm, fm) && ty == FieldType(common, parent, fm) && HasType(v, ty)
      modifies this
      ensures working.Valid() && ScopeOf() == old(ScopeOf())
      ensures Wrote(old(working.contents), working.contents, r, WireField(c, fm, v))
      decreases v, 7
    {
      field := Some(key);
      metaField := FieldMetaOf(key);
      parse := [metaField.value.fields] + parse;
      if IsValid() {
        r := Serialize(v, ty, mm, common, parent, c, fm);
      } else {
        r := Ok(());
      }
      parse := parse[1..];
      metaField := None;
    }

    /**
     A record set that has no `Option` around it is a struct like any other: a
     sequence for which there is no metadata, and so no length.
     */
    method SerializeLooseRecords(batches: seq<Batch>, ghost mm: MessageMeta, ghost c: Ctx)
      requires InBody(mm, c) && parse != [] && parse[0] == [] && Apart(mm.fields) && AreBatches(batches)
      modifies this
      ensures working.Valid() && ScopeOf() == old(ScopeOf())
      ensures working.contents == old(working.contents) + WireHeads(batches)
    {
      containers := [Struct("Frame")] + containers;
      NotAField(mm.fields, "Frame");
      NotInABatch(mm, "batches");
      field, metaField := Some("batches"), FieldMetaOf("batches");
      parse := [[]] + parse;
      var _ := SerializeSeq(|batches|);
      assert batches[0..] == batches;
      for i := 0 to |batches|
        invariant InBody(mm, c) && metaField == None && parse == [[]] + old(parse)
        invariant ScopeOf() == ([Struct("Frame")] + old(containers), kind, apiKey, apiVersion, message, parse)
        invariant kind == old(kind) && apiKey == old(apiKey) && apiVersion == old(apiVersion)
        invariant working.contents + WireHeads(batches[i..]) == old(working.contents) + WireHeads(batches)
      {
        assert batches[i..][0] == batches[i] && batches[i..][1..] == batches[i + 1..];
        Associate(working.contents, WireHead(batches[i]), WireHeads(batches[i + 1..]));
        SerializeLooseBatch(batches[i], mm, c);
      }
      assert batches[|batches|..] == [];
      parse := parse[1..];
      containers := containers[1..];
    }

    /** Its numbers are written; its records, which are bytes outside any field that is valid, are not. */
    method SerializeLooseBatch(b: Batch, ghost mm: MessageMeta, ghost c: Ctx)
      requires InBody(mm, c) && parse != [] && parse[0] == [] && Apart(mm.fields) && IsBatch(b)
      modifies this`working, this`containers, this`field, this`metaField
      ensures working.Valid() && ScopeOf() == old(ScopeOf()) && metaField == None
      ensures working.contents == old(working.contents) + WireHead(b)
    {
      containers := [Struct("Batch")] + containers;
      NotInABatch(mm, "base_offset");
      field, metaField := Some("base_offset"), FieldMetaOf("base_offset");
      Put(Signed(b.baseOffset, 8));
      field, metaField := Some("batch_length"), FieldMetaOf("batch_length");
      Put(Signed(b.batchLength, 4));
      // The other fields of a fixed width, from the leader's epoch to the number of records.
      Put(b.body[..FIXED_BATCH_LENGTH]);
      NotInABatch(mm, "record_data");
      field, metaField := Some("record_data"), FieldMetaOf("record_data");
      var _ := SerializeBytes(b.body[FIXED_BATCH_LENGTH..]);
      containers := containers[1..];
    }

    lemma NotInABatch(mm: MessageMeta, name: string)
      requires message == Some(mm) && parse != [] && parse[0] == [] && Apart(mm.fields) && name in BATCH_FIELDS
      ensures FieldMetaOf(name) == None
    {
      FindAbsent(mm.fields, name);
    }

    /** A field with no metadata, in a struct or in a variant: an empty list stands in for its children. */
    method SerializeUnlisted(key: string, v: Value, ty: Type) returns (r: Result<()>)
      requires working.Valid() && FieldMetaOf(key) == None && IsPlain(ty) && HasType(v, ty)
      modifies this
      ensures working.Valid() && containers == old(containers) && kind == old(kind)
      ensures old(Unnoted(key)) ==> ScopeOf() == old(ScopeOf())
      ensures Wrote(old(working.contents), working.contents, r,
                    WirePlain(v, ty, old(IsClientIdField(key)),
                              key == TAG_BUFFER && !old(FlexibleUnless(IsClientIdField(key)))))
      ensures !old(Unnoted(key)) && key == "api_key" && ty == TScalar(Int16) && v.n in requests ==>
                && apiKey == Some(v.n) && apiVersion == old(apiVersion)
                && message == Some(requests[v.n]) && parse == [[]] + old(parse)
      ensures !old(Unnoted(key)) && key == "api_version" && ty == TScalar(Int16) ==>
                && apiKey == old(apiKey) && apiVersion == Some(v.n) && message == old(message) && parse == old(parse)
    {
      field := Some(key);
      metaField := None;
      parse := [[]] + parse;
      label before:
      r := SerializeWithoutMeta(v, ty);
      assert NotesHeader@before(v, ty);
      parse := parse[1..];
    }

    predicate IsClientIdField(key: string)
      reads this
    {
      InHeader() && kind == Some(RequestFrame) && key == "client_id"
    }

    /** Anything but the two header fields that are taken note of. */
    predicate Unnoted(key: string)
      reads this
    {
      (key != "api_key" && key != "api_version")
      || containers == [] || containers[0] != StructVariant("HeaderMezzanine", "Request")
    }

    // -------------------------------------------------------------------
    // The header and the frame

    /** No field of the message is named like one of the header or the frame. */
    ghost predicate Reserves(mm: MessageMeta) {
      WritesFields(mm, mm.fields) && forall i :: 0 <= i < |mm.fields| ==> mm.fields[i].name !in RESERVED
    }

    /** The start of a request, or of a response to a message at a version. */
    ghost predicate AtStart(mm: MessageMeta, version: int, h: Header)
      reads this
    {
      && working.Valid() && Reserves(mm)
      && match h
         case Request(key, ver, _, _) =>
           && kind == Some(RequestFrame) && message == None && key in requests && requests[key] == mm
           && mm.apiKey == key && ver == version
         case Response(_) =>
           && kind == Some(ResponseFrame) && message == Some(mm)
           && apiKey == Some(mm.apiKey) && apiVersion == Some(version)
    }

    lemma NotAMessageField(name: string)
      requires message.Some? ==> Reserves(message.value)
      requires parse != [] ==> parse[0] == [] || (message.Some? && parse[0] == message.value.fields)
      requires name in RESERVED || name == TAG_BUFFER || IsTypeName(name)
      ensures FieldMetaOf(name) == None
    {
      if parse != [] {
        FindAbsent(parse[0], name);
      }
      if message.Some? {
        FindAbsent(message.value.fields, name);
      }
    }

    /** `HeaderMezzanine`: the header's fields and an empty tag buffer, as a struct variant. */
    method SerializeHeader(h: Header, ghost mm: MessageMeta, ghost version: int) returns (r: Result<()>)
      requires AtStart(mm, version, h) && IsHeader(h) && parse != [] && parse[0] == []
      modifies this
      ensures working.Valid() && containers == old(containers) && kind == old(kind)
      ensures Wrote(old(working.contents), working.contents, r,
                    WireHeader(mm.apiKey, mm.flexible.Within(version), h))
      ensures r.Ok? ==> message == Some(mm) && apiVersion == Some(version)
                        && parse == (if h.Request? then [[]] else []) + old(parse)
    {
      containers := [StructVariant("HeaderMezzanine", if h.Request? then "Request" else "Response")] + containers;
      if h.Request? {
        SerializeRequestNumbers(h, mm, version);
        ghost var numbers := Signed(h.apiKey, 2) + Signed(h.apiVersion, 2) + Signed(h.correlationId, 4);
        r := SerializeClientId(h.clientId, mm);
        TwoWrites(old(working.contents), numbers, working.contents, r,
                   ClientIdAndTags(h.clientId, mm.flexible.Within(version)));
        HeaderInParts(mm.apiKey, mm.flexible.Within(version), h);
      } else {
        SerializeNumber("correlation_id", h.correlationId, Int32);
        NotAMessageField(TAG_BUFFER);
        r := SerializeUnlisted(TAG_BUFFER, VSome(VTags([])), TOption(TTags));
        NoTags();
      }
      containers := containers[1..];
    }

    method SerializeHeaderField(h: Header, ghost mm: MessageMeta, ghost version: int) returns (r: Result<()>)
      requires AtStart(mm, version, h) && IsHeader(h)
      requires parse == (if h.Request? then [] else [mm.fields])
      modifies this
      ensures working.Valid() && containers == old(containers) && kind == old(kind)
      ensures Wrote(old(working.contents), working.contents, r,
                    WireHeader(mm.apiKey, mm.flexible.Within(version), h))
      ensures r.Ok? ==> message == Some(mm) && apiVersion == Some(version)
                        && parse == (if h.Request? then [[]] else []) + old(parse)
    {
      NotAMessageField("header");
      field := Some("header");
      metaField := None;
      parse := [[]] + parse;
      var _ :- SerializeHeader(h, mm, version);
      parse := parse[1..];
      r := Ok(());
    }

    method SerializeBodyField(
      body: Value, name: string, types: seq<TypedField>, ghost mm: MessageMeta, ghost common: set<string>,
      ghost version: int)
      returns (r: Result<()>)
      requires working.Valid() && message == Some(mm) && apiVersion == Some(version) && Reserves(mm)
      requires parse == [[]] || parse == [mm.fields]
      requires IsTypeName(name) && types == FieldTypes(common, None, mm.fields) && HasType(body, TStruct(name, types))
      modifies this
      ensures working.Valid() && containers == old(containers)
      ensures Wrote(old(working.contents), working.contents, r, WireMessage(mm, version, body))
    {
      NotAMessageField("body");
      field := Some("body");
      metaField := None;
      parse := [[]] + parse;
      r := SerializeStruct(body, name, types, mm, common, None, ContextOf(mm, version), mm.fields);
      parse := parse[1..];
    }

    /**
     A whole frame. In a request the header leaves an empty list on the stack, so
     that the body's fields are found through the message; in a response the
     message was known from the start.
     */
    method SerializeFrame(
      f: Frame, name: string, types: seq<TypedField>, ghost mm: MessageMeta, ghost common: set<string>,
      ghost version: int)
      returns (r: Result<()>)
      requires AtStart(mm, version, f.header) && IsHeader(f.header) && FitsSigned(f.size, 4)
      requires parse == (if f.header.Request? then [] else [mm.fields]) && containers == []
      requires IsTypeName(name) && types == FieldTypes(common, None, mm.fields) && HasType(f.body, TStruct(name, types))
      modifies this
      ensures working.Valid()
      ensures Wrote(old(working.contents), working.contents, r, WireFrame(mm, version, f))
    {
      NotAMessageField("Frame");
      containers := [Struct("Frame")] + containers;
      SerializeSize(f.size);
      var _ :- SerializeHeaderField(f.header, mm, version);
      r := SerializeBodyField(f.body, name, types, mm, common, version);
      containers := containers[1..];
      FrameInParts(mm, version, f, old(working.contents), working.contents, r);
    }

    /** The size of the frame, not yet known: the encoder writes what it is given. */
    method SerializeSize(size: int)
      requires working.Valid() && FitsSigned(size, 4) && (message.Some? ==> Reserves(message.value))
      requires parse != [] ==> parse[0] == [] || (message.Some? && parse[0] == message.value.fields)
      requires containers == [Struct("Frame")]
      modifies this
      ensures working.Valid() && ScopeOf() == old(ScopeOf())
      ensures working.contents == old(working.contents) + Signed(size, 4)
    {
      NotAMessageField("size");
      var _ := SerializeUnlisted("size", VInt(size), TScalar(Int32));
    }

    /** A number in the header; always succeeds. */
    method SerializeNumber(key: string, n: int, s: Scalar)
      requires working.Valid() && HasScalarType(VInt(n), s) && (s.Int16? || s.Int32?) && key in RESERVED
      requires message.Some? ==> Reserves(message.value)
      requires parse != [] && (parse[0] == [] || (message.Some? && parse[0] == message.value.fields))
      modifies this
      ensures working.Valid() && containers == old(containers) && kind == old(kind)
      ensures working.contents == old(working.contents) + Signed(n, if s.Int16? then 2 else 4)
      ensures old(Unnoted(key)) ==> ScopeOf() == old(ScopeOf())
      ensures !old(Unnoted(key)) && key == "api_key" && s.Int16? && n in requests ==>
                && apiKey == Some(n) && apiVersion == old(apiVersion)
                && message == Some(requests[n]) && parse == [[]] + old(parse)
      ensures !old(Unnoted(key)) && key == "api_version" && s.Int16? ==>
                && apiKey == old(apiKey) && apiVersion == Some(n) && message == old(message) && parse == old(parse)
    {
      NotAMessageField(key);
      var _ := SerializeUnlisted(key, VInt(n), TScalar(s));
    }

    method SerializeRequestNumbers(h: Header, ghost mm: MessageMeta, ghost version: int)
      requires AtStart(mm, version, h) && IsHeader(h) && h.Request? && parse != [] && parse[0] == []
      requires containers != [] && containers[0] == StructVariant("HeaderMezzanine", "Request")
      modifies this
      ensures working.Valid() && containers == old(containers) && kind == old(kind)
      ensures working.contents
              == old(working.contents) + (Signed(h.apiKey, 2) + Signed(h.apiVersion, 2) + Signed(h.correlationId, 4))
      ensures message == Some(mm) && apiVersion == Some(version) && parse == [[]] + old(parse)
    {
      SerializeNumber("api_key", h.apiKey, Int16);
      SerializeNumber("api_version", h.apiVersion, Int16);
      SerializeNumber("correlation_id", h.correlationId, Int32);
    }

    /** The client id, in the short form whatever the version, and the tag buffer. */
    method SerializeClientId(clientId: Option<Bytes>, ghost mm: MessageMeta) returns (r: Result<()>)
      requires working.Valid() && kind == Some(RequestFrame) && message == Some(mm) && apiVersion.Some? && Reserves(mm)
      requires containers != [] && containers[0] == StructVariant("HeaderMezzanine", "Request")
      requires parse != [] && parse[0] == [] && ValidClientId(clientId)
      modifies this
      ensures working.Valid() && ScopeOf() == old(ScopeOf())
      ensures Wrote(old(working.contents), working.contents, r,
                    ClientIdAndTags(clientId, mm.flexible.Within(apiVersion.value)))
    {
      NotAMessageField("client_id");
      var v := if clientId.None? then VNone else VSome(VString(clientId.value));
      var _ :- SerializeUnlisted("client_id", v, TOption(TString));
      NotAMessageField(TAG_BUFFER);
      r := SerializeUnlisted(TAG_BUFFER, VSome(VTags([])), TOption(TTags));
      NoTags();
    }

    /** The stack finds a field of the struct by its name, whichever of the two it is found through. */
    lemma FieldOfThatName(mm: MessageMeta, fields: Fields, k: nat)
      requires message == Some(mm) && InStruct(mm, fields) && ShapedFields(fields) && k < |fields|
      ensures FieldMetaOf(fields[k].name) == Some(fields[k].meta)
    {
      FindAt(fields, k);
      if parse[0] == [] {
        FindAbsent([], fields[k].name);
      }
    }

    lemma NoTagBufferField(mm: MessageMeta, fields: Fields)
      requires message == Some(mm) && ShapedFields(mm.fields) && InStruct(mm, fields) && ShapedFields(fields)
      ensures FieldMetaOf(TAG_BUFFER) == None
    {
      FindAbsent(parse[0], TAG_BUFFER);
      FindAbsent(mm.fields, TAG_BUFFER);
    }
  }

  function ClientIdAndTags(clientId: Option<Bytes>, flexible: bool): (r: Result<Bytes>) {
    Prefixed(WireClientId(clientId), if flexible then [0] else [])
  }

  lemma HeaderInParts(apiKey: int, flexible: bool, h: Header)
    requires IsHeader(h) && h.Request?
    ensures WireHeader(apiKey, flexible, h)
            == Following(Signed(h.apiKey, 2) + Signed(h.apiVersion, 2) + Signed(h.correlationId, 4),
                     ClientIdAndTags(h.clientId, flexible))
  {
    var numbers := Signed(h.apiKey, 2) + Signed(h.apiVersion, 2) + Signed(h.correlationId, 4);
    if WireClientId(h.clientId).Ok? {
      Associate(numbers, WireClientId(h.clientId).value, if flexible then [0] else []);
    }
  }

  lemma FrameInParts(mm: MessageMeta, version: int, f: Frame, before: Bytes, after: Bytes, r: Result<()>)
    requires IsHeader(f.header) && FitsSigned(f.size, 4)
    requires WireHeader(mm.apiKey, mm.flexible.Within(version), f.header).Ok?
    requires Wrote(before + Signed(f.size, 4) + WireHeader(mm.apiKey, mm.flexible.Within(version), f.header).value,
                   after, r, WireMessage(mm, version, f.body))
    ensures Wrote(before, after, r, WireFrame(mm, version, f))
  {
    var size, header := Signed(f.size, 4), WireHeader(mm.apiKey, mm.flexible.Within(version), f.header).value;
    Associate(before, size, header);
    TwoWrites(before, size + header, after, r, WireMessage(mm, version, f.body));
  }

  /** What the splice leaves is what the field is written as. */
  lemma SplicesField(c: Ctx, common: set<string>, fm: FieldMeta, x: Value)
    requires fm.version.Within(c.version) && fm.kind.RecordsKind? && fm.fields == []
    requires HasType(x, PresentType(common, fm))
    ensures x.VRecords? && AreBatches(x.batches)
    ensures WireField(c, fm, VSome(x))
            == Prefixed(RecordsPrefix(c.flexible, |WireBatches(x.batches)|), WireBatches(x.batches))
  {
    BaseValues(common, fm, x);
    RecordsUnfold(c, fm, x);
  }

  lemma NoTags()
    ensures WireTags([]) == Ok([0])
  {
    assert Varint.Encode(0) + [] == [0];
  }

  lemma TagBufferIsPlain(c: Ctx, v: Value)
    requires HasType(v, TOption(TTags))
    ensures WireTagBuffer(c, v) == WirePlain(v, TOption(TTags), false, !c.flexible)
  {
    if v.VSome? {
      assert HasType(v.some, TTags);
    }
  }

  lemma NotAField(fields: Fields, name: string)
    requires ShapedFields(fields) && IsTypeName(name)
    ensures Find(fields, name) == None
  {
    FindAbsent(fields, name);
  }

  lemma {:induction false} WireSkipsTagged(c: Ctx, fields: Fields, k: nat, vs: seq<NamedValue>)
    requires k <= |fields| && vs != []
    ensures WireFields(c, fields[k..], vs) == WireFields(c, fields[NextUntagged(fields, k)..], vs)
    decreases |fields| - k
  {
    if k < |fields| && fields[k].meta.tag.Some? {
      assert fields[k..][0] == fields[k] && fields[k..][1..] == fields[k + 1..];
      WireSkipsTagged(c, fields, k + 1, vs);
    }
  }
}
