/**
 The message metadata: the field tree that `build.rs` generates from the Kafka
 JSON descriptors, the flattened table of structures the decoder looks types up
 in, and the Rust types the generator gives the fields.
 */
module Schema {
  import opened Base

  datatype VersionRange = VersionRange(start: int, end: int) {
    predicate Within(version: int) {
      version >= start && version <= end
    }

    predicate IsMandatory(parent: Option<VersionRange>) {
      match parent
      case None => start == 0 && end == I16_MAX
      case Some(p) => if p.start > start then end == p.end else start == p.start && end == p.end
    }
  }

  const I16_MAX := 0x7fff

  /** The primitive kinds of a fixed width. */
  datatype Scalar = Bool | Int8 | Int16 | Int32 | Int64 | UInt16 | Float64 | Uuid

  /** A field's kind: `"string"`, `"[]int32"`, `"[]CreatableTopic"` and so on. */
  datatype Kind =
    | ScalarKind(scalar: Scalar)
    | StringKind
    | BytesKind
    | RecordsKind
    | Named(name: string)
    | SequenceOf(element: Kind)
  {
    predicate IsPrimitive() {
      !Named? && !SequenceOf?
    }
  }

  datatype FieldMeta = FieldMeta(
    version: VersionRange,
    nullable: Option<VersionRange>,
    kind: Kind,
    tag: Option<nat>,
    fields: seq<Field>)
  {
    predicate IsNullable(version: int) {
      nullable.Some? && nullable.value.Within(version)
    }

    predicate IsStructure() {
      (kind.SequenceOf? && !kind.element.IsPrimitive()) || fields != []
    }

    /** The kind of the field, or of its elements when it is a sequence. */
    function BaseKind(): Kind {
      if kind.SequenceOf? then kind.element else kind
    }
  }

  /** One entry of a field list: a snake-case name and its metadata. */
  datatype Field = Field(name: string, meta: FieldMeta)

  type Fields = seq<Field>

  datatype MessageMeta = MessageMeta(
    name: string,
    apiKey: int,
    flexible: VersionRange,
    fields: seq<Field>)

  /** The first field of that name: `FieldLookup::field` and `MessageMeta::field`. */
  function Find(fields: Fields, name: string): (r: Option<FieldMeta>) {
    if fields == [] then None
    else if fields[0].name == name then Some(fields[0].meta)
    else Find(fields[1..], name)
  }

  predicate DistinctNames(fields: Fields) {
    forall i, j :: 0 <= i < j < |fields| ==> fields[i].name != fields[j].name
  }

  lemma {:induction false} FindAt(fields: Fields, i: nat)
    requires i < |fields| && DistinctNames(fields)
    ensures Find(fields, fields[i].name) == Some(fields[i].meta)
  {
    if i > 0 {
      FindAt(fields[1..], i - 1);
    }
  }

  lemma {:induction false} FindAbsent(fields: Fields, name: string)
    requires forall i :: 0 <= i < |fields| ==> fields[i].name != name
    ensures Find(fields, name) == None
  {
    if fields != [] {
      FindAbsent(fields[1..], name);
    }
  }

  lemma {:induction false} FindSound(fields: Fields, name: string)
    requires Find(fields, name).Some?
    ensures Field(name, Find(fields, name).value) in fields
  {
    if fields[0].name != name {
      FindSound(fields[1..], name);
    }
  }

  // ---------------------------------------------------------------------
  // The table of structures

  /** What one field below the top level adds: its children's, then itself if it is a sequence. */
  function NestedStructures(fm: FieldMeta): (r: Fields) {
    if !fm.IsStructure() then []
    else
      ListStructures(fm.fields)
      + (if fm.kind.SequenceOf? && fm.kind.element.Named? then [Field(fm.kind.element.name, fm)] else [])
  }

  /** `FieldMeta::structures`: the sequences of structures below a field, at any depth. */
  function ListStructures(fields: Fields): (r: Fields) {
    if fields == [] then [] else NestedStructures(fields[0].meta) + ListStructures(fields[1..])
  }

  /** What one top-level field adds: a single structure is listed here as well. */
  function TopStructures(fm: FieldMeta): (r: Fields) {
    if !fm.IsStructure() then []
    else ListStructures(fm.fields) + (if fm.BaseKind().Named? then [Field(fm.BaseKind().name, fm)] else [])
  }

  function ListTopStructures(fields: Fields): (r: Fields) {
    if fields == [] then [] else TopStructures(fields[0].meta) + ListTopStructures(fields[1..])
  }

  /** `MessageMeta::structures`: the table the decoder finds a struct by its type name in. */
  function Structures(mm: MessageMeta): (r: Fields) {
    ListTopStructures(mm.fields)
  }

  // ---------------------------------------------------------------------
  // What the table lists

  /** Every structure below a field list, single or in a sequence, at any depth. */
  function OccurrencesOf(fm: FieldMeta): (r: Fields) {
    if !fm.IsStructure() then []
    else Occurrences(fm.fields) + (if fm.BaseKind().Named? then [Field(fm.BaseKind().name, fm)] else [])
  }

  function Occurrences(fields: Fields): (r: Fields) {
    if fields == [] then [] else OccurrencesOf(fields[0].meta) + Occurrences(fields[1..])
  }

  /** The occurrence of a structure as a top-level field. */
  predicate IsTopLevel(fields: Fields, e: Field) {
    exists i :: 0 <= i < |fields| && fields[i].meta == e.meta && e in OwnOccurrence(fields[i].meta)
  }

  function OwnOccurrence(fm: FieldMeta): (r: Fields) {
    if fm.IsStructure() && fm.BaseKind().Named? then [Field(fm.BaseKind().name, fm)] else []
  }

  lemma {:induction false} NestedExactly(fm: FieldMeta, e: Field)
    ensures e in NestedStructures(fm) <==> e in OccurrencesOf(fm) && e.meta.kind.SequenceOf?
    decreases fm
  {
    if fm.IsStructure() {
      ListExactly(fm.fields, e);
    }
  }

  lemma {:induction false} ListExactly(fields: Fields, e: Field)
    ensures e in ListStructures(fields) <==> e in Occurrences(fields) && e.meta.kind.SequenceOf?
    decreases fields
  {
    if fields != [] {
      NestedExactly(fields[0].meta, e);
      ListExactly(fields[1..], e);
    }
  }

  lemma {:induction false} ListTopExactly(fields: Fields, e: Field)
    ensures e in ListTopStructures(fields)
            <==> IsTopLevel(fields, e) || (e in Occurrences(fields) && e.meta.kind.SequenceOf?)
  {
    if fields != [] {
      ListTopExactly(fields[1..], e);
      ListExactly(fields[0].meta.fields, e);
      TopLevelCons(fields, e);
    }
  }

  lemma TopLevelCons(fields: Fields, e: Field)
    requires fields != []
    ensures IsTopLevel(fields, e)
            <==> (fields[0].meta == e.meta && e in OwnOccurrence(fields[0].meta)) || IsTopLevel(fields[1..], e)
  {
    if IsTopLevel(fields[1..], e) {
      var i :| 0 <= i < |fields[1..]| && fields[1..][i].meta == e.meta && e in OwnOccurrence(fields[1..][i].meta);
      assert fields[i + 1].meta == e.meta;
    }
    if IsTopLevel(fields, e) {
      var i :| 0 <= i < |fields| && fields[i].meta == e.meta && e in OwnOccurrence(fields[i].meta);
      assert i > 0 ==> fields[1..][i - 1].meta == e.meta;
    }
  }

  /**
   The decoder's table is sound and complete: it lists the structures that are
   top-level fields and the sequences of structures at any depth, and nothing
   else. A single structure below the top level is not in it.
   */
  lemma TableListsExactly(mm: MessageMeta, e: Field)
    ensures e in Structures(mm)
            <==> IsTopLevel(mm.fields, e) || (e in Occurrences(mm.fields) && e.meta.kind.SequenceOf?)
  {
    ListTopExactly(mm.fields, e);
  }

  /** Structures of the same name have the same fields: they are one Rust type. */
  predicate UniqueNames(mm: MessageMeta) {
    forall e, f :: e in Occurrences(mm.fields) && f in Occurrences(mm.fields) && e.name == f.name
                   ==> e.meta.fields == f.meta.fields
  }

  lemma {:induction false} TopLevelOccurs(fields: Fields, e: Field)
    requires IsTopLevel(fields, e)
    ensures e in Occurrences(fields)
  {
    TopLevelCons(fields, e);
    if !(fields[0].meta == e.meta && e in OwnOccurrence(fields[0].meta)) {
      TopLevelOccurs(fields[1..], e);
    }
  }

  /** An entry of the table is found by its name, or one of the same type is. */
  lemma ListedIsFound(mm: MessageMeta, e: Field)
    requires UniqueNames(mm) && e in Structures(mm)
    ensures Find(Structures(mm), e.name).Some? && Find(Structures(mm), e.name).value.fields == e.meta.fields
  {
    TableListsExactly(mm, e);
    if IsTopLevel(mm.fields, e) {
      TopLevelOccurs(mm.fields, e);
    }
    FindInTable(Structures(mm), e);
    TableAgreesWithDescent(mm, e);
  }

  lemma {:induction false} FindInTable(table: Fields, e: Field)
    requires e in table
    ensures Find(table, e.name).Some?
  {
    if table[0].name != e.name {
      FindInTable(table[1..], e);
    }
  }

  /**
   With unique type names, finding a structure by its type name gives the
   children that descending to it gives; only a single structure below the top
   level can be missing.
   */
  lemma TableAgreesWithDescent(mm: MessageMeta, e: Field)
    requires UniqueNames(mm) && e in Occurrences(mm.fields)
    ensures match Find(Structures(mm), e.name)
            case Some(found) => found.fields == e.meta.fields
            case None => !e.meta.kind.SequenceOf? && !IsTopLevel(mm.fields, e)
  {
    var table := Structures(mm);
    match Find(table, e.name) {
      case Some(found) =>
        FindSound(table, e.name);
        var f := Field(e.name, found);
        TableListsExactly(mm, f);
        if IsTopLevel(mm.fields, f) {
          TopLevelOccurs(mm.fields, f);
        }
      case None =>
        TableListsExactly(mm, e);
        if e in table {
          FindInTable(table, e);
        }
    }
  }
}
