/**
 Which structures the decoder can find its way round: those of one name have one
 set of fields, and a single structure below the top level, which the table may
 leave out, has to do without.
 */
module Resolution {
  import opened Base
  import opened Schema
  import opened Types

  /** Nothing in it needs metadata, or there is no reading it. */
  predicate ReadsAlone(common: set<string>, fm: FieldMeta) {
    IsFlat(Inner(common, fm), fm.fields) || StartsWithSequence(fm.fields)
  }

  /** Listed in the table, or not taken for a message. */
  predicate ReadableField(common: set<string>, top: bool, fm: FieldMeta)
    decreases fm, 1
  {
    && (fm.BaseKind().Named? ==>
          && fm.BaseKind().name != "HeaderMezzanine"
          && (top || fm.kind.SequenceOf? || (ReadsAlone(common, fm) && !IsMessageName(fm.BaseKind().name))))
    && ReadableFields(common, false, fm.fields)
  }

  predicate ReadableFields(common: set<string>, top: bool, fields: Fields)
    decreases fields, 0
  {
    forall i :: 0 <= i < |fields| && fields[i].meta.tag.None? ==> ReadableField(common, top, fields[i].meta)
  }

  predicate OccursIn(inner: Fields, outer: Fields) {
    forall e :: e in inner ==> e in outer
  }

  lemma {:induction false} OccurrencesAt(fields: Fields, i: nat)
    requires i < |fields|
    ensures OccursIn(OccurrencesOf(fields[i].meta), Occurrences(fields))
  {
    if i > 0 {
      OccurrencesAt(fields[1..], i - 1);
    }
  }

  lemma {:induction false} FieldResolved(mm: MessageMeta, common: set<string>, top: bool, fm: FieldMeta)
    requires UniqueNames(mm) && ShapedField(fm) && ReadableField(common, top, fm)
    requires OccursIn(OccurrencesOf(fm), Occurrences(mm.fields))
    requires top ==> exists i :: 0 <= i < |mm.fields| && mm.fields[i].meta == fm
    ensures ResolvedField(mm, common, fm)
    decreases fm, 1
  {
    FieldsResolved(mm, common, false, fm.fields);
    if fm.BaseKind().Named? {
      var e := Field(fm.BaseKind().name, fm);
      assert e in OccurrencesOf(fm);
      TableAgreesWithDescent(mm, e);
      if top {
        var i :| 0 <= i < |mm.fields| && mm.fields[i].meta == fm;
        assert e in OwnOccurrence(mm.fields[i].meta);
        assert IsTopLevel(mm.fields, e);
      }
    }
  }

  lemma {:induction false} FieldsResolved(mm: MessageMeta, common: set<string>, top: bool, fields: Fields)
    requires UniqueNames(mm) && ShapedFields(fields) && ReadableFields(common, top, fields)
    requires OccursIn(Occurrences(fields), Occurrences(mm.fields))
    requires top ==> fields == mm.fields
    ensures ResolvedFields(mm, common, fields)
    decreases fields, 0
  {
    forall i | 0 <= i < |fields| && fields[i].meta.tag.None?
      ensures ResolvedField(mm, common, fields[i].meta)
    {
      OccurrencesAt(fields, i);
      FieldResolved(mm, common, top, fields[i].meta);
    }
  }

  /**
   With unique type names, finding a message's structures by type name gives the
   same fields as descending to them; only a single structure below the top level
   is not found, and if it is not flat it is one that starts with a sequence.
   */
  lemma MessageResolves(mm: MessageMeta, common: set<string>)
    requires UniqueNames(mm) && ShapedFields(mm.fields) && ReadableFields(common, true, mm.fields)
    ensures ResolvedFields(mm, common, mm.fields)
  {
    FieldsResolved(mm, common, true, mm.fields);
  }

  /** Somewhere the structure is a top-level field or in a sequence. */
  predicate IsListed(mm: MessageMeta, name: string) {
    exists e :: e in Occurrences(mm.fields) && e.name == name && (e.meta.kind.SequenceOf? || IsTopLevel(mm.fields, e))
  }

  lemma ListedExactly(mm: MessageMeta, name: string)
    ensures Find(Structures(mm), name).Some? <==> IsListed(mm, name)
  {
    var table := Structures(mm);
    if Find(table, name).Some? {
      FindSound(table, name);
      var e := Field(name, Find(table, name).value);
      TableListsExactly(mm, e);
      if IsTopLevel(mm.fields, e) {
        TopLevelOccurs(mm.fields, e);
      }
    } else if IsListed(mm, name) {
      var e :| e in Occurrences(mm.fields) && e.name == name && (e.meta.kind.SequenceOf? || IsTopLevel(mm.fields, e));
      TableListsExactly(mm, e);
      FindInTable(table, e);
    }
  }

  /**
   With unique type names, the decoder finds a structure's fields, or does without
   them, if and only if the structure is listed or is flat and not named like a
   message.
   */
  lemma ResolvesExactly(mm: MessageMeta, common: set<string>, e: Field)
    requires UniqueNames(mm) && e in Occurrences(mm.fields) && e.meta.BaseKind() == Named(e.name)
    ensures Resolves(mm, common, e.meta)
            <==> IsListed(mm, e.name) || (IsFlat(Inner(common, e.meta), e.meta.fields) && !IsMessageName(e.name))
  {
    ListedExactly(mm, e.name);
    TableAgreesWithDescent(mm, e);
  }
}
