/**
 * The local roster: the list of `ClassData` records the check-in screen mirrors
 * from the remote "Classrooms" collection, how a snapshot of that collection is
 * read into the list, and the two local patches applied after an acknowledged
 * status write and an acknowledged delete.
 */
module Roster {
  import opened Optionals
  import opened Uuids
  import Sequences

  /** One roster record. `status` is free text; see `StatusCycle`. */
  datatype ClassData = ClassData(id: Uuid, classroomNumber: string, information: string, status: string)

  /** A field value of a remote document; only strings are read by the roster. */
  datatype FieldValue =
    | StringValue(text: string)
    | IntegerValue(n: int)
    | BooleanValue(b: bool)
    | NullValue

  /** A remote document: its key in the collection and its fields. */
  datatype Document = Document(documentID: string, data: map<string, FieldValue>)

  const ClassroomNumberField: string := "classroomNumber"
  const InformationField: string := "information"
  const StatusField: string := "status"

  /** The field read as a string (`data()[key] as? String`). */
  function StringField(data: map<string, FieldValue>, key: string): (r: Optional<string>)
    ensures r.Some? <==> key in data && data[key].StringValue?
    ensures r.Some? ==> data[key] == StringValue(r.wrapped)
  {
    if key in data && data[key].StringValue? then Some(data[key].text) else None
  }

  /** The document carries all three roster fields as strings. */
  predicate HasRosterFields(d: Document) {
    && StringField(d.data, ClassroomNumberField).Some?
    && StringField(d.data, InformationField).Some?
    && StringField(d.data, StatusField).Some?
  }

  /**
   * The record's identifier: the document key read as a UUID, or, when the key is
   * not UUID text, the freshly generated identifier `freshId` supplies for that key.
   */
  function RecordId(documentID: string, freshId: string -> Uuid): (id: Uuid)
    ensures IsUuidText(documentID) ==> ParseUuid(documentID) == Some(id)
    ensures IsCanonicalUuidText(documentID) ==> UuidString(id) == documentID
    ensures !IsUuidText(documentID) ==> id == freshId(documentID)
  {
    var id := ParseUuid(documentID).OrElse(freshId(documentID));
    assert IsCanonicalUuidText(documentID) ==> UuidString(id) == documentID by {
      if IsCanonicalUuidText(documentID) {
        CanonicalTextRoundTrip(documentID);
      }
    }
    id
  }

  /** One document read leniently: `None` unless all three fields are strings. */
  function ParseDocument(d: Document, freshId: string -> Uuid): (r: Optional<ClassData>)
    ensures r.Some? <==> HasRosterFields(d)
    ensures r.Some? ==>
      && d.data[ClassroomNumberField] == StringValue(r.wrapped.classroomNumber)
      && d.data[InformationField] == StringValue(r.wrapped.information)
      && d.data[StatusField] == StringValue(r.wrapped.status)
    ensures r.Some? && IsUuidText(d.documentID) ==> r.wrapped.id == ParseUuid(d.documentID).wrapped
    ensures r.Some? && !IsUuidText(d.documentID) ==> r.wrapped.id == freshId(d.documentID)
  {
    match (StringField(d.data, ClassroomNumberField), StringField(d.data, InformationField), StringField(d.data, StatusField))
    case (Some(number), Some(info), Some(status)) =>
      Some(ClassData(RecordId(d.documentID, freshId), number, info, status))
    case _ => None
  }

  /**
   * A snapshot's documents read into the roster list, dropping every document
   * that lacks a string field (the `compactMap` over the snapshot).
   */
  function ParseDocuments(docs: seq<Document>, freshId: string -> Uuid): (r: seq<ClassData>)
    ensures |r| <= |docs|
    ensures forall d :: d in docs && HasRosterFields(d) ==> ParseDocument(d, freshId).wrapped in r
  {
    if |docs| == 0 then []
    else
      var rest := ParseDocuments(docs[1..], freshId);
      assert docs == [docs[0]] + docs[1..];
      match ParseDocument(docs[0], freshId)
      case Some(c) => [c] + rest
      case None => rest
  }

  /** `records[k]` is what `kept[k]` reads as, for every position `k`. */
  ghost predicate ReadInOrder(kept: seq<Document>, records: seq<ClassData>, freshId: string -> Uuid) {
    && |records| == |kept|
    && forall k :: 0 <= k < |kept| ==> ParseDocument(kept[k], freshId) == Some(records[k])
  }

  lemma ReadInOrderCons(d: Document, kept: seq<Document>, c: ClassData, records: seq<ClassData>, freshId: string -> Uuid)
    requires ReadInOrder(kept, records, freshId)
    requires ParseDocument(d, freshId) == Some(c)
    ensures ReadInOrder([d] + kept, [c] + records, freshId)
  {
    forall k | 1 <= k < |kept| + 1
      ensures ParseDocument(([d] + kept)[k], freshId) == Some(([c] + records)[k])
    {
      assert ([d] + kept)[k] == kept[k - 1];
    }
  }

  /**
   * The snapshot yields one record per well-formed document, in document order:
   * the k-th record is read from the k-th document that has all three fields.
   */
  lemma {:induction false} ParseDocumentsInOrder(docs: seq<Document>, freshId: string -> Uuid)
    ensures ReadInOrder(Sequences.Filter(HasRosterFields, docs), ParseDocuments(docs, freshId), freshId)
  {
    if |docs| > 0 {
      ParseDocumentsInOrder(docs[1..], freshId);
      var keptRest := Sequences.Filter(HasRosterFields, docs[1..]);
      var rest := ParseDocuments(docs[1..], freshId);
      if HasRosterFields(docs[0]) {
        ReadInOrderCons(docs[0], keptRest, ParseDocument(docs[0], freshId).wrapped, rest, freshId);
      }
    }
  }

  /** Every well-formed document of the snapshot has UUID text as its key. */
  ghost predicate AllKeysAreUuidText(docs: seq<Document>) {
    forall d :: d in docs && HasRosterFields(d) ==> IsUuidText(d.documentID)
  }

  /**
   * When every well-formed document is keyed by UUID text, no fallback identifier
   * is drawn, so the parsed roster does not depend on the fallback.
   */
  lemma {:induction false} ParseDocumentsIgnoresFallback(docs: seq<Document>, freshId1: string -> Uuid, freshId2: string -> Uuid)
    requires AllKeysAreUuidText(docs)
    ensures ParseDocuments(docs, freshId1) == ParseDocuments(docs, freshId2)
  {
    if |docs| > 0 {
      assert docs[0] in docs;
      assert AllKeysAreUuidText(docs[1..]) by {
        forall d | d in docs[1..] && HasRosterFields(d)
          ensures IsUuidText(d.documentID)
        {
          assert d in docs;
        }
      }
      ParseDocumentsIgnoresFallback(docs[1..], freshId1, freshId2);
    }
  }

  /** A record is in the parsed list exactly when some document of the snapshot reads as it. */
  lemma ParseDocumentsMembers(docs: seq<Document>, freshId: string -> Uuid, c: ClassData)
    ensures c in ParseDocuments(docs, freshId) <==> exists d :: d in docs && ParseDocument(d, freshId) == Some(c)
  {
    var r := ParseDocuments(docs, freshId);
    if c in r {
      ParseDocumentsInOrder(docs, freshId);
      var kept := Sequences.Filter(HasRosterFields, docs);
      var k :| 0 <= k < |r| && r[k] == c;
      assert kept[k] in kept;
      assert ParseDocument(kept[k], freshId) == Some(c);
    }
  }

  /** Index of the first record with identifier `id` (`firstIndex(where:)`). */
  function FirstIndexOf(records: seq<ClassData>, id: Uuid): (r: Optional<nat>)
    ensures r.Some? ==> IsFirstWithId(records, r.wrapped, id)
    ensures r.None? ==> forall j :: 0 <= j < |records| ==> records[j].id != id
  {
    if |records| == 0 then None
    else if records[0].id == id then Some(0)
    else match FirstIndexOf(records[1..], id)
      case Some(k) => Some(k + 1)
      case None => None
  }

  /** Position `j` holds the first record with identifier `id`. */
  ghost predicate IsFirstWithId(records: seq<ClassData>, j: int, id: Uuid) {
    && 0 <= j < |records|
    && records[j].id == id
    && forall k :: 0 <= k < j ==> records[k].id != id
  }

  /**
   * The local patch after an acknowledged status write: the first record with
   * identifier `id` takes `newStatus`; every other record, and every other field,
   * is kept in place.
   */
  function UpdateClassDataStatus(records: seq<ClassData>, id: Uuid, newStatus: string): (r: seq<ClassData>)
    ensures |r| == |records|
    ensures forall j :: 0 <= j < |records| ==>
      r[j] == if IsFirstWithId(records, j, id) then records[j].(status := newStatus) else records[j]
    ensures (forall j :: 0 <= j < |records| ==> records[j].id != id) ==> r == records
  {
    match FirstIndexOf(records, id)
    case Some(i) => records[i := records[i].(status := newStatus)]
    case None => records
  }

  /** The records a delete of `id` keeps. */
  function OtherThan(id: Uuid): ClassData -> bool {
    (c: ClassData) => c.id != id
  }

  /** The local patch after an acknowledged delete: every record with identifier `id` goes. */
  function RemoveAllById(records: seq<ClassData>, id: Uuid): (r: seq<ClassData>)
    ensures forall c :: c in r <==> c in records && c.id != id
    ensures forall c :: multiset(r)[c] == if c.id == id then 0 else multiset(records)[c]
    ensures Sequences.IsSubsequence(r, records)
  {
    Sequences.Filter(OtherThan(id), records)
  }

  /** Deleting the same identifier again changes nothing. */
  lemma RemoveAllByIdIdempotent(records: seq<ClassData>, id: Uuid)
    ensures RemoveAllById(RemoveAllById(records, id), id) == RemoveAllById(records, id)
  {
    Sequences.FilterIdempotent(OtherThan(id), records);
  }

  /** The remote store's merge write: the given fields overwrite, all others are kept. */
  function MergeFields(d: Document, fields: map<string, FieldValue>): Document {
    d.(data := d.data + fields)
  }

  /**
   * The local status patch agrees with the remote store: merging the status field
   * into a well-formed document reads back as the same record with the new status.
   */
  lemma MergedStatusReadsBack(d: Document, newStatus: string, freshId: string -> Uuid)
    requires HasRosterFields(d)
    ensures ParseDocument(MergeFields(d, map[StatusField := StringValue(newStatus)]), freshId)
      == Some(ParseDocument(d, freshId).wrapped.(status := newStatus))
  {
  }
}
