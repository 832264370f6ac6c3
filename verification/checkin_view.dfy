/**
 * The employee check-in screen as a state machine. The state holds the mirrored
 * roster and the screen's inputs; the operations are the toggle, delete and add
 * buttons and the delivery of a snapshot of the remote "Classrooms" collection.
 * Each mutating operation is gated by a fixed passphrase, returns the remote write
 * it issues (if any), and takes the remote store's answer to that write as a
 * parameter, so the completion handler's effect is part of the step.
 */
module CheckinView {
  import opened Optionals
  import opened Uuids
  import opened Roster
  import opened StatusCycle
  import RosterView
  import Sequences

  /** The shared passphrase every mutation must present. */
  const Passphrase: string := "mrhs"

  /** The remote collection that holds the roster. */
  const ClassroomsCollection: string := "Classrooms"

  /** The screen's state: the mirrored roster and the text fields and sort toggle. */
  datatype ViewState = ViewState(
    classData: seq<ClassData>,
    newClassroomNumber: string,
    newInformation: string,
    password: string,
    searchText: string,
    sortAscending: bool)

  datatype DocumentPath = DocumentPath(collection: string, documentID: string)

  /** A remote write the screen issues. */
  datatype Write =
    | SetData(path: DocumentPath, fields: map<string, FieldValue>, merge: bool)
    | DeleteDocument(path: DocumentPath)

  /** The remote store's answer to a write, as seen by its completion handler. */
  datatype WriteResult = Acknowledged | Failed(message: string)

  /** The state after an operation and the remote write it issued. */
  datatype Step = Step(state: ViewState, write: Optional<Write>)

  /** The screen as it first appears: empty roster and fields, ascending sort. */
  function InitialState(): (st: ViewState)
    ensures |st.classData| == 0 && st.sortAscending
  {
    ViewState([], "", "", "", "", true)
  }

  /** The guard of every mutation: exact, case-sensitive comparison with the passphrase. */
  predicate PasswordAccepted(password: string)
    ensures PasswordAccepted(password) <==> password == "mrhs"
  {
    password == Passphrase
  }

  /** The document that stores the record with identifier `id`. */
  function PathOf(id: Uuid): (p: DocumentPath)
    ensures p.collection == ClassroomsCollection
    ensures p.documentID == UuidString(id)
    ensures ParseUuid(p.documentID) == Some(id)
  {
    ParseUuidString(id);
    DocumentPath(ClassroomsCollection, UuidString(id))
  }

  /**
   * The status button of record `data`: merge the next status into its document
   * and, once acknowledged, patch the first local record with that identifier.
   */
  function ToggleClassStatus(st: ViewState, data: ClassData, result: WriteResult): (r: Step)
    ensures !PasswordAccepted(st.password) ==> r == Step(st, None)
    ensures PasswordAccepted(st.password) ==> (
      && r.write.Some? && r.write.wrapped.SetData?
      && r.write.wrapped.path == PathOf(data.id) && r.write.wrapped.merge
      && r.write.wrapped.fields.Keys == {StatusField}
      && r.write.wrapped.fields[StatusField] == StringValue(NextStatus(data.status)))
    ensures r.state == st.(classData := r.state.classData)
    ensures result.Failed? ==> r.state == st
    ensures |r.state.classData| == |st.classData|
    ensures forall j :: 0 <= j < |st.classData| ==>
      r.state.classData[j] == st.classData[j].(status := r.state.classData[j].status)
    ensures PasswordAccepted(st.password) && result.Acknowledged? ==>
      r.state.classData == UpdateClassDataStatus(st.classData, data.id, NextStatus(data.status))
  {
    if !PasswordAccepted(st.password) then Step(st, None)
    else
      var newStatus := NextStatus(data.status);
      var write := SetData(PathOf(data.id), map[StatusField := StringValue(newStatus)], true);
      match result
      case Acknowledged =>
        Step(st.(classData := UpdateClassDataStatus(st.classData, data.id, newStatus)), Some(write))
      case Failed(_) => Step(st, Some(write))
  }

  /**
   * The delete button of record `data`: delete its document and, once
   * acknowledged, drop every local record with that identifier.
   */
  function DeleteClass(st: ViewState, data: ClassData, result: WriteResult): (r: Step)
    ensures !PasswordAccepted(st.password) ==> r == Step(st, None)
    ensures PasswordAccepted(st.password) ==> r.write == Some(DeleteDocument(PathOf(data.id)))
    ensures r.state == st.(classData := r.state.classData)
    ensures result.Failed? ==> r.state == st
    ensures PasswordAccepted(st.password) && result.Acknowledged? ==>
      forall c :: c in r.state.classData <==> c in st.classData && c.id != data.id
    ensures PasswordAccepted(st.password) && result.Acknowledged? ==>
      r.state.classData == RemoveAllById(st.classData, data.id)
  {
    if !PasswordAccepted(st.password) then Step(st, None)
    else
      var write := DeleteDocument(PathOf(data.id));
      match result
      case Acknowledged => Step(st.(classData := RemoveAllById(st.classData, data.id)), Some(write))
      case Failed(_) => Step(st, Some(write))
  }

  /**
   * The add button: write a new CheckedIn document under the freshly generated
   * identifier `newId` and, once acknowledged, clear the two input fields. The
   * roster itself is left to the next snapshot.
   */
  function AddClass(st: ViewState, newId: Uuid, result: WriteResult): (r: Step)
    ensures !PasswordAccepted(st.password) ==> r == Step(st, None)
    ensures PasswordAccepted(st.password) ==> (
      && r.write.Some? && r.write.wrapped.SetData?
      && r.write.wrapped.path == PathOf(newId) && !r.write.wrapped.merge
      && r.write.wrapped.fields.Keys == {ClassroomNumberField, InformationField, StatusField}
      && StringField(r.write.wrapped.fields, ClassroomNumberField) == Some(st.newClassroomNumber)
      && StringField(r.write.wrapped.fields, InformationField) == Some(st.newInformation)
      && StringField(r.write.wrapped.fields, StatusField) == Some(Spelling(CheckedIn)))
    ensures r.state.classData == st.classData
    ensures result.Failed? ==> r.state == st
    ensures PasswordAccepted(st.password) && result.Acknowledged? ==>
      r.state == st.(newClassroomNumber := "", newInformation := "")
  {
    if !PasswordAccepted(st.password) then Step(st, None)
    else
      var fields := map[
        ClassroomNumberField := StringValue(st.newClassroomNumber),
        InformationField := StringValue(st.newInformation),
        StatusField := StringValue(Spelling(CheckedIn))];
      var write := SetData(PathOf(newId), fields, false);
      match result
      case Acknowledged => Step(st.(newClassroomNumber := "", newInformation := ""), Some(write))
      case Failed(_) => Step(st, Some(write))
  }

  /**
   * A delivery of the snapshot listener: `None` when the listener reports an error
   * (the roster is kept), otherwise the collection's documents, which replace the
   * roster outright.
   */
  function ApplySnapshot(st: ViewState, snapshot: Optional<seq<Document>>, freshId: string -> Uuid): (r: ViewState)
    ensures snapshot.None? ==> r == st
    ensures r == st.(classData := r.classData)
    ensures snapshot.Some? ==> |r.classData| <= |snapshot.wrapped|
    ensures snapshot.Some? ==>
      ReadInOrder(Sequences.Filter(HasRosterFields, snapshot.wrapped), r.classData, freshId)
  {
    match snapshot
    case None => st
    case Some(docs) =>
      ParseDocumentsInOrder(docs, freshId);
      st.(classData := ParseDocuments(docs, freshId))
  }

  /** The sort button flips the direction. */
  function ToggleSortOrder(st: ViewState): (r: ViewState)
    ensures r.sortAscending != st.sortAscending
    ensures r.(sortAscending := st.sortAscending) == st
  {
    st.(sortAscending := !st.sortAscending)
  }

  /** What the screen lists for a state. */
  function DisplayedRecords(st: ViewState): (r: seq<ClassData>)
    ensures RosterView.IsSorted(st.sortAscending, r)
    ensures forall c :: c in r <==> c in st.classData && RosterView.MatchesSearch(st.searchText, c)
    ensures forall c :: (multiset(r)[c] == if RosterView.MatchesSearch(st.searchText, c) then multiset(st.classData)[c] else 0)
  {
    RosterView.Displayed(st.classData, st.searchText, st.sortAscending)
  }

  /** Without the passphrase no button issues a write or changes the state. */
  lemma WrongPasswordIsInert(st: ViewState, data: ClassData, newId: Uuid, result: WriteResult)
    requires !PasswordAccepted(st.password)
    ensures ToggleClassStatus(st, data, result) == Step(st, None)
    ensures DeleteClass(st, data, result) == Step(st, None)
    ensures AddClass(st, newId, result) == Step(st, None)
  {
  }

  /** An acknowledged toggle of the first record with its identifier advances just that record's status. */
  lemma ToggleAtFirst(st: ViewState, i: int)
    requires 0 <= i < |st.classData|
    requires IsFirstWithId(st.classData, i, st.classData[i].id)
    requires PasswordAccepted(st.password)
    ensures var data := st.classData[i];
      ToggleClassStatus(st, data, Acknowledged).state
        == st.(classData := st.classData[i := data.(status := NextStatus(data.status))])
  {
    var data := st.classData[i];
    var patched := UpdateClassDataStatus(st.classData, data.id, NextStatus(data.status));
    assert patched == st.classData[i := data.(status := NextStatus(data.status))];
  }

  /**
   * Pressing a record's status button three times, each write acknowledged,
   * brings a recognised status, and so the whole state, back to where it was.
   */
  lemma {:induction false} ToggleThriceRestores(st: ViewState, i: int)
    requires 0 <= i < |st.classData|
    requires IsFirstWithId(st.classData, i, st.classData[i].id)
    requires PasswordAccepted(st.password)
    requires IsKnown(st.classData[i].status)
    ensures var s1 := ToggleClassStatus(st, st.classData[i], Acknowledged).state;
      var s2 := ToggleClassStatus(s1, s1.classData[i], Acknowledged).state;
      ToggleClassStatus(s2, s2.classData[i], Acknowledged).state == st
  {
    var cd := st.classData;
    var s := cd[i].status;
    ToggleAtFirst(st, i);
    var s1 := ToggleClassStatus(st, cd[i], Acknowledged).state;
    assert s1.classData == cd[i := cd[i].(status := NextStatus(s))];
    ToggleAtFirst(s1, i);
    var s2 := ToggleClassStatus(s1, s1.classData[i], Acknowledged).state;
    assert s2.classData == cd[i := cd[i].(status := NextStatus(NextStatus(s)))];
    ToggleAtFirst(s2, i);
    NextStatusPeriod(s);
    assert cd[i := cd[i].(status := s)] == cd;
  }

  /**
   * The local patch of a toggle and the remote merge agree: if `data` was read
   * from document `d` and the toggle writes to `d`, then `d` with the written
   * fields merged in reads back as `data` with the next status, which is the
   * value the local patch gives the record.
   */
  lemma ToggleAgreesWithNextSnapshot(st: ViewState, data: ClassData, result: WriteResult, d: Document, freshId: string -> Uuid)
    requires PasswordAccepted(st.password)
    requires ParseDocument(d, freshId) == Some(data)
    requires d.documentID == PathOf(data.id).documentID
    ensures var w := ToggleClassStatus(st, data, result).write.wrapped;
      ParseDocument(MergeFields(d, w.fields), freshId) == Some(data.(status := NextStatus(data.status)))
  {
    MergedStatusReadsBack(d, NextStatus(data.status), freshId);
  }

  /**
   * The toggle and delete of a record read from document `d` address `d` itself
   * exactly when `d`'s key is upper-case UUID text. A record read from a
   * lower-case key, or from a key that is not UUID text, is written and deleted
   * under another key, so its own document never changes.
   */
  lemma WritesAddressOwnDocumentIffCanonicalKey(st: ViewState, data: ClassData, result: WriteResult, d: Document, freshId: string -> Uuid)
    requires PasswordAccepted(st.password)
    requires ParseDocument(d, freshId) == Some(data)
    ensures ToggleClassStatus(st, data, result).write.wrapped.path.documentID == d.documentID
      <==> IsCanonicalUuidText(d.documentID)
    ensures DeleteClass(st, data, result).write.wrapped.path.documentID == d.documentID
      <==> IsCanonicalUuidText(d.documentID)
  {
    if IsUuidText(d.documentID) {
      KeyIsUuidStringIffCanonical(d.documentID, data.id);
    }
  }

  /**
   * The document an acknowledged add writes reads back, under its own key, as a
   * CheckedIn record with the typed classroom number and information, even empty ones.
   */
  lemma AddedDocumentReadsBack(st: ViewState, newId: Uuid, result: WriteResult, freshId: string -> Uuid)
    requires PasswordAccepted(st.password)
    ensures var w := AddClass(st, newId, result).write.wrapped;
      ParseDocument(Document(w.path.documentID, w.fields), freshId)
        == Some(ClassData(newId, st.newClassroomNumber, st.newInformation, "CheckedIn"))
  {
    ParseUuidString(newId);
  }

  /**
   * Once a snapshot holding the added document arrives, the new record is in the
   * roster, and it is listed whenever it matches the search text.
   */
  lemma AddedRecordAppearsAfterSnapshot(st: ViewState, newId: Uuid, result: WriteResult, docs: seq<Document>, freshId: string -> Uuid)
    requires PasswordAccepted(st.password)
    requires var w := AddClass(st, newId, result).write.wrapped;
      Document(w.path.documentID, w.fields) in docs
    ensures var added := ClassData(newId, st.newClassroomNumber, st.newInformation, "CheckedIn");
      var next := ApplySnapshot(AddClass(st, newId, result).state, Some(docs), freshId);
      && added in next.classData
      && (RosterView.MatchesSearch(next.searchText, added) ==> added in DisplayedRecords(next))
  {
    AddedDocumentReadsBack(st, newId, result, freshId);
  }

  /** A snapshot replaces the roster outright: what was mirrored before does not matter. */
  lemma SnapshotReplacesRoster(st1: ViewState, st2: ViewState, docs: seq<Document>, freshId: string -> Uuid)
    ensures ApplySnapshot(st1, Some(docs), freshId).classData == ApplySnapshot(st2, Some(docs), freshId).classData
  {
  }

  /**
   * Of two deliveries the later one decides the roster, whatever the earlier one
   * held and whatever fallback identifiers either delivery drew.
   */
  lemma SnapshotLastDeliveryWins(st: ViewState, first: Optional<seq<Document>>, docs: seq<Document>,
                                 freshId1: string -> Uuid, freshId2: string -> Uuid)
    ensures ApplySnapshot(ApplySnapshot(st, first, freshId1), Some(docs), freshId2)
      == ApplySnapshot(st, Some(docs), freshId2)
  {
  }

  /**
   * Delivering the same snapshot again changes nothing, even though each delivery
   * draws its own fallback identifiers, provided every well-formed document is
   * keyed by UUID text (so no fallback is used).
   */
  lemma SnapshotIdempotent(st: ViewState, snapshot: Optional<seq<Document>>,
                           freshId1: string -> Uuid, freshId2: string -> Uuid)
    requires snapshot.Some? ==> AllKeysAreUuidText(snapshot.wrapped)
    ensures ApplySnapshot(ApplySnapshot(st, snapshot, freshId1), snapshot, freshId2)
      == ApplySnapshot(st, snapshot, freshId1)
  {
    if snapshot.Some? {
      ParseDocumentsIgnoresFallback(snapshot.wrapped, freshId1, freshId2);
    }
  }

  /** Deleting the same record twice, both acknowledged, leaves the roster as one delete does. */
  lemma DeleteTwiceIsDeleteOnce(st: ViewState, data: ClassData)
    ensures var once := DeleteClass(st, data, Acknowledged).state;
      DeleteClass(once, data, Acknowledged).state == once
  {
    RemoveAllByIdIdempotent(st.classData, data.id);
  }
}
