# Velvet check-in roster, modelled in Dafny

The Velvet app has an employee check-in screen, `EmployeeCheckinView`. It shows a
roster of `ClassData` records (member or classroom number, information text,
status). The roster mirrors the remote "Classrooms" document collection. Each row
has two buttons: one cycles the status, one deletes the record. A form at the foot
adds a record. All three mutations need the shared passphrase. A search box filters
the list and a button flips the sort order.

This project models that logic as pure functions over immutable values:

- `optionals.dfy` (`Optionals`): Swift's `Optional` and its `??` fallback.
- `sequences.dfy` (`Sequences`): order-preserving `Filter` and the subsequence relation.
- `strings.dfy` (`Strings`): the sort order on strings and the case-insensitive
  containment test used by the search box.
- `uuids.dfy` (`Uuids`): record identifiers, `uuidString` and `UUID(uuidString:)`.
- `status_cycle.dfy` (`StatusCycle`): the status texts and the toggle cycle.
- `roster.dfy` (`Roster`): records and documents, reading a snapshot, and the local
  patches after an acknowledged status write or delete.
- `roster_view.dfy` (`RosterView`): the filtered and sorted list the screen shows.
- `checkin_view.dfy` (`CheckinView`): the screen as a state machine. Its operations
  are toggle, delete, add, snapshot delivery and the sort toggle.

Each mutating operation returns a `Step`: the new state and the remote write it
issued, if any. The remote store's answer to that write (`Acknowledged` or
`Failed`) is a parameter. The completion handler's local effect is applied in the
same step.

Behaviour of the code worth noting:

- The third status is stored as the text `"On Break"`, with a space.
- A toggle of an identifier that is not in the roster still issues the merge write.
  The local patch then changes nothing, and nothing reports the miss.
- An acknowledged delete removes every local record with that identifier at once.
  It does not wait for the next snapshot.
- Add returns nothing. It clears the two input fields once the write is acknowledged.
- Toggle and delete address the document named by the record's `uuidString`, which
  is upper-case. A record read from a key that is lower-case UUID text, or not UUID
  text at all, is therefore written and deleted under a different key, and its own
  document never changes (`CheckinView.WritesAddressOwnDocumentIffCanonicalKey`).
- A document whose key is not UUID text gets a new random identifier on every
  snapshot delivery.

## Model

| member | source | states |
|---|---|---|
| CheckinView.PasswordAccepted | Velvet/ContentView.swift:173 | a password passes the guard exactly when it is the text `mrhs` (the same guard is at lines 204 and 239) |
| StatusCycle.ParseStatus | Velvet/ContentView.swift:179-183 | a text is recognised exactly when it is the spelling of one of the three statuses, and then it is that spelling |
| StatusCycle.NextStatus | Velvet/ContentView.swift:178-185 | the next status is always one of the three recognised texts and never the current text |
| StatusCycle.NextStatusFollowsCycle | Velvet/ContentView.swift:178-185 | the text switch equals one step of the cycle CheckedIn, CheckedOut, On Break; any other text goes to CheckedIn |
| StatusCycle.NextStatusPeriod | Velvet/ContentView.swift:178-185 | three toggles bring a recognised status back to itself |
| StatusCycle.NextStatusEventuallyPeriodic | Velvet/ContentView.swift:178-185 | after one toggle, any text (recognised or not) repeats every three toggles |
| Uuids.ParseUuid | Velvet/ContentView.swift:232 | a document key gives an identifier exactly when it is 36 characters with dashes at 8, 13, 18 and 23 and hex digits elsewhere; each digit is the key's digit, either case |
| Uuids.UuidString | Velvet/ContentView.swift:187 | `uuidString` is 36 characters of canonical UUID text, upper-case, whose i-th digit spells the identifier's i-th digit (also used at lines 209 and 247) |
| Uuids.KeyIsUuidStringIffCanonical | Velvet/ContentView.swift:232 | a key that reads as an identifier is that identifier's `uuidString` exactly when it is spelled upper-case |
| Uuids.ParseUuidString | Velvet/ContentView.swift:232 | the key written for an identifier reads back as that same identifier |
| Uuids.UuidStringInjective | Velvet/ContentView.swift:187 | different identifiers are stored under different document keys |
| Uuids.CanonicalTextRoundTrip | Velvet/ContentView.swift:232 | an upper-case key that reads as an identifier is exactly that identifier's key |
| Roster.StringField | Velvet/ContentView.swift:226-228 | a field is read as text exactly when it is present and holds a string, and then it is that string |
| Roster.RecordId | Velvet/ContentView.swift:232 | the record's identifier is the one UUID key text spells, so an upper-case key is its `uuidString`; any other key gets the fallback identifier |
| Roster.ParseDocument | Velvet/ContentView.swift:225-233 | a document gives a record exactly when all three fields are strings; the record's fields equal the document's fields; its identifier is the key read as a UUID, or the supplied fresh identifier when the key is not UUID text |
| Roster.ParseDocuments | Velvet/ContentView.swift:225-234 | the parsed roster is no longer than the snapshot and contains the record of every well-formed document |
| Roster.ParseDocumentsInOrder | Velvet/ContentView.swift:225-234 | the k-th record is read from the k-th well-formed document, so only well-formed documents appear, in document order |
| Roster.ParseDocumentsIgnoresFallback | Velvet/ContentView.swift:232 | when every well-formed document is keyed by UUID text, the parsed roster does not depend on the fallback identifiers |
| Roster.ParseDocumentsMembers | Velvet/ContentView.swift:225-234 | a record is in the parsed roster exactly when some document of the snapshot reads as it |
| Roster.FirstIndexOf | Velvet/ContentView.swift:198 | the index found holds the identifier and no earlier record does; no index means no record has it |
| Roster.UpdateClassDataStatus | Velvet/ContentView.swift:197-201 | only the first record with the identifier takes the new status; length, order, other fields and other records are kept; with no match the roster is unchanged |
| Roster.RemoveAllById | Velvet/ContentView.swift:213 | exactly the records with other identifiers remain, each as often as before, in their original relative order |
| Roster.RemoveAllByIdIdempotent | Velvet/ContentView.swift:213 | removing the same identifier twice is removing it once |
| Roster.MergedStatusReadsBack | Velvet/ContentView.swift:188 | merging a status field into a well-formed document reads back as the same record with the new status |
| Strings.Less | Velvet/ContentView.swift:42 | the order never puts a string before itself and puts a proper prefix first |
| Strings.LessTrichotomy | Velvet/ContentView.swift:42 | any two classroom numbers are equal or ordered one way or the other |
| Strings.LessTransitive | Velvet/ContentView.swift:42 | the classroom-number order is transitive |
| Strings.ContainsIgnoringCase | Velvet/ContentView.swift:41 | the search test holds exactly when the query occurs at some offset of the text, ignoring ASCII case |
| Strings.ContainsIgnoresQueryCase | Velvet/ContentView.swift:41 | the search result does not depend on the case of the query |
| RosterView.MatchesSearch | Velvet/ContentView.swift:41 | a record matches exactly when the search text is empty or occurs in its classroom number, ignoring case |
| RosterView.FilterBySearch | Velvet/ContentView.swift:41 | exactly the records that match the search text remain, with their multiplicity, in roster order |
| RosterView.EmptySearchKeepsAll | Velvet/ContentView.swift:41 | empty search text keeps the roster unchanged |
| RosterView.InIncreasingOrder | Velvet/ContentView.swift:42 | records with equal classroom numbers are never put in order; a proper prefix comes first ascending and last descending |
| RosterView.Insert | Velvet/ContentView.swift:42 | inserting into a sorted list keeps it sorted and adds exactly that record |
| RosterView.SortByClassroom | Velvet/ContentView.swift:42 | the sorted list is a permutation of its input ordered by classroom number, ascending or descending per the flag |
| RosterView.SortSortedIsIdentity | Velvet/ContentView.swift:42 | a list already in order is left exactly as it is |
| RosterView.Displayed | Velvet/ContentView.swift:40-42 | the shown list is sorted and holds exactly the matching records of the roster, each as often as in the roster |
| RosterView.DisplayedIdempotent | Velvet/ContentView.swift:40-42 | filtering and sorting the shown list again changes nothing |
| RosterView.EmptySearchShowsAll | Velvet/ContentView.swift:40-42 | with empty search text the shown list is a permutation of the whole roster |
| CheckinView.DisplayedRecords | Velvet/ContentView.swift:40-42 | the screen lists the records of the state matching its search text, each as often as in the roster, sorted in its direction |
| CheckinView.InitialState | Velvet/ContentView.swift:21-32 | the screen starts with an empty roster and ascending sort |
| CheckinView.PathOf | Velvet/ContentView.swift:187 | a record's document is in the Classrooms collection under the upper-case `uuidString` of its identifier, which reads back as that identifier |
| CheckinView.ToggleClassStatus | Velvet/ContentView.swift:172-195 | without the passphrase nothing is written or changed; otherwise a merge write of the next status goes to the record's document; a failed write changes nothing; an acknowledged write applies the first-match status patch; only record statuses can change |
| CheckinView.DeleteClass | Velvet/ContentView.swift:203-216 | without the passphrase nothing is written or changed; otherwise the record's document is deleted; on acknowledgement the roster becomes the `removeAll` result, keeping exactly the records with other identifiers, as often as before, in order; a failed write changes nothing |
| CheckinView.AddClass | Velvet/ContentView.swift:238-258 | without the passphrase nothing is written or changed; otherwise a full write of the typed number and information with status CheckedIn goes to the new identifier's document; the roster is never changed locally; acknowledgement clears only the input fields |
| CheckinView.ApplySnapshot | Velvet/ContentView.swift:218-236 | a listener error keeps the state; a snapshot replaces only the roster, which becomes exactly the records of the well-formed documents, one each, in document order |
| CheckinView.ToggleSortOrder | Velvet/ContentView.swift:163-165 | the sort button flips the direction and changes nothing else |
| CheckinView.WrongPasswordIsInert | Velvet/ContentView.swift:173-176 | without the passphrase toggle, delete and add (lines 204-207 and 239-242 as well) issue no write and leave the state unchanged |
| CheckinView.ToggleAtFirst | Velvet/ContentView.swift:188-201 | an acknowledged toggle of a record at its identifier's first position advances that record's status alone |
| CheckinView.ToggleThriceRestores | Velvet/ContentView.swift:178-201 | three acknowledged toggles of a record with a recognised status restore the whole state |
| CheckinView.ToggleAgreesWithNextSnapshot | Velvet/ContentView.swift:187-201 | for a record read from the document the toggle writes, that document with the merge applied reads back as the same record with the next status, the value the local patch gives it |
| CheckinView.WritesAddressOwnDocumentIffCanonicalKey | Velvet/ContentView.swift:187-232 | the toggle and delete of a record read from a document address that document exactly when its key is upper-case UUID text |
| CheckinView.AddedDocumentReadsBack | Velvet/ContentView.swift:244-250 | the document an add writes reads back as a CheckedIn record with the new identifier and the typed fields, empty or not |
| CheckinView.AddedRecordAppearsAfterSnapshot | Velvet/ContentView.swift:225-250 | after a snapshot holding the added document, the new record is in the roster, and it is shown whenever it matches the search text |
| CheckinView.SnapshotReplacesRoster | Velvet/ContentView.swift:225 | the roster after a snapshot does not depend on the roster before it |
| CheckinView.SnapshotLastDeliveryWins | Velvet/ContentView.swift:225 | of two deliveries the later decides the roster, whatever the earlier held and whatever fallback identifiers either drew |
| CheckinView.SnapshotIdempotent | Velvet/ContentView.swift:225-234 | redelivering a snapshot changes nothing, even with new fallback identifiers, when every well-formed document is keyed by UUID text |
| CheckinView.DeleteTwiceIsDeleteOnce | Velvet/ContentView.swift:209-214 | a second acknowledged delete of the same record changes nothing |

## Left out

- Remote store calls (`setData`, `delete`, `addSnapshotListener`, `listener?.remove()`): third-party I/O. Writes are returned as values, their outcomes are parameters, and snapshots are passed in as document lists.
- Interleaving of completion handlers with other events: each write's handler runs in the same step as the write. The pure patches `Roster.UpdateClassDataStatus` and `Roster.RemoveAllById` can be applied to any later roster.
- The remote store's merge semantics are assumed to be "given fields overwrite, others are kept" (`Roster.MergeFields`). Concurrent writes from several devices and last-write-wins ordering belong to the store and are not modelled.
- UUID generation (`UUID()` on lines 232 and 244): the new identifier of an add is a parameter. The fallback identifier for a key that is not UUID text is `freshId(documentID)`. This is exact as long as document keys in one snapshot are distinct, which the store guarantees.
- Strings.ContainsIgnoringCase: models `localizedCaseInsensitiveContains` as substring search after folding ASCII A-Z to lower case. It has no locale rules, no Unicode case folding and no normalisation. It is consulted only for non-empty search text, so its answer for an empty query does not matter.
- CheckinView.SnapshotIdempotent: is stated only for snapshots whose well-formed documents all have UUID text keys, because line 232 draws a new `UUID()` for every other document on every delivery, so redelivery changes their identifiers.
- Strings.Less: models Swift's `String <` as lexicographic order on code points, without Unicode canonical equivalence.
- RosterView.SortByClassroom: the model sorts stably (insertion sort). Swift's `sorted(by:)` promises only an ordered permutation, and that is all the contract states.
- Uuids.ParseUuid: `UUID(uuidString:)` belongs to Foundation, not to this repository. It is modelled as the usual `uuid_parse` rule: 36 characters, dashes at fixed offsets, hex digits of either case. Embedded NUL characters are not considered.
- The passphrase field, search text and input fields are plain state. Typing into them is ordinary assignment and is not modelled as operations.
- `isAddingClass`, `isAnimating`, `showConfirmation`, `isPasswordVisible`, `actualPassword`, the status colours (line 63), navigation and all other SwiftUI layout: presentational.
- `print` diagnostics on errors: logging only.
- Velvet/JobHome.swift, Velvet/JobDetailView.swift, Velvet/Login.swift and Velvet/VelvetApp.swift: job catalogue views, floating-point scroll geometry, `UserDefaults` persistence, a login screen that only prints, and app configuration. None of them touches the roster.
