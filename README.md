# Secret Santa picker, modelled in Dafny

This project models the core of a small Angular and Firestore application for a
gift exchange.

- **Roster screen.** Names are typed one at a time, trimmed and staged, then written
  to the `people` collection. The `People` service reads that collection back, adds
  documents, and removes every document with a given name.
- **Picker screen.** A giver types their name and starts. The picker looks in the
  `assignments` ledger for a record of theirs, to show its receiver. The lookup as
  written never finds one (see Findings), so a returning giver gets a fresh pool. The
  model uses the intended by-name lookup instead. When no record is found, the picker
  lays out one face-down chit per person the giver may still draw. Those are the roster
  entries other than the giver's own name and other than anyone already drawn.
  Turning a chit over appends one (giver, receiver) record to the ledger.

Records are encrypted before they are stored. The stored form is a random 16-byte salt,
a random 12-byte IV and the AES-GCM ciphertext, packed one after the other. `decrypt`
splits that buffer at offsets 16 and 28.

## Modules

- `Text` (text.dfy): `String.prototype.trim` over the ECMAScript white-space set, and
  blankness. Proved: trimming is idempotent, and a string is blank exactly when every
  character is white space.
- `Seqs` (seqs.dfy): an order-preserving `filter`, with lemmas about membership,
  multiplicity, kept positions, keep-all, keep-none and congruence.
- `Ledger` (ledger.dfy): the decoded ledger, the lookup of a giver's record, the pool
  filter, and the allocation invariant ("no self-assignment" and "distinct receivers").
- `Codec` (codec.dfy):
  - the salt‖iv‖ciphertext layout, packed into an array the way `Uint8Array.set` does;
  - the split, with `slice`'s clamping;
  - an abstract cipher (`seal`/`open`, with only "open inverts seal" assumed);
  - the giver query as the code writes it.
- `Store` (store.dfy): the two Firestore collections as an in-memory object. Documents
  get distinct numeric ids.
- `PeopleService` (people.dfy): the `People` service.
- `StagingList` (people_list.dfy): the `PeopleList` staging list.
- `PickerComponent` (picker.dfy): the `Picker` component and its chits.
- `Scenario` (scenario.dfy): walk-throughs of the flow on the rosters Alice, Bob, Carol
  and Bob, Bob, verified from the operations' contracts alone.

## How the model reads the ledger

The ledger is kept as decoded names. This is justified by
`Codec.DecodeEncodeAssignment`: if `open` inverts `seal`, a record written by
`revealChit` decodes back to its (giver, receiver) pair, whatever the salts and IVs.

The picker looks a giver up through `Ledger.FindGiver`, a match on names. The query in
the code cannot find a stored record (see Findings), so the model uses the intended
by-name lookup instead.

Failures are modelled as follows:

- A rejected Firestore or crypto call inside the `try` of `loadData` or `revealChit` is
  the `fault` parameter. After a fault, `loadData` only clears `loading`.
- After a fault in `revealChit`, the chit stays turned over and nothing is written.

## What the code does not guarantee

- `revealChit` has no conditional append, no transaction and no re-validation before
  the write. `RevealChit` appends whatever chit it is given.
- Only `chit.revealed` is tested, so a giver can turn over several chits and append
  several records. Nothing keeps one record per giver.
- The ledger stays consistent only while each draw comes from a pool computed against
  the ledger as it is at that moment. This is `Ledger.DrawKeepsConsistent` and the last
  postcondition of `RevealChit`.
- The pool keeps roster duplicates, so consistency can break even within one load.
  On the roster Bob, Bob, Alice's pool is [Bob, Bob] (`Ledger.StalePoolRepeatsReceiver`).
  `Scenario.DuplicateRosterDrawnTwice` loads that roster, turns over both chits through
  `RevealChit`, and ends with two ledger records whose receiver is Bob.
- After Alice draws Bob, Bob's pool on the roster Alice, Bob, Carol is [Alice, Carol]
  (`Ledger.BobAfterAliceDrawsBob`). Nobody has drawn Alice, and only Bob's own name is
  removed for him.
- The pool filter and the invariant compare names as typed, while `start` tests only
  the trimmed name. A giver who types " Alice" is shown the roster entry "Alice", and the
  ledger where " Alice" drew "Alice" still counts as consistent
  (`Ledger.UntrimmedGiverDrawsSelf`).

## Model

| member | source | states |
|---|---|---|
| Text.TrimStart | src/app/people-list/people-list.ts:32 | the result is a suffix of the input; every character dropped is white space; a non-empty result starts with a non-space |
| Text.TrimEnd | src/app/people-list/people-list.ts:32 | the result is a prefix of the input; every character dropped is white space; a non-empty result ends with a non-space |
| Text.TrimBounds | src/app/people-list/people-list.ts:32 | `trim()` returns a slice of the input; outside the slice there is only white space, and the slice's ends are not white space |
| Text.Trim | src/app/people-list/people-list.ts:32 | `trim()` is no longer than its input, and a non-empty result starts and ends with a non-space |
| Text.IsBlank | src/app/picker/picker.ts:182 | no ensures of its own: `!s.trim()`; `Text.BlankIffAllWhitespace` characterises it |
| Text.TrimIdempotent | src/app/people-list/people-list.ts:32-34 | trimming a trimmed string changes nothing, so staged names are their own trim |
| Text.BlankIffAllWhitespace | src/app/picker/picker.ts:182 | `!s.trim()` holds exactly when every character of `s` is white space |
| Text.TrimOfNonBlankIsName | src/app/people-list/people-list.ts:32-34 | the trim of a non-blank input is non-empty and trimmed |
| Ledger.Receivers | src/app/picker/picker.ts:221-226 | one receiver per ledger record, in ledger order |
| Ledger.FindGiverFrom | src/app/picker/picker.ts:195-203 | returns the first position at or after `from` whose giver is the name, or none when no record from there on has that giver |
| Ledger.FindGiver | src/app/picker/picker.ts:192-203 | the giver's first record if any; none exactly when no record has that giver (both directions) |
| Ledger.Pool | src/app/picker/picker.ts:232-234 | the pool is no longer than the roster, and every entry is on the roster, is not the giver's name and is nobody's receiver yet; `Ledger.PoolMembers`, `PoolMultiplicity` and `PoolPositions` give the converse, the counts and the order |
| Ledger.PoolMembers | src/app/picker/picker.ts:232-234 | a name is in the pool exactly when it is on the roster, differs from the giver's name and is nobody's receiver yet |
| Ledger.PoolMultiplicity | src/app/picker/picker.ts:232-234 | the pool keeps roster duplicates: an eligible name occurs as often as on the roster, an ineligible one not at all |
| Ledger.PoolPositions | src/app/picker/picker.ts:229-234 | the pool is the order-preserving subsequence of the roster made of exactly its eligible entries |
| Ledger.DrawKeepsConsistent | src/app/picker/picker.ts:228-273 | a receiver drawn from a pool computed against the current ledger is neither the giver nor an existing receiver, so appending the record keeps no-self-assignment and distinct receivers |
| Ledger.StalePoolRepeatsReceiver | src/app/picker/picker.ts:232-245 | with the roster [Bob, Bob] Alice's pool holds Bob twice, and the ledger of two (Alice, Bob) records, which `Scenario.DuplicateRosterDrawnTwice` reaches through `RevealChit`, does not have distinct receivers |
| Ledger.UntrimmedGiverDrawsSelf | src/app/picker/picker.ts:182-233 | a giver who types " Alice" has the roster entry "Alice" in their pool, and the ledger where " Alice" drew "Alice" is consistent |
| Ledger.BobAfterAliceDrawsBob | src/app/picker/picker.ts:232-234 | after Alice draws Bob, Bob's pool on the roster Alice, Bob, Carol is [Alice, Carol] |
| Codec.SetAt | src/app/picker/picker.ts:129-131 | `Uint8Array.set` copies the source at the offset and leaves the rest of the buffer unchanged |
| Codec.Combine | src/app/picker/picker.ts:128-131 | the new buffer holds the salt, then the IV, then the ciphertext |
| Codec.Slice | src/app/picker/picker.ts:145-147 | an in-range slice is the sub-sequence; an end past the length is clamped to it; a slice starting at or past the end, or ending before it starts, is empty |
| Codec.Split | src/app/picker/picker.ts:145-147 | the salt part is at most 16 bytes and the IV part at most 12; for a buffer of at least 28 bytes the parts are bytes 0-16, 16-28 and the rest |
| Codec.SplitLayout | src/app/picker/picker.ts:128-147 | splitting a packed buffer at 16 and 28 recovers exactly the 16-byte salt, the 12-byte IV and the ciphertext |
| Codec.SplitLossless | src/app/picker/picker.ts:145-147 | the three slices put back together give the buffer, whatever its length |
| Codec.Encrypt | src/app/picker/picker.ts:91-135 | the stored bytes are the fresh salt and IV, followed by the sealed plaintext under them |
| Codec.Decrypt | src/app/picker/picker.ts:138-179 | for a buffer of at least 28 bytes, decrypt opens the bytes from 28 on under the first 16 as salt and the next 12 as IV |
| Codec.DecryptEncrypt | src/app/picker/picker.ts:138-179 | decrypting what encrypt stored gives the plaintext back |
| Codec.SaltsDistinguish | src/app/picker/picker.ts:104-131 | two encryptions of the same name under different salts are different bytes |
| Codec.EncodeAssignment | src/app/picker/picker.ts:264-273 | the stored giver and receiver each carry the salt and IV of their own encryption |
| Codec.DecodeEncodeAssignment | src/app/picker/picker.ts:264-273 | a record written with separately salted giver and receiver decodes to that (giver, receiver) pair |
| Codec.QueryByCiphertext | src/app/picker/picker.ts:195-199 | the query returns exactly the stored records whose giver bytes equal the probe |
| Codec.FreshSaltQueryMisses | src/app/picker/picker.ts:192-201 | when the fresh salt differs from every stored giver's salt, the giver query as written finds nothing |
| Codec.ReturningGiverIsMissed | src/app/picker/picker.ts:192-211 | a giver's stored record decodes to them and the by-name lookup finds it, but the query as written, probing with a new salt, returns nothing |
| Store.Names | src/app/services/people.ts:14 | one name per document, in collection order |
| Store.Firestore.AddPersonDoc | src/app/services/people.ts:19 | appends one document with a new id after the existing ones; ids stay distinct |
| Store.Firestore.DeletePersonDoc | src/app/services/people.ts:35 | removes the document with that id and keeps the others in order |
| Store.Firestore.AddAssignmentDoc | src/app/picker/picker.ts:268-273 | appends exactly one record and leaves the earlier ones unchanged |
| PeopleService.WithoutName | src/app/services/people.ts:33-35 | the collection after removal is no longer than before, and every document left was there and has another name |
| PeopleService.MatchingIds | src/app/services/people.ts:33-35 | no more ids than documents; `PeopleService.MatchingIdsPositions` states which ids they are |
| PeopleService.MatchingIdsPositions | src/app/services/people.ts:33-35 | the ids to delete are those of exactly the documents with the name, in collection order |
| PeopleService.WithoutNameMembers | src/app/services/people.ts:33-35 | a document remains after removing `name` exactly when it was there and has another name |
| PeopleService.WithoutNamePositions | src/app/services/people.ts:33-34 | removal keeps exactly the documents with other names, in their order |
| PeopleService.WithoutAbsentName | src/app/services/people.ts:36 | removing a name that no document has changes nothing |
| PeopleService.DeletingMatchesRemovesName | src/app/services/people.ts:33-35 | with distinct ids, deleting the ids of the matching documents leaves exactly the documents with other names |
| PeopleService.People.LoadPeople | src/app/services/people.ts:12-15 | returns one name per document, in collection order |
| PeopleService.People.AddPerson | src/app/services/people.ts:17-20 | adds one document with that name after the existing ones |
| PeopleService.People.AddPeople | src/app/services/people.ts:22-27 | an empty list changes nothing; otherwise one document per entry, duplicates included, after the existing ones |
| PeopleService.People.DeleteAll | src/app/services/people.ts:35-37 | after deleting every id in the batch, exactly the documents with other ids remain |
| PeopleService.People.RemovePersonByName | src/app/services/people.ts:29-40 | deletes every document with the name, keeps the others in order, and with no match leaves the collection unchanged |
| StagingList.SpliceStart | src/app/people-list/people-list.ts:39 | `splice` starts at the index when it is in range; a negative index counts from the end, and one below `-len` starts at 0; an index at or past the end starts at `len` |
| StagingList.SpliceOne | src/app/people-list/people-list.ts:39 | `splice(index, 1)` removes one entry when the start is inside the list and none otherwise, and only removes entries |
| StagingList.SpliceAt | src/app/people-list/people-list.ts:38-40 | for an index in range exactly that entry is removed: one shorter, the others in order |
| StagingList.SplicePastEnd | src/app/people-list/people-list.ts:39 | an index at or past the end removes nothing |
| StagingList.SpliceKeepsEntries | src/app/people-list/people-list.ts:39 | with any index, only entries that were already there remain |
| StagingList.PeopleList.constructor | src/app/people-list/people-list.ts:15-16 | the input is empty and nothing is staged |
| StagingList.PeopleList.AddToStaged | src/app/people-list/people-list.ts:31-36 | blank input changes nothing; otherwise the trimmed name is appended and the input cleared; staged entries stay non-empty and trimmed |
| StagingList.PeopleList.RemoveStaged | src/app/people-list/people-list.ts:38-40 | the staged list becomes `splice(index, 1)` of the old one, and staged entries stay non-empty and trimmed |
| StagingList.PeopleList.AddPeople | src/app/people-list/people-list.ts:42-52 | an empty staged list changes nothing; otherwise one document per staged name is added and the staged list is emptied |
| PickerComponent.Chit.constructor | src/app/picker/picker.ts:239-245 | a new chit carries its name and is not revealed |
| PickerComponent.Picker.constructor | src/app/picker/picker.ts:36-42 | the component starts with an empty name, no chits, not started, not loading, no receiver |
| PickerComponent.Picker.Start | src/app/picker/picker.ts:181-185 | a name that is blank after trimming changes nothing; otherwise the picker sets `started` and loads |
| PickerComponent.Picker.LoadData | src/app/picker/picker.ts:187-256 | `loading` ends false on every path. An existing record shows its receiver and keeps the chits. Otherwise there is one fresh, distinct, unrevealed chit per pool entry, in order. A fault changes nothing else |
| PickerComponent.Picker.RevealChit | src/app/picker/picker.ts:258-279 | a revealed chit changes nothing; otherwise the chit is revealed and, unless the write fails, exactly one record (yourName, chit.name) is appended; a draw from the current pool keeps the ledger consistent |
| Scenario.AlicePool | src/app/picker/picker.ts:232-234 | Alice's pool on the roster Alice, Bob, Carol with an empty ledger is [Bob, Carol] |
| Scenario.NewExchange | src/app/services/people.ts:22-27 | adding Alice, Bob and Carol to an empty store gives those three names in that order |

## Left out

- Cryptography: PBKDF2 key derivation, AES-GCM encryption and decryption, and base64
  (`btoa`/`atob`) are built-in browser calls. Encryption is an abstract `seal`/`open`
  pair of which only "open inverts seal" is assumed. The stored form is kept as bytes.
- Random salts and IVs (`crypto.getRandomValues`) are parameters of `Codec.Encrypt`.
- Chit layout: `isOverlapping`, `generatePositions` and the rotation use floating point
  and `Math.random`. Chits carry only a name and the `revealed` flag.
- Firestore plumbing: queries, `getDocs`, `addDoc`, `deleteDoc`, async/await,
  `Promise.all`, `NgZone.run` and the RxJS streams.
  - The collections are in-memory sequences.
  - Document ids are distinct numbers from a counter.
  - `getDocs` returns documents in sequence order; Firestore orders them by document id.
- Timestamps: the `revealedAt` and `createdAt` fields (`Timestamp.now()`) are not
  stored.
- Concurrency: two sessions writing the ledger at the same time are not modelled. The
  code has no transaction or conditional write to model.
- `removePersonAndAssignments`, `deleteAllPeopleAndAssignments` and
  `deleteAllAssignments` are called by the roster screen, but their definitions are not
  part of this model. `PeopleList.removePerson`, `deleteAllPeople`,
  `deleteAllAssignments`, `loadPeople` (a refresh signal) and `goToPicker` are left out
  with them. They are confirmation dialogs, alerts, navigation and calls to those
  methods.
- Console logging, `ngOnInit` (empty) and the route table are left out.
- StagingList.PeopleList.AddPeople: only the success path is modelled. A failed write
  leaves the names staged and may have added some documents; that is not modelled.
- PeopleService.People.AddPeople: a `null` or missing list cannot be represented, so
  only the empty-list guard is modelled. Only the success path is modelled: a failed
  write can leave some of the names added while the Observable errors.
- PeopleService.People.RemovePersonByName: only the success path is modelled. A failed
  `getDocs` deletes nothing. A failed `deleteDoc` inside `forkJoin` makes the
  Observable error, possibly after only some of the matching documents were deleted.
- PeopleService.People.AddPerson: only the success path is modelled. A failed `addDoc`
  adds nothing and makes the Observable error.
- PeopleService.People.LoadPeople: only the success path is modelled. A failed
  `getDocs` makes the Observable error instead of returning names.
- StagingList.PeopleList.RemoveStaged: the index is an integer, so JavaScript's
  treatment of fractional or NaN indices is not modelled.
- Text.IsWhitespace: characters are Unicode scalar values, not UTF-16 code units, so
  lone surrogates are not modelled.

## Findings

| source | as written | input that shows it | evidently intended | confidence | as-written member | corrected member |
|---|---|---|---|---|---|---|
| src/app/picker/picker.ts:192-201 | The giver lookup queries `assignments` for `giver == encrypt(yourName)`. `encrypt` draws a new random salt (line 104) and IV (line 119) on every call, so the probe does not equal any stored giver. A returning giver is always treated as new, gets a fresh pool and can append a second record. | a giver who has revealed a chit starts again with the same name | find the giver's existing record by name and show its receiver | not executed | Codec.QueryByCiphertext (shown by Codec.FreshSaltQueryMisses and Codec.ReturningGiverIsMissed) | Ledger.FindGiver (used by PickerComponent.Picker.LoadData) |
