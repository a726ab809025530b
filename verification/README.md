# The vault engine, modelled and proved in Dafny

The program keeps secrets in one encrypted file. A session holds the decrypted index, a
partial cache of decrypted records, the keys, a next-id counter and the commit tag of the file
it last read or wrote. A save re-authenticates the file under a lock, renumbers the slots,
takes every record from the cache, from an empty placeholder (for a dead entry) or from a byte copy of
the old frame, charges an encryption counter, checks the size, frames everything and replaces
the file atomically. This project models that engine and proves what it keeps: over one save,
over one failing operation, over a crash at any moment, and over every interleaving of many
sessions on one file.

## How the project is built

- `Prelude`, `Crypto`: bytes, big-endian integers, results; the cipher suite as a record of
  functions with two laws only (opening inverts sealing under the same key, nonce and associated data; the
  ciphertext is 16 bytes longer). `Toy` and `Stamping` show the laws can be met. MAC, CRC and key derivation are arbitrary functions.
- `Header`, `Shape`, `ShapeIo`: the header, index and item codecs. The mutating
  buffer and cursor of the original are classes; their methods are proved equal to functions,
  and the functions are proved to be codecs.
- `Frames`: the frame splitter, against a relation that says what a decomposition of the items region is.
- `Image`: one file as bytes. `Preflight` decides everything that needs no
  randomness; `ImageOf` is the file a save then writes.
- `SaveProof`, `Reopening`, `Preservation`: what a save, an opening, a rotation, a password change and a
  migration mean.
- `Effects`: what a successful deletion, edit or addition does to the items of the file, and that it does nothing else.
- `Acceptance`, `AcceptedOps`: which saves, rotations, openings, verifications, additions, updates, deletions and imports are accepted, in
  numbers and without the code that accepts them. They speak of a session that is up to date with its file (`Acceptance.Follows`), as
  every session of every run is that has seen the last commit (`RecordHistory.MembersFollow`).
- `Random`, `Nonces`, `AtomicWrite`: the random source as a pool of bytes; which slice of it each nonce is;
  the write protocol on a file system with volatile and durable contents and directory entries. The file system records every state
  it passes through, so a statement about all recorded states is one about a crash after any effect.
- `Steps`: each operation as a relation between the states before and after, covering every failure.
- `SaveLoops`, `VaultSession`, `Lifecycle`, `Ops`: the session object and the operations, imperative, with loops and
  fields updated in place. Each method is proved to stay within its relation. In a calm environment (`Vault.Calm`: the file system works,
  no temporary file is in the way, enough randomness, lock free) the outcome is also determined: success exactly when the
  plan exists, else the plan's error, so a method that failed without reason would not satisfy its contract.
- `Failures`: what a failing operation undoes and what it does not.
- `History`, `HistoryProof`: many sessions over one file as a state machine, and its invariant.
- `Records`, `RecordHistory`, `Provenance`: the records of published files, what becomes of each record from commit to
  commit, and which operation a change comes from.
- `Staleness`: sessions that missed a commit. `PowerCuts`: histories in which the power fails, over the file system of `AtomicWrite`.
- `LegacyImages`: legacy files in both frame layouts, and what becomes of them.
- `Beginnings`: a migrated file as the start of a run. `Runs`, `LegacyRuns`: runs that exist, with commits
  whose tags differ, and a legacy file whose migrated tombstone loses its record.
- `Simulation`: the operations take no other steps than the state machine's.
- `ImportPlan`, `ImportProof`, `Importing`: the import planner, what an import leaves behind, and the whole way from
  the plan to the file.
- `Base64`, `Sampling`, `JsonExport`: three independent algorithms, the last with a JSON reader as its counterpart.

Lemma bodies and loops use `hide` to keep each proof small.

## What was found

- `commit_import` is documented (`src/vault/vault_impl.rs:415-419`) as keeping the prior state on failure. It does not: the adds and
  updates stay in memory. `Failures.ImportNotUndone` is a concrete case; `Failures.FailedImportUndoneIff` says exactly when the state is kept, for every failing import.
- `commit_entry` is documented (`src/vault/vault_impl.rs:476-478`) as restoring the session on failure. It does so if and only if the record was cached
  (`Failures.FailedEditUndoneIff`; `Failures.EditNotUndone` is a concrete case). Through `update_entry` it is when ids are distinct
  (`Ops.UpdateUndoneIff`). That opens the first live entry with the id while `commit_entry` works on the first entry with it, so with a dead entry
  and a live one of one id, which a migration does not refuse, a failing update leaves its record in the cache (`Ops.UpdateNotUndone`).
- A record that migration keeps in a tombstone's frame is replaced by the placeholder at the next save that does not
  have it cached (`Preservation.TombstoneRecordKeptIff`); `LegacyRuns.TombstoneReplaced` is such a legacy file, its migration and the save.
- An error after the rename leaves the new file in place; the session's tag is then stale and every later save of it is refused,
  whatever other sessions do meanwhile (`Staleness.FailedPublicationEndsSaving`).
- The clean-up at the end of `atomic_create_locked` removes whatever its temporary name refers to, also a file that was there before; the call
  then fails. In a working environment every file is kept if and only if the drawn name was free (`AtomicWrite.AtomicCreateLocked`);
  `AtomicWrite.OccupiedNameIsLost` is a concrete case.
- When the path names no directory, a successful write or creation is not yet durable: a crash may still bring exactly what it could
  bring before, or the new file (`AtomicWrite.AtomicWriteLocked`, `AtomicWrite.EntryAloneIsNotDurable`).
- The comment at `src/vault/atomic_write.rs:5-8` says a left-over temporary file is cleaned up by the next successful write. No code does that.
- `docs/VAULT_FORMAT.md:276-278` lists no directory sync before the rename; the code has one. `docs/VAULT_FORMAT.md:250` gives the key-derivation label 19 bytes; it has 20.
- The base64 decoder accepts texts whose spare bits are not zero, so it is not injective (`Base64.NotInjective`); `Base64.ReencodesIff` says when re-encoding gives the text back.

## Model

| member | source | states |
|---|---|---|
| SaveProof.SaveRefines | src/vault/vault_impl.rs:600-805 | For every session and file the preflight accepts: opening the bytes the save writes gives the session's entries in order, renumbered, each with its cached record, else the placeholder if dead, else the record the old file held for that id |
| SaveProof.NewFrameOpens | src/vault/vault_impl.rs:730-782 | Each new frame, whichever of the three sources it has, is a well-formed frame of the planned length and opens to the record the session stands for |
| SaveProof.CopiedFrame | src/vault/vault_impl.rs:771-781 | A frame copied byte for byte from the old file, found by item id, opens to what the old file held for that id |
| SaveProof.SealedFrameOpens | src/vault/vault_impl.rs:731-747 | Sealing a valid record and decrypting the frame under the same id returns the record |
| SaveProof.MovedFrameRefused | src/vault/vault_impl.rs:1050-1073 | The frame of one item never opens as another's, even under a cipher that lets the wrong associated data pass |
| SaveProof.SizeIsExact | src/vault/vault_impl.rs:661-687 | The length computed before any encryption is the length of the bytes written, for every mix of cached, placeholder and copied entries and every nonce, so the later size check never decides |
| SaveProof.SaveAuthenticates | src/vault/vault_impl.rs:784-789 | The written file passes authentication under the session's data key with the tag the session keeps |
| SaveProof.WrappedKeyOpens | src/vault/vault_impl.rs:697-710 | The wrapped data key in the new header opens under the wrapping key and the header's associated data |
| Reopening.SaveReopens | src/vault/vault_impl.rs:180-265 | Opening the saved file with the password gives the session after the save, with an empty cache, normalised states and the next id one above the maximum |
| Reopening.ImageReopens | src/vault/vault_impl.rs:180-265 | The same for any header the save started from: keys, parameters, algorithms, counter, entries, next id and tag are those that were written |
| Reopening.PasswordChanges | src/vault/vault_impl.rs:966-990 | After a password change the new password opens the file under the new parameters and salt to the same data key, and the list it stands for is the session's |
| Reopening.RotationReopens | src/vault/vault_impl.rs:913-963 | After a rotation the password opens the file: the new keys, parameters and salt, the algorithms, entries and next id as they were |
| Reopening.CreationReopens | src/vault/vault_impl.rs:98-167 | A created file opens with its password to an empty vault with counter 1 whose first id will be 1 |
| Reopening.MigrationReopens | src/vault/vault_impl.rs:279-338 | A migrated file opens with the password as a current one: new keys and parameters, the legacy algorithms, entries and next id |
| Reopening.OpenedChecks | src/vault/vault_impl.rs:180-265 | What opens carries the MAC and the checksum of its bytes, has key-derivation parameters within the limits, the key the password gives, as many frames as entries, and ids below the next one |
| Reopening.LegacyOpenedChecks | src/vault/vault_impl.rs:180-265 | A legacy file that opens carries the checksum of its body, and is opened with the key the password gives |
| Preservation.SavePublishesMeaning | src/vault/vault_impl.rs:730-803 | After any successful save the file holds the session's list, and every cached record is what the committed frame at its new slot opens to |
| Preservation.PlainSavePublishes | src/vault/vault_impl.rs:585-591 | The same for an ordinary save, with no condition on the session |
| Effects.DeletionTakesEffect | src/vault/vault_impl.rs:509-529 | After a successful deletion the item with the id is dead and empty in the file and in the session, and every other item has the id, state, title, username and record it stood for |
| Effects.EditTakesEffect | src/vault/vault_impl.rs:479-507 | After a successful edit the item with the id is live with exactly the new title, username and record, and every other item is what it was |
| Effects.AdditionTakesEffect | src/vault/vault_impl.rs:891-908 | After a successful addition the new item comes last under the next id, with exactly its title, username and record, and every other item is what it was |
| Acceptance.SaveIff | src/vault/vault_impl.rs:600-687 | A session up to date with its file has a plan for an ordinary save if and only if titles have at most 256 bytes and usernames 512, every cached record is within its limits, the counter reaches at most 2^24 and the file, frames that are only copied included, at most 64 MiB |
| Acceptance.PreflightIff | src/vault/vault_impl.rs:600-687 | The same for any header the save starts from |
| Acceptance.RotateIff | src/vault/vault_impl.rs:913-963 | It has a plan for a rotation if and only if nothing is unsaved, a key can be derived and everything fits when sealed afresh |
| Acceptance.PasswordIff | src/vault/vault_impl.rs:966-990 | It has a plan for a password change if and only if an ordinary save has one |
| Acceptance.OpenIff | src/vault/vault_impl.rs:434-461 | It opens exactly the live items |
| Acceptance.SnapshotIff | src/vault/vault_impl.rs:344-361 | It takes a snapshot exactly when nothing was added since the file was written |
| Acceptance.VerifiesIff | src/vault/vault_impl.rs:532-566 | It verifies the file exactly then |
| Acceptance.CurrentIff | src/vault/vault_impl.rs:1127-1148 | A file is taken for current exactly when its last 32 bytes are the MAC of all before them and the tag the session keeps, and the checksum of its body precedes them |
| AcceptedOps.AdditionAccepted | src/ops.rs:67-83 | An addition is valid, finds its id and has a plan exactly when ids are left and everything fits with the item in it |
| AcceptedOps.DeletionAccepted | src/vault/vault_impl.rs:509-529 | A deletion of a live item has a plan exactly when the file without its record fits |
| AcceptedOps.UpdateAccepted | src/ops.rs:85-156 | An update is refused unless the item is live; then it answers that nothing changed exactly when the patch changes nothing, and else succeeds exactly when what the item becomes is valid and fits |
| AcceptedOps.ImportAccepted | src/ops.rs:162-200 | An import is accepted exactly when every add is valid and finds an id, every update is valid and of a live item, and everything fits |
| RecordHistory.MembersFollow | src/vault/vault_impl.rs:795-804 | In every world that satisfies the invariant a session that has seen the last commit is up to date with the file, whatever it opened, edited or added since; the counter in the file is the ledger |
| Preservation.RemapIsABijection | src/vault/vault_impl.rs:795-803 | Renumbering neither drops nor merges a cached record: it carries each one to the new slot of its entry |
| Preservation.RotationPreserves | src/vault/vault_impl.rs:913-963 | After a rotation every item has its id, state and metadata and every live item its record under the new data key; every frame was sealed, none copied |
| Preservation.NothingToCopy | src/vault/vault_impl.rs:771-781 | With every live entry cached the copy branch is unreachable |
| Preservation.TombstoneRecordKeptIff | src/vault/vault_impl.rs:748-757 | A record kept in a dead entry's frame survives a save if and only if it is cached or was the placeholder |
| Preservation.MigratedTombstoneLost | src/vault/vault_impl.rs:748-757 | A dead entry's record that a migration carried over is in the migrated file, and after the first save of the reopened session the placeholder is in its place |
| LegacyRuns.TombstoneReplaced | src/vault/vault_impl.rs:279-338 | For every lawful suite a concrete legacy file with such a record, its migration, and the save that replaces it |
| LegacyImages.LegacyImageOpens | src/vault/vault_impl.rs:180-265 | A legacy file of any session whose entries are all sealed, in either frame layout, opens with the password to that session and is cut into the frames it holds; the first reserved byte decides the layout |
| LegacyImages.LegacyImageReads | src/vault/vault_impl.rs:1030-1074 | Every entry of it opens its own frame, to the record that was sealed |
| LegacyImages.LegacyMigrates | src/vault/vault_impl.rs:279-338 | Every such file can be migrated, to any parameters for which a key can be derived |
| LegacyImages.LegacyMigration | src/vault/vault_impl.rs:279-338 | Its migration succeeds with a current file that holds exactly the items that were filed, states normalised |
| LegacyImages.BothLayoutsMigrate | src/vault/vault_impl.rs:229-233 | One session filed in both layouts: both files open to the same session, hold the same ciphertexts and tags, and are migrated under any keys and parameters to vaults with the same items and next id |
| Preservation.MigrationPreserves | src/vault/vault_impl.rs:279-338 | Migration gives a file that stands for exactly the legacy list: ids, states, metadata and every record, those of tombstones included; the next id is one above the maximum and no target is replaced |
| Preservation.LayoutsOpenAlike | src/vault/vault_impl.rs:1030-1074 | A combined-tag frame and the separate-tag frame of the same sealed record decrypt alike, errors included |
| Preservation.LayoutsMeanTheSame | src/vault/vault_impl.rs:846-889 | Two lists of frames that hold the same sealed records, one in each layout, stand for the same items under one key and index |
| Preservation.LegacyFilesMeanTheSame | src/vault/vault_impl.rs:846-889 | Two legacy files of one vault that differ in the frame layout only stand for the same list |
| Preservation.MigrationsAgree | src/vault/vault_impl.rs:279-338 | Migrating either of two such files, under any keys and passwords, gives files with the same contents and sessions with the same next id |
| Steps.SlotsAreABijection | src/vault/vault_impl.rs:541-558 | When every entry opened its own frame and the counts agree, every frame belongs to exactly one entry |
| Failures.FailedDeletionUndone | src/vault/vault_impl.rs:509-529 | A failing deletion leaves entries, cache, keys, counter, next id and tag as before; the file is the old one or the complete image of the deletion under the header the file had |
| Failures.FailedEditUndoneIff | src/vault/vault_impl.rs:479-507 | A failing edit is undone if and only if the record was cached; otherwise exactly the uncommitted record stays in the cache; the file is the old one or the complete image of the edit under the header the file had |
| Failures.EditNotUndone | src/vault/vault_impl.rs:479-507 | A concrete failing edit that leaves its record in the cache |
| Failures.FailedImportUndoneIff | src/vault/vault_impl.rs:420-432 | A failing import leaves the session as it was if and only if it had no adds and its updates change nothing, or had adds and no id was left for the first |
| Failures.NoRoomToAdd | src/vault/vault_impl.rs:891-908 | With no id left the first add fails and the session stays as it was |
| Failures.ImportNotUndone | src/vault/vault_impl.rs:415-432 | A concrete failing import that leaves its add in memory |
| Failures.StaleSessionRefused | src/vault/vault_impl.rs:578-584 | While the file carries another tag than the session keeps, an ordinary save of the session fails and changes nothing |
| Staleness.FailedPublicationIsStale | src/vault/vault_impl.rs:789-804 | A save that fails after its image was published leaves its session behind the last commit |
| Staleness.StaleStays | src/vault/vault_impl.rs:578-610 | No step but the session's own end changes that, and any save it finishes meanwhile fails with file and history untouched |
| Staleness.StaleForGood | src/vault/vault_impl.rs:578-610 | The same over every run: once behind, for good |
| Staleness.FailedPublicationEndsSaving | src/vault/vault_impl.rs:578-610 | In every run, every later save of a session whose save failed after publishing is refused |
| Failures.AddAllGrows | src/vault/vault_impl.rs:891-908 | The adds of an import get consecutive ids and the next free slots, live and cached, and disturb nothing else |
| HistoryProof.StepKeeps | src/vault/vault_impl.rs:600-805 | Every step of every session (open, read, edit, save, fail, give up, die mid-save) keeps the invariant of the whole system and only adds to the history |
| HistoryProof.RunKeeps | src/vault/vault_impl.rs:578-610 | Every world of every run satisfies the invariant, given distinct tags for distinct commits |
| HistoryProof.LinearHistory | src/vault/vault_impl.rs:578-610 | Over any interleaving the commits form one line: each decodes, ids keep their places, new ids come only at the end and above all others, no tombstone becomes live again |
| HistoryProof.GrownIdsIncrease | src/vault/vault_impl.rs:891-908 | In a vault grown from its creation the ids of every committed file strictly increase |
| HistoryProof.PublishesOverWhatItSaw | src/vault/vault_impl.rs:600-610 | A save publishes only over the file its session last read or wrote; any other save fails with the disk untouched |
| HistoryProof.SavesExclude | src/vault/atomic_write.rs:54-94 | At most one session is between reading the file and publishing, and what it read is still the file |
| HistoryProof.CounterIsTheLedger | src/vault/vault_impl.rs:625-646 | In every committed file of every run the counter is the number of index and item encryptions committed under its data key, at most 2^24; it goes on through password changes and restarts with a new data key |
| HistoryProof.ChargesAreSeals | src/vault/vault_impl.rs:625-636 | The entries charged are exactly those whose frames are sealed; copies cost nothing |
| HistoryProof.OpenedMatches | src/vault/vault_impl.rs:180-265 | A session opened on a commit with its wrapping key holds that commit's entries, data key, algorithm and tag, and a next id above all its ids |
| HistoryProof.PublishedCommit | src/vault/vault_impl.rs:600-805 | A save that published adds a commit that decodes, continues the one it replaces, and carries the next ledger value |
| RecordHistory.RecordsInRuns | src/vault/vault_impl.rs:600-805 | In every run every committed file can be read in full, and each record is the one its save had cached, else the placeholder if dead, else what the commit before held for that id |
| RecordHistory.CarriedOn | src/vault/vault_impl.rs:748-782 | From one commit to the next, a live item the save had not cached keeps its record, and a dead one that was not cached holds the placeholder |
| RecordHistory.RecordSurvives | src/vault/vault_impl.rs:748-782 | Over any number of commits an item's record stays what it was while no save has it cached and the item lives |
| RecordHistory.ReachableIndexIsCurrent | src/vault/vault_impl.rs:344-361 | In every reachable world a session that can take a snapshot of the file holds exactly that file's index |
| RecordHistory.RotationInRuns | src/vault/vault_impl.rs:913-963 | So every successful rotation of any session of any run keeps ids, states, metadata and live records |
| Provenance.RecordsChangeByName | src/vault/vault_impl.rs:730-803 | In every run, if a live item of a new file is not in the file before it with the same record, the session that published edited, added or imported that item, in that step or earlier; reading and rotating never change a record |
| Provenance.UnnamedIsKept | src/vault/vault_impl.rs:730-803 | From one commit to the next, a live item that the saving session did not name keeps its record, whether it was cached or copied |
| Provenance.SourcedStep | src/vault/vault_impl.rs:434-461 | Every step keeps this: a cached record that was not named is the one in the file its session last read or wrote |
| Provenance.NamedBefore | src/vault/vault_impl.rs:420-507 | A slot counted as named was named by some earlier step of that session |
| PowerCuts.HistoriesKeep | src/vault/vault_impl.rs:578-610 | With the power failing any number of times between steps, every world satisfies the invariant and its commits form one line, ledger included |
| PowerCuts.DurableForGood | src/vault/atomic_write.rs:131-140 | A commit whose save succeeded with the directory synced stays in the history through everything that follows, and no power cut brings back an older file |
| PowerCuts.SaveShows | src/vault/atomic_write.rs:104-140 | A disk on which the write protocol ran keeps showing the system's file, and after a crash only files that a power cut may leave |
| PowerCuts.CrashDuringSave | src/vault/atomic_write.rs:104-140 | Whatever file a crash in the middle of a save brings, the system comes to it by a power cut, or by the session dying with its image in place and a power cut |
| Records.ImageOpens | src/vault/vault_impl.rs:730-782 | Every frame of a published image opens, to the record its session stood for |
| Records.ItemsOf | src/vault/vault_impl.rs:180-265 | A good commit has one readable item for each entry, with the entry's metadata |
| Beginnings.MigrationBegins | src/vault/vault_impl.rs:315-338 | A migration of a legacy file with distinct ids publishes a commit under the new keys, charged with one encryption for each item and one for the index, and the one-commit world satisfies the invariant |
| Beginnings.MigratedRuns | src/vault/vault_impl.rs:315-338 | In every run that starts there the commits form one line, and each counter is the number of encryptions since the migration or the last new data key |
| Simulation.EntrySimulated | src/vault/vault_impl.rs:479-507 | A committed or failing edit is refused with the session as a failure leaves it, or is the outcome of a save of the state machine |
| Simulation.TombstoneSimulated | src/vault/vault_impl.rs:509-529 | The same for a deletion |
| Simulation.ImportSimulated | src/vault/vault_impl.rs:420-432 | The same for an import of a sound session with updates prepared by `apply_import`; when ids or slots run out it only adds in memory |
| Simulation.RotateSimulated | src/vault/vault_impl.rs:913-963 | The same for a rotation whose snapshot is one of the files there have been; without a snapshot nothing happens |
| Simulation.PasswordSimulated | src/vault/vault_impl.rs:966-990 | The same for a password change |
| Simulation.CreateSimulated | src/vault/vault_impl.rs:98-167 | The same for a creation, successful or not |
| Simulation.OperationSteps | src/vault/vault_impl.rs:578-610 | Every operation so described is a run of the state machine: no step, giving up, or beginning a save and finishing it, and it ends with the operation's file and session, no other session touched, one more commit exactly when it published |
| Simulation.OperationKeeps | src/vault/vault_impl.rs:578-610 | So every operation of an idle session keeps the invariant, given distinct tags |
| Simulation.CreationSteps | src/vault/vault_impl.rs:98-167 | A creation is a run too: a new session is born, then saves |
| Simulation.AppendSteps | src/vault/vault_impl.rs:420-424 | The adds of an import are a run: one step in memory each, up to the first that fails |
| Simulation.AddSteps | src/ops.rs:67-83 | An addition of one item is a run: an append in memory, then an ordinary save of the session as it then is |
| Runs.TwoSaves | src/vault/vault_impl.rs:98-167 | For every lawful suite there is a run from nothing that creates a file and saves it again; both files authenticate, and their counters are 1 and 2 |
| Runs.FreshFollows | src/vault/vault_impl.rs:789-804 | A session with any items, all cached or dead, that saves is up to date with the file it wrote, so what `Acceptance` says is about sessions that exist |
| Runs.DistinctTags | src/vault/vault_impl.rs:784-789 | There are a lawful suite and a run with two commits under one data key whose tags differ, so the assumption on tags can be met |
| VaultSession.Vault.SaveWithHeaderLocked | src/vault/vault_impl.rs:600-805 | Refused exactly as the preflight says, with nothing changed; else the whole new session state and the complete new file, or the old session and the old or new file; the header counter rises by the encryptions made; every nonce is its own slice of the random pool; in a calm environment it succeeds if and only if the preflight does and a first save finds no file, and for a session up to date with the file if and only if texts, records, counter and size are within their limits |
| VaultSession.Vault.WriteFile | src/vault/vault_impl.rs:600-794 | The part up to the publication changes nothing of the session and leaves the old or the complete new file |
| VaultSession.Vault.Assemble | src/vault/vault_impl.rs:689-788 | The buffer built field by field and frame by frame is the specified image, and exactly the charged encryptions are made |
| VaultSession.Vault.PublishImage | src/vault/vault_impl.rs:789-794 | A first publication never replaces a file; a crash at any recorded moment leaves the old or the complete new file |
| VaultSession.Vault.TakeOver | src/vault/vault_impl.rs:795-804 | Entries, cache, counter and tag move to the committed state, the cache by renumbering |
| VaultSession.Vault.SaveWithHeader | src/vault/vault_impl.rs:594-597 | The same as the locked save, or nothing when the lock is held; the lock is given back; a crash at any recorded moment, those of the lock file included, leaves the old or the complete new file |
| VaultSession.Vault.Save | src/vault/vault_impl.rs:585-591 | An ordinary save under the header the file has; a crash at any moment leaves the old or the complete new file; in a calm environment it succeeds if and only if its plan exists, else with the plan's error, and for a session up to date with the file if and only if texts, records, counter and size are within their limits |
| VaultSession.Vault.Open | src/vault/vault_impl.rs:434-461 | Success means that the file carries the MAC of its bytes and that the session knows it, also when the record was cached; the one change is the record the file holds at the entry's slot; a session up to date with a readable file opens exactly its live items |
| VaultSession.Vault.AddNew | src/vault/vault_impl.rs:891-908 | The new entry, its id and slot, and an id that is used up even when the slot number overflows |
| VaultSession.Vault.CommitEntry | src/vault/vault_impl.rs:479-507 | The edit is committed, or taken back as far as the code takes it back; a crash leaves the old or the complete new file (what it commits: `Effects.EditTakesEffect`) |
| VaultSession.Vault.CommitTombstone | src/vault/vault_impl.rs:509-529 | The deletion is committed or fully taken back; a crash leaves the old or the complete new file (what it commits: `Effects.DeletionTakesEffect`) |
| VaultSession.Vault.CommitImport | src/vault/vault_impl.rs:420-432 | All adds in order up to the first that fails, then all updates, then one save; a crash leaves the old or the complete new file |
| VaultSession.Vault.VerifyAllItems | src/vault/vault_impl.rs:532-566 | Unless the file cannot be read, succeeds if and only if the file is current and every entry opens its own frame with none left over; then the session knows the MAC of the file, and the counts are those of live and other entries; a session up to date with the file verifies it exactly when nothing is unsaved |
| VaultSession.Vault.LiveFromSnapshot | src/vault/vault_impl.rs:344-361 | All live records from one authenticated image, or the error of the first that fails |
| VaultSession.Vault.Rotate | src/vault/vault_impl.rs:913-963 | One commit under new salt, wrapping key and data key; on failure both keys and the configuration are as before; whenever the file changed, the new wrapping key is the one the password gives; a session up to date with the file succeeds in a calm environment if and only if nothing is unsaved, a key can be derived and the sealed items fit |
| VaultSession.Vault.SaveRekeyed | src/vault/vault_impl.rs:945-961 | The key swap, the save, and the swap back on failure |
| VaultSession.Vault.ChangePassword | src/vault/vault_impl.rs:966-990 | One commit under a new salt and wrapping key with the data key kept; on failure nothing of the session changes; whenever the file changed, the new wrapping key is the one the new password gives; a session up to date with the file succeeds in a calm environment if and only if a key can be derived and an ordinary save would fit |
| Image.MaxIdIsTheHighest | src/vault/vault_impl.rs:241-246 | The id an opened session goes on from is one above an id that some entry has and none exceeds |
| Image.NextIdIff | src/vault/vault_impl.rs:241-246 | A next id exists exactly when no id is the last one; it is 1 for an empty index, else one above an id and above all |
| Image.AadBinds | src/vault/vault_impl.rs:32-45 | The associated data of a frame determines its version and item id and is never that of an index |
| Lifecycle.OpenSession | src/vault/vault_impl.rs:180-265 | The session an image opens to, in the current and both legacy layouts, with every error case |
| Lifecycle.Create | src/vault/vault_impl.rs:98-167 | A new vault is published without replacing a file; a failing creation leaves a missing target missing or the complete new vault there; it always succeeds when the parameters are allowed, the target is missing and the environment is calm |
| Lifecycle.Migrate | src/vault/vault_impl.rs:279-338 | A migration under the target's lock; an existing target is untouched, a missing one stays missing or is the complete migrated vault when the call fails; it succeeds whenever the legacy file opens, every frame opens, the size fits and the environment is calm |
| Lifecycle.NewbornFits | src/vault/vault_impl.rs:98-167 | An empty vault always passes the preflight |
| Nonces.NoncesDiffer | src/vault/vault_impl.rs:695-776 | Within one save the wrapped key, the index and each encrypted item, be it one or many, take different nonces unless the random source repeats itself |
| Nonces.FileNonces | src/vault/vault_impl.rs:695-776 | So the saved file itself shows pairwise different nonces for its wrapped key, its index and every frame that was encrypted |
| SaveLoops.CandidateSize | src/vault/vault_impl.rs:667-687 | Stopping as soon as the running total passes the limit decides like adding everything up |
| SaveLoops.EmitFrames | src/vault/vault_impl.rs:729-782 | The frames in entry order after what was there, the number of encryptions, and the nonces drawn |
| SaveLoops.RemapItems | src/vault/vault_impl.rs:795-800 | Removing and inserting record by record is the renumbering map |
| SaveLoops.OpenEvery | src/vault/vault_impl.rs:541-558 | Succeeds if and only if slots are in range and distinct, and every frame opens under its entry's id |
| SaveLoops.CountFresh | src/vault/vault_impl.rs:625-633 | The number of entries to encrypt |
| SaveLoops.IndexById | src/vault/vault_impl.rs:613-618 | The slot of each id in the old index; the last entry with an id counts |
| AtomicWrite.AtomicWriteLocked | src/vault/atomic_write.rs:104-140 | In every recorded state, and after a crash in it, the target is the complete old or new file and every other existing name is undisturbed; success means the file is there with no other name changed, durable if the path names its directory, and otherwise a crash may bring exactly what it could before or the new file; when the path names its directory, the new file was durable under its temporary name before the target changed; it succeeds when nothing fails around it |
| AtomicWrite.Publish | src/vault/atomic_write.rs:131-140 | From a synced temporary file on, with the same guarantee: the directory is synced before the rename, so that the new file is already durable under its temporary name, and again after it |
| AtomicWrite.EntryAloneIsNotDurable | src/vault/atomic_write.rs:131-139 | From a staged file on, the entry for the target decides nothing until the directory is synced: a crash may bring exactly what it could bring before, or the new file |
| AtomicWrite.AtomicCreateLocked | src/vault/atomic_write.rs:154-184 | An existing target is never touched in any recorded state; a missing one becomes the complete file or stays missing; in a working environment every file is kept if and only if the name drawn from the random source was free, it succeeds if and only if target and name were free, and it leaves no temporary file |
| AtomicWrite.KeptIff | src/vault/atomic_write.rs:154-184 | When a creation returns, everything is kept if and only if its temporary name was free or nothing changed |
| AtomicWrite.OccupiedNameIsLost | src/vault/atomic_write.rs:154-184 | A concrete creation that fails and deletes a file which had the drawn name |
| AtomicWrite.SafeCrashes | src/vault/atomic_write.rs:104-140 | A crash after any effect leaves the target as it could be before, or new, and new only once the new file is in place |
| AtomicWrite.AcquireWriteLock | src/vault/atomic_write.rs:54-94 | One holder at a time; a held lock is refused; no file but the lock file is touched |
| Frames.SplitItemFrames | src/vault/vault_impl.rs:846-889 | Accepts exactly when a decomposition exists and returns it; at most file length / 16 + 1 rounds on every input, whatever count the file claims |
| Frames.FramingUnique | src/vault/vault_impl.rs:846-889 | A file has at most one decomposition into frames that fill the region between the slot count and the trailer and number as both stored counts say |
| Frames.TheFrames | src/vault/vault_impl.rs:846-889 | Frames laid end to end between matching counts are what the splitter finds |
| Shape.ItemCodec | src/vault/shape.rs:179-260 | For all byte strings and all records with valid text: parsing gives (record, id) exactly when serializing gives the bytes; so acceptance implies validity |
| Shape.ItemLenIsExact | src/vault/shape.rs:179-212 | The announced length of an item is its serialized length |
| Shape.RawIndexCodec | src/vault/shape.rs:99-160 | The index codec before states are normalised is a bijection in the same sense |
| Shape.IndexRoundTrip | src/vault/shape.rs:99-160 | Parsing a serialized index returns it with every state that is not live turned into tombstone |
| Shape.IndexReserialize | src/vault/shape.rs:130-160 | Re-serializing an accepted index gives the same bytes but for states, which are normalised |
| ShapeIo.SerializeIndex | src/vault/shape.rs:99-120 | The buffer pushed entry by entry is the serialized index, or the error of the first entry that does not fit |
| ShapeIo.SerializeItem | src/vault/shape.rs:179-212 | The buffer pushed field by field is the serialized item, or the error |
| ShapeIo.ParseIndex | src/vault/shape.rs:130-160 | The cursor walk gives the parsed index or its error, on every input |
| ShapeIo.ParseItem | src/vault/shape.rs:216-260 | The cursor walk gives the parsed item or its error, on every input |
| Header.HeaderCodec | src/vault/parse.rs:76-141 | Parsing a file gives a header exactly when the file begins with that header's bytes, its version is the expected one and its padding is zero |
| Header.AadIsHeaderRange | src/vault/parse.rs:52-65 | The associated data is bytes 4 to 51 of the built header |
| Header.BuildHeader | src/vault/parse.rs:123-141 | Copying field by field into the fixed array gives the header bytes |
| Header.HeaderAad | src/vault/parse.rs:52-65 | Copying field by field gives the associated data |
| Ops.AddEntry | src/ops.rs:67-83 | Nothing is attempted unless the item is valid; then one save; success means the file has the new item last, under the id returned, with its texts and stamped record, and every other item is what it was; a failing save leaves the item in memory |
| Ops.ApplyPatch | src/ops.rs:95-146 | The working copy edited field by field is the patched item, and the flag is set if and only if it differs |
| Ops.UpdateEntry | src/ops.rs:85-156 | No save without a change, no change of the session before the candidate is valid, else one commit; success means that in the file each field of the item is as the patch says (set, cleared or kept), the creation time kept, the time of change new, and every other item what it was; with distinct ids a failure leaves the session as it was opened; in a calm environment the exact answer |
| Ops.UpdateUndoneIff | src/ops.rs:85-156 | A failing update of a working copy is undone if and only if the first entry with the id is cached, and always when ids are distinct |
| Ops.UpdateNotUndone | src/ops.rs:85-156 | A concrete failing update, of a live entry that shares its id with a dead one, that is not undone |
| Steps.DistinctIdsAgree | src/vault/vault_impl.rs:434-507 | With distinct ids the first entry with an id is the first live one, if there is a live one |
| Ops.DeleteEntry | src/ops.rs:158-160 | One committed or undone deletion; success means that in the file and the session the item with the id is dead and its record gone, and every other item is what it was |
| Ops.ApplyImport | src/ops.rs:162-200 | The whole candidate is validated before anything changes, each update keeps the creation time, then one commit; in a calm environment the exact answer |
| Ops.CheckAdds | src/ops.rs:167-177 | All adds are valid and the ids suffice, or an error |
| ImportPlan.BuildPlan | src/cli/import.rs:210-286 | A record that alone has its title, and whose title exactly one live entry has, is among the updates with that entry's id and texts; every other record is among the adds; as many updates and adds as records, in file order; and exactly the ambiguous titles, once each, with their counts |
| ImportPlan.UpdatesIff | src/cli/import.rs:236-268 | A record updates exactly when it and one live entry match each other by title and nothing else does; the username does not matter |
| ImportPlan.AmbiguousIff | src/cli/import.rs:236-286 | A title is reported exactly when two records have it, or one live entry has it and the source only adds, or two live entries have it |
| ImportPlan.CollisionCountIs | src/cli/import.rs:270-286 | The count reported is the number of records with the title, or of live entries, or of both but one when the source only adds |
| ImportPlan.PlanIsExact | src/cli/import.rs:210-286 | The updates are the matches and no others, every other record is added, and none is lost |
| ImportPlan.PlanCoversFile | src/cli/import.rs:210-286 | Adds and updates are the file's records: record i is the next add or the next update after those before it |
| ImportPlan.UpdateTargets | src/cli/import.rs:236-268 | The target of an update is the only live entry with the record's title, which occurs once in the file |
| ImportPlan.UpdatesAreDistinct | src/cli/import.rs:236-268 | No two updates hit one item |
| ImportPlan.AddOnlyNeverUpdates | src/cli/import.rs:225-268 | Sources without identities of their own only add, in file order |
| ImportPlan.CountTitles | src/cli/import.rs:210-222 | How often each title occurs in the file |
| ImportProof.ImportPublishes | src/ops.rs:162-200 | After a successful import every old item keeps id, state, title and username and holds its update if it has one; the new items follow in order under consecutive ids; the file's live items are as many more than the session's as there are adds |
| ImportProof.UpdateKeepsCreation | src/ops.rs:179-192 | An installed update carries the creation time of the record it replaces |
| ImportProof.LiveInMeaning | src/ops.rs:162-200 | The live items of a file are as many as the live entries of the session it was written from |
| Importing.ApplyPlan | src/cli/import.rs:288-307 | The plan, item by item, as one validated commit |
| Importing.PlanPublishes | src/cli/import.rs:288-307 | From plan to file: the target of each planned update holds the planned record with the creation time it had, every other old item what the session stood for, then the new items in order; the live count rises by the adds |
| Importing.ImportRecords | src/cli/import.rs:80-168 | A dry run changes nothing; without consent only unambiguous adds under `--yes` go ahead, anything else is refused with nothing changed; a success leaves the file that `PlanPublishes` describes, a failure what the one commit leaves; in a calm environment the import that goes ahead has exactly the answer of its one commit |
| Importing.SoundSessions | src/vault/vault_impl.rs:795-803 | Every session of every run has the dense slots and distinct ids that `PlanPublishes` asks for |
| Base64.RoundTrip | src/clip/wsl.rs:44-112 | Decoding the encoding of any byte string returns it |
| Base64.EncodedLength | src/clip/wsl.rs:44-67 | The encoding of n bytes has 4 * ceil(n / 3) characters |
| Base64.WhitespaceIgnored | src/clip/wsl.rs:80-112 | Characters with the codes 9, 10, 12, 13 and 32 inserted anywhere do not change the decoding |
| Base64.AcceptsIff | src/clip/wsl.rs:80-112 | Accepted are exactly whole groups of letters with at most two padding characters, at the very end |
| Base64.ReencodesIff | src/clip/wsl.rs:80-112 | Encoding what was decoded gives the stripped text back if and only if its spare bits are zero |
| Base64.NotInjective | src/clip/wsl.rs:80-112 | Two different texts that decode alike |
| Base64.EncodeLoop | src/clip/wsl.rs:44-67 | The loop over shifted and masked bytes gives the base-64 digits of each 24-bit group |
| Base64.DecodeLoop | src/clip/wsl.rs:80-112 | The loop with its early ends is the group-wise decoder, on every text |
| Base64.ValueIff | src/clip/wsl.rs:69-78 | A character has a value exactly when it is in the alphabet |
| Sampling.RandomIndex | src/gen/mod.rs:49-65 | The index is the first accepted draw modulo the size, and the pool goes on right after it; an error only when no draw is accepted |
| Sampling.Pick | src/gen/mod.rs:67-75 | The string spelled by the first k accepted draws, an error exactly when there are fewer |
| Sampling.EveryIndexEquallyOften | src/gen/mod.rs:49-65 | Every index has exactly floor((2^32 - 1) / n) accepted draws |
| Sampling.AtMostHalfRejected | src/gen/mod.rs:49-65 | At most half of the 32-bit draws are rejected |
| Sampling.EveryStringEquallyLikely | src/gen/mod.rs:67-75 | Over distinct characters every string of length k is spelled by exactly floor((2^32 - 1) / n)^k sequences of accepted draws |
| JsonExport.Esc | src/cli/mod.rs:1407-1424 | The loop over characters gives the escaped text |
| JsonExport.StringRoundTrip | src/cli/mod.rs:1403-1478 | A reader following section 7 of RFC 8259 gets the text back and stops at the quote after it, whatever follows |
| JsonExport.ExportReadsBack | src/cli/mod.rs:1403-1478 | A JSON reader gets the whole item back from its exported block, under its id and with every field, whatever text the fields hold |
| JsonExport.ExportIs | src/cli/mod.rs:1464-1477 | The format string with its holes filled is one member of a JSON object: the id and the item as a value |
| JsonExport.ExportInjective | src/cli/mod.rs:1403-1478 | No two different items export alike |
| JsonExport.ValueBack | src/cli/mod.rs:1403-1478 | Every value laid out as the export does reads back, whatever follows it |
| JsonExport.ClosingQuote | src/cli/mod.rs:1403-1478 | The first unescaped quote after an escaped text is the closing one, so no field ends its own string early |

## Assumptions

- Sizes are those of a 64-bit machine, so `usize` sums of a few `u32` do not overflow.
- Distinct committed files have distinct tags (`History.NoTagCollision`; `Runs.DistinctTags` shows it can be met), and a session that opens a file does so with the wrapping key
  the file was written under; no unforgeability is claimed.
- One directory, and a lock that the operating system honours. Failures of the file system are free to happen at any effect, except where a clause says it works.
- The random source is a pool of bytes that may run dry. New salts and data keys are parameters: the original aborts when
  the source fails there. Default key-derivation parameters are parameters too.
- Time is a parameter.

## Left out

- Cryptographic strength of the ciphers, the MAC, the CRC and the key derivation; wiping of memory, redacted debug output, file permissions, symbolic links.
- The debug override of the key-derivation parameters.
- Windows retries of the rename and platforms without directory sync.
- Clipboard back ends, terminal interface, command line, path handling; the wording of prompts (the answer is a parameter).
- JSON and CSV parsing, the Bitwarden and KeePassXC adapters: the import model starts at the parsed records.
- Base32 and the lossy decoding of secret bytes before they are exported; the reader of `JsonExport` knows the values the export writes: strings, natural numbers, null and objects with members.
- TOTP codes, percent-decoding, terminal escaping, depth limits.
- The wrapped placeholder key that a creation computes and then overwrites before anything is written.
- VaultSession.Vault.SaveWithHeaderLocked: the two algorithm identifiers are looked up before the first random draw instead of just after it, so for an unknown identifier with a dry random source the model reports the identifier and the code the random source.
- VaultSession.Vault.ReadVaultBytes: a file that grows while it is read is not modelled.
- HistoryProof.CounterIsTheLedger: counts encryptions of committed saves; those of a save that failed after encrypting, or whose file a power cut took back, are not in any file and not in the counter either.
- ImportProof.ImportPublishes: for sessions whose slots are positions, as in every session of every run (`Importing.SoundSessions`); an import into a hand-made file with other slots is not covered, because the code itself gives a new item the slot number of its position.
- HistoryProof.GrownIdsIncrease: for vaults grown from a migrated file the first ids are only distinct, because migration keeps the order of the legacy file.
- PowerCuts.HistoriesKeep: a history that begins with a migrated file begins with that file durable; a power cut before that leaves the legacy file, which a migration only reads.
- Base64.DecodeLoop: works on characters; a text with a character outside ASCII is refused, as the code refuses its bytes.
- Sampling.Pick: wordlists and presets are not modelled.
