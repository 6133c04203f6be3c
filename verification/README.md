# GuiVault: a verified model

GuiVault keeps secrets in vaults whose content only clients can read. A vault lives in a local
file (the *coffre*) or on a server; clients synchronise it, verify it against a manifest sealed
with the vault's key, back it up, restore it, and lend its SSH keys to an agent. This project
models those parts in Dafny and proves what they promise, over every input, every run and every
interleaving of their steps. `dafny verify dfyconfig.toml` checks all of it.

Each module models one component. Where the source changes state step by step, a class or a
method with a loop does the same and is proved equal to a specification function; the theorems
are about those functions.

- **The local store** (`VaultModel`, `VaultLaws`, `Sync`, `LocalStore`, `LocalStoreLaws`,
  `History`, `Retention`, `Provenance`, `Answers`, `LocalVault`). One vault is a record of item records, tombstones
  included, a bounded history, a manifest under compare-and-swap and attachment records; the disk
  is the vaults and the chunk files. Each write reads, applies an operation, prunes, saves, then
  cleans up, or undoes. `Valid` is what every operation keeps and `Evolves` how a vault may change
  in its lifetime; it is transitive, and delta sync, lost updates, history and pruning follow from
  it. `Provenance` follows contents over runs, and `Answers` gives every reason to refuse a request
  and the files a write leaves. A vault that is deleted and created again under the same id starts
  another lifetime.
- **Manifests** (`Crypto`, `Manifests`, `ManifestProtocol`, `GvReader`). Cryptography is symbolic:
  a sealed blob opens only under its key and associated data, a digest is its preimage. The
  theorem about runs starts at a manifest written by `put_manifest`, whatever came before; one
  created by an item write agrees with the store only when the vault had no other live item,
  which is proved too.
- **Server backups** (`Backups`, `BackupCycle`, `Restores`, `Recovery`). The writer, the reader
  that checks a file line by line, the restorer that loads it by batches, and the one-pass
  recovery of an account, which is a join only thanks to the order of the tables; a restore is
  refused no row thanks to it too. JSON, SHA-256, the order of rows and the rules of the database
  are parameters.
- **Codecs** (`Aad`, `Attachments`, `Cbor`, `Utf8`, `NativeHost`, `NativeChannel`, `SshWire`,
  `SshPurpose`), each against an independent reader.
- **Protocols with concurrency** (`SshAgent`, `Sessions`), as state machines whose steps are the
  sections under one lock, or the SQL statements; anything may happen between two steps.
- **Local copies** (`LocalBackups`), for any clock.

Where the code does not meet what it says, the code is kept and the exact condition is proved:

- a number of 2^32 or more, or a longer string or list, is cut by the CBOR encoder; a value round-trips
  exactly below 2^32 (`Cbor.RoundTripExactly`, `Cbor.TwoToThe32IsZero`), and the insertion order of a map
  stays hidden exactly when entries whose keys are written alike may be written in either order, which for
  values below 2^32 means that they have the same value bytes (`Cbor.InsertionOrderDoesNotShow`,
  `Cbor.OrderHiddenExactly`, `Cbor.WideKeysShowTheirOrder`);
- `verify_file` accepts a header that repeats a table name, so that a file ending with the trailer
  of a dump may lack the rows of a table the header does not name (`BackupCycle.TrailerTellsRows`,
  `BackupCycle.DistinctHeaderHidesNothing`, `BackupCycle.RepeatedNameAccepted`);
- an import moves the manifest without moving the revision exactly when it brings one and every item of
  it is deleted while no history is kept (`Sync.ImportMovesOnlyTheManifest`);
- the agent looks a key up again by its identifier: whatever happens besides, every signature is made
  with the key shown exactly when, among the lists lent, a key found by its blob is also the first of its
  identifier in that list and in every later one that has it (`SshAgent.SignsAsShownExactly`); an
  identifier lent again for another key, or twice in one list, breaks it (`SshAgent.ShownOneSignedAnother`).
  Identifiers are those of items, gathered over all vaults (web/src/components/SshAgent.tsx:83);
- lending keys forgets the agreements, but one already given survives exactly when it had not been kept
  yet and is kept afterwards (`SshAgent.SurvivesForgetting`, `SshAgent.ForgottenTooEarly`);
- the local copy just made may be deleted by the call that made it, at a given time exactly when the
  interval is not longer than what has passed of the second, so at some time or other exactly when the
  interval is below one second (`LocalBackups.KeptExactly`, `LocalBackups.AlwaysKeptExactly`,
  `LocalBackups.ReusedRankIsLost`);
- a refresh token redeemed twice goes unnoticed exactly when its session was not rotated before the second
  SELECT; after one rotation it revokes the session, after more it is refused (`Sessions.RedeemedAgain`).

## Model

| member | source | states |
|---|---|---|
| VaultLaws.EvolvesTransitive | crates/guivault-local/src/format.rs:161-165 | the two-state relation all theorems about runs rest on composes: records never removed, changed records above the old revision, manifest and items tied |
| VaultLaws.KeepVersionValid | crates/guivault-local/src/lib.rs:913-943 | recording the live version keeps the history ordered and distinct, adds only that version, and the "already present" guard is never taken |
| VaultLaws.PutItemKeeps | crates/guivault-local/src/lib.rs:343-390 | a write leaves a valid vault, later in its life |
| VaultLaws.DeleteItemKeeps | crates/guivault-local/src/lib.rs:394-413 | so does a deletion, moved or not |
| VaultLaws.ImportKeeps | crates/guivault-local/src/lib.rs:420-515 | so does an accepted import |
| VaultLaws.PutManifestKeeps | crates/guivault-local/src/lib.rs:525-547 | so does a manifest write |
| VaultLaws.PurgeKeeps | crates/guivault-local/src/lib.rs:610-626 | so does a purge |
| VaultLaws.EmptyTrashKeeps | crates/guivault-local/src/lib.rs:628-644 | so does emptying the trash |
| VaultLaws.PruneKeeps | crates/guivault-local/src/lib.rs:963-984 | so does pruning |
| VaultLaws.ImportVersionsAdds | crates/guivault-local/src/lib.rs:479-508 | the versions imported with an item form one block of consecutive revisions at the end of the history |
| VaultLaws.BatchDistinct | crates/guivault-local/src/lib.rs:420-475 | the checks on a batch leave no id twice |
| Sync.LiveGet | crates/guivault-local/src/lib.rs:309-327 | a full read is the live records, each under its id |
| Sync.PageLookup | crates/guivault-local/src/lib.rs:309-327 | a page holds the record of an id exactly when that record is selected, and once |
| Sync.PageMeans | crates/guivault-local/src/lib.rs:309-327 | a page in full: the records changed after the revision, tombstones included, or the live ones, each as stored, the oldest change first, with the revision and the manifest of the vault |
| Sync.DeltaSync | crates/guivault-local/src/lib.rs:309-327 | applying the changes since r to what was live at r, or later, gives exactly what is live now |
| Sync.DeltasCompose | crates/guivault-local/src/lib.rs:309-327 | two deltas chained by the page's revision give what one would have |
| Sync.SameRevisionSameItems | crates/guivault-local/src/format.rs:161-165 | equal revisions mean equal live items, and equal manifests once there is one |
| Sync.ImportMovesOnlyTheManifest | crates/guivault-local/src/lib.rs:420-514 | an accepted batch moves the manifest and not the revision exactly when it brings a manifest and stores none of its items, all of them deleted while no history is kept |
| Sync.NoLostUpdate | crates/guivault-local/src/lib.rs:343-390 | a write based on a revision read earlier succeeds only if nobody wrote the item since |
| Sync.PutItemAccepted | crates/guivault-local/src/lib.rs:343-390 | exactly when a write is accepted: manifest, base revision and type |
| Sync.PutItemWrites | crates/guivault-local/src/lib.rs:343-390 | the live items change in that entry alone, at the next revision, with the type and ciphertext sent, dated of now, created when the item first was |
| Sync.DeleteItemAccepted | crates/guivault-local/src/lib.rs:394-413 | exactly when a deletion is accepted |
| Sync.DeleteItemRemoves | crates/guivault-local/src/lib.rs:394-413 | the item leaves the full read, and is a tombstone on the page of the changes since |
| Sync.DeleteItemLeaves | crates/guivault-local/src/lib.rs:394-413 | what is left of the item read: its type and date of creation at the next revision, dated of now, without content |
| Sync.ImportAccepted | crates/guivault-local/src/lib.rs:459-478 | exactly when a batch is accepted; otherwise the ids reported are already on record |
| Sync.ImportStores | crates/guivault-local/src/lib.rs:479-514 | every item of an accepted batch is stored as sent, the deleted ones skipped exactly when no history is kept, other records untouched, the manifest as sent |
| Sync.KeepVersionOther | crates/guivault-local/src/lib.rs:913-943 | recording a version of one item leaves the history of the others alone |
| LocalStoreLaws.CountMeansAll | crates/guivault-local/src/lib.rs:722-748 | counting the chunks present reaches the number announced exactly when each of them is there |
| LocalStoreLaws.SealedFileIsWhole | crates/guivault-crypto/src/attachment.rs:24-70 | the sealed chunks of any file, put under 0, 1 and so on, are a whole attachment of the size and count computed from its length |
| LocalStoreLaws.CompleteExactly | crates/guivault-local/src/lib.rs:722-748 | an upload is completed exactly when every chunk announced is on disk and the sizes add up; then that record is complete and every other is as it was |
| LocalStoreLaws.AnnounceExactly | crates/guivault-local/src/lib.rs:659-694 | an announcement is taken exactly for an item a full read shows and a new id; it is recorded as made, not complete, and no other record changes |
| LocalStoreLaws.MoveBack | crates/guivault-local/src/lib.rs:777-856 | moving a chunk directory and back restores every chunk location |
| LocalStoreLaws.FailureChangesNothing | crates/guivault-local/src/lib.rs:828-856 | an operation that returns an error leaves the coffre and every chunk as before, even when the save fails after a move |
| LocalStoreLaws.InVaultKeeps | crates/guivault-local/src/lib.rs:343-774 | any operation on one vault keeps it valid, evolving, and its complete attachments whole |
| LocalStoreLaws.MoveFiles | crates/guivault-local/src/lib.rs:777-816 | a move takes the chunks of that attachment along and of no other |
| LocalStoreLaws.MoveAcrossHolds | crates/guivault-local/src/lib.rs:777-816 | following an item to another vault keeps both vaults valid and the attachment whole |
| LocalStoreLaws.WriteKeeps | crates/guivault-local/src/lib.rs:828-856 | every write keeps vault ids unique, vaults valid, complete attachments whole, and vaults evolving |
| LocalStoreLaws.PutChunkKeeps | crates/guivault-local/src/lib.rs:698-719 | a chunk written to an attachment not yet complete touches no complete one; a refused chunk writes nothing |
| LocalStoreLaws.RunEvolves | crates/guivault-local/src/lib.rs:828-856 | over any run, any clock, any failures, a vault that is never deleted evolves |
| LocalStoreLaws.ReachableValid | crates/guivault-local/src/lib.rs:659-816 | in every reachable state attachment ids are unique, refer to item records, and complete attachments have every chunk and the announced size |
| LocalStoreLaws.DeltaSyncOverRuns | crates/guivault-local/src/lib.rs:309-327 | delta sync is exact between any two states of a run |
| LocalVault.StoredVault.Keep | crates/guivault-local/src/lib.rs:913-943 | the loop and threshold of the code compute the history specified, whose content `Provenance.PutKeepsWhatWasRead` states from the full read |
| LocalVault.StoredVault.Put | crates/guivault-local/src/lib.rs:343-390 | the vault in memory becomes the one specified, or is left as it was with the error specified |
| LocalVault.StoredVault.Delete | crates/guivault-local/src/lib.rs:394-413 | the same for a deletion |
| LocalVault.StoredVault.ImportBatch | crates/guivault-local/src/lib.rs:459-514 | the same for an import, with the number of items stored |
| LocalVault.StoredVault.WriteManifest | crates/guivault-local/src/lib.rs:525-547 | the same for a manifest write |
| LocalVault.StoredVault.PurgeItem | crates/guivault-local/src/lib.rs:610-626 | the same for a purge, a refused one changing nothing |
| LocalVault.StoredVault.EmptyAll | crates/guivault-local/src/lib.rs:628-644 | the same for emptying the trash |
| LocalVault.StoredVault.RetainAttachments | crates/guivault-local/src/lib.rs:947-957 | the attachments chosen stay, and the directories of exactly the others are to be removed |
| LocalVault.StoredVault.CreateAttachment | crates/guivault-local/src/lib.rs:659-694 | the announcement is stored or refused as specified |
| LocalVault.StoredVault.CompleteAttachment | crates/guivault-local/src/lib.rs:722-748 | the loop over the chunks completes exactly the attachments whose chunks are all there with the announced total |
| LocalVault.StoredVault.PruneOld | crates/guivault-local/src/lib.rs:963-984 | pruning in memory is the pruning specified, whose limits `Retention.PruneKeepsHistory` and `Retention.PruneKeepsAttachments` state in seconds |
| LocalVault.Store.MoveTo | crates/guivault-local/src/lib.rs:777-816 | step by step, the record goes to the other vault and the directory is renamed before anything is saved; a refusal renames nothing |
| LocalVault.Store.RunOp | crates/guivault-local/src/lib.rs:264-304 | each operation on the vaults read gives the vaults, the directories to remove and the rename specified, or its error with the files as they were |
| LocalVault.Store.Write | crates/guivault-local/src/lib.rs:828-856 | apply, prune, save, remove what is no longer listed, or rename back: the store and its files after a write, successful or not, are those specified |
| Answers.RequestRefused | crates/guivault-local/src/validate.rs:62-103 | each request refused on sight, with its error: names, types, sizes and batches in figures, the first bad item of a batch deciding |
| Answers.RefusedExactly | crates/guivault-local/src/lib.rs:264-816 | over what a full read shows, every write is refused for the first of the reasons listed, with that error, and for no other; accepted, it fails only when the file is not saved |
| Answers.InVaultWriteTold | crates/guivault-local/src/lib.rs:264-774 | an accepted operation answers for what it made of its vault (the record written, the number imported, the manifest stored), and the other vaults are only pruned |
| Answers.CreateVaultTold | crates/guivault-local/src/lib.rs:264-280 | a new vault is shared, empty and at revision 0; the others are only pruned |
| Answers.DeleteVaultTold | crates/guivault-local/src/lib.rs:294-304 | a vault deleted is gone; the others are only pruned |
| Answers.AttachmentFollows | crates/guivault-local/src/lib.rs:777-816 | an attachment that follows its item is recorded under the new item in the vault it goes to and no longer in the one it left, otherwise as it was; no other record moves |
| Answers.FilesAfter | crates/guivault-local/src/lib.rs:828-856 | after any write that moves no attachment, the chunk files are those before, less those of a vault it deletes and of the attachments it no longer lists, unless their removal failed |
| Answers.ChunkTakenExactly | crates/guivault-local/src/lib.rs:698-719 | a chunk is taken exactly for an attachment announced and not complete, at an index it has, of 41 to 1048617 bytes, and replaces that file alone |
| History.TrimsAgree | crates/guivault-server/src/db.rs:353-380 | "revision at least the k-th largest", "NOT IN the k largest" and "fewer than k newer" keep the same versions of any history |
| History.RecordingIsEnqueue | crates/guivault-local/src/lib.rs:913-943 | recording the current version appends its revision, type, ciphertext and dates to the item's history and keeps the last k |
| History.DropQueue | crates/guivault-local/src/lib.rs:610-644 | purged items lose all their versions, the others none |
| History.RunQueue | crates/guivault-local/src/lib.rs:343-508 | over any run the versions kept of an item are the end of the record of its past |
| History.HistoryIsABoundedQueue | crates/guivault-local/src/lib.rs:343-508 | in every reachable state they are, in order, the last `item_history` recorded since its last purge or its expiry after `trash_days` days |
| Provenance.PutKeepsWhatWasRead | crates/guivault-local/src/lib.rs:343-390 | an accepted write over an item keeps, last in its history, exactly what a full read showed of it before: revision, type, ciphertext and date, replaced now |
| Provenance.DeleteKeepsWhatWasRead | crates/guivault-local/src/lib.rs:394-413 | so does a deletion, unless the item moves elsewhere |
| Provenance.EveryContentWasSent | crates/guivault-local/src/lib.rs:343-515 | over any run, every item and every version of every vault holds a type and a ciphertext that an accepted write or import of that run sent for that item |
| Retention.TrashMeans | crates/guivault-local/src/lib.rs:577-606 | the trash lists exactly the items deleted less than 86400 x `trash_days` seconds ago that still have a version, each with its latest, before the date it announces |
| Retention.TrashIsSorted | crates/guivault-local/src/lib.rs:577-606 | each item once, the last deleted first |
| Retention.PruneKeepsHistory | crates/guivault-local/src/lib.rs:963-984 | an item deleted more than 86400 x `trash_days` seconds ago loses its whole history; any other keeps all of it |
| Retention.PruneKeepsAttachments | crates/guivault-local/src/lib.rs:963-984 | an attachment goes exactly when it is more than a day old and never completed, or of an item gone or deleted for `trash_days` days |
| Retention.PruneIsInvisible | crates/guivault-local/src/lib.rs:963-984 | from then on the trash, the live items, their histories and the complete attachments of live or trashed items are as without pruning |
| Retention.PruningsCompose | crates/guivault-local/src/lib.rs:963-984 | pruning and pruning again later is pruning later |
| Retention.PurgedIsGone | crates/guivault-local/src/lib.rs:610-626 | a purged item is out of the trash at any later time |
| Retention.PurgeAccepted | crates/guivault-local/src/lib.rs:610-626 | a purge succeeds exactly on a deleted item that still has a version |
| Manifests.OnlyManifestsOpen | crates/guivault-crypto/src/manifest.rs:93-103 | only what was sealed as the manifest of that vault under that key opens as one |
| Manifests.OpensExactly | crates/guivault-crypto/src/manifest.rs:93-103 | a blob opens as the manifest of a vault exactly when it was sealed under its key, its id, the nil item id and the type `manifest`, in the first format |
| Manifests.Verify | crates/guivault-crypto/src/manifest.rs:186-247 | the problems reported are the specified ones, each with its cause, in order |
| Manifests.OrderOnItems | crates/guivault-crypto/src/manifest.rs:239-242 | problems about items come by kind, altered, unexpected, withheld, and within a kind by identifier |
| Manifests.CheckItems | crates/guivault-crypto/src/manifest.rs:224-242 | Unexpected, Altered and Withheld are reported exactly when their causes hold |
| Manifests.NoProblemIsClean | crates/guivault-crypto/src/manifest.rs:186-247 | a report is empty exactly when no problem has a cause |
| Manifests.CleanMeans | crates/guivault-crypto/src/manifest.rs:186-247 | no problem exactly when the manifest opens, counter = announced revision >= seen, and served pairs = listed pairs (or nothing was served nor ever seen) |
| ManifestProtocol.AgreementVerifies | crates/guivault-crypto/src/manifest.rs:166-247 | when manifest and store agree, verification reports nothing for any counter seen so far |
| ManifestProtocol.PutAgrees | crates/guivault-crypto/src/manifest.rs:64-76 | an honest write on any earlier read, if accepted, keeps the agreement |
| ManifestProtocol.DeleteAgrees | crates/guivault-crypto/src/manifest.rs:64-80 | so does an honest deletion |
| ManifestProtocol.RewriteAgrees | crates/guivault-local/src/lib.rs:525-547 | a manifest made of what was read at this vault revision agrees, whatever was there |
| ManifestProtocol.FirstManifestByItemWrite | crates/guivault-local/src/lib.rs:879-909 | a first manifest brought by an item write agrees exactly when the vault has no other live item |
| ManifestProtocol.ReadEvolves | crates/guivault-local/src/lib.rs:828-856 | what was read at an earlier step is an earlier state of the vault |
| ManifestProtocol.RewriteCanBeHonest | crates/guivault-crypto/src/manifest.rs:88-103 | what a client seals of the vault it read, with the next counter, is an honest rewrite |
| ManifestProtocol.AgreementOverRuns | crates/guivault-local/src/lib.rs:343-413 | from an honest `put_manifest` on, whatever was done before it, manifest and store agree at every step as long as the clients are honest, whatever the interleaving |
| ManifestProtocol.ReadersSeeNoProblem | crates/guivault-crypto/src/manifest.rs:166-247 | no reader has a problem to report from there on, whatever counter it remembers, from before the rewrite included |
| GvReader.Gv.Open | crates/guivault-cli/src/lib.rs:277-294 | every vault with a key, in order and no other, is verified against what was seen, nothing being reported exactly when it is accepted, and counters are retained only upward |
| GvReader.AcceptedExactly | crates/guivault-cli/src/vault.rs:88-99 | a vault is accepted exactly when nothing was served nor seen, or its manifest opens at the counter announced, not below the one seen, and lists exactly the items not deleted with the digests of what is served |
| GvReader.SeenIsTheHighest | crates/guivault-cli/src/lib.rs:277-294 | after any series of openings, what is remembered of a vault is the highest counter it was served with in a manifest that opened at the counter announced |
| GvReader.Gv.AcceptManifests | crates/guivault-cli/src/lib.rs:297-304 | each vault served with a manifest gets exactly the revision announced, even below the one remembered; of the others nothing is remembered |
| GvReader.OnlyRollbacksAreAccepted | crates/guivault-cli/src/lib.rs:292-304 | after that a vault of the cache is accepted exactly when one who remembers nothing accepts it: every problem but a rollback stays |
| GvReader.SeenGrows | crates/guivault-cli/src/lib.rs:277-294 | what is remembered of a vault only grows, restarts included |
| GvReader.AcceptedViewsAreRecent | crates/guivault-cli/src/vault.rs:88-99 | a view accepted later is exactly a state some client sealed, at a counter no lower than any retained before |
| Aad.Separation | crates/guivault-crypto/src/lib.rs:636-645 | over identifiers without NUL, all layouts of associated data are injective and pairwise disjoint |
| Aad.NulWouldCollide | crates/guivault-crypto/src/lib.rs:636-645 | with a NUL in an identifier two items share theirs |
| Attachments.OpenAttachment | crates/guivault-crypto/src/attachment.rs:72-87 | the loop opens the chunks in order, the last one as last, or gives the first error |
| Attachments.RoundTrip | crates/guivault-crypto/src/attachment.rs:59-87 | a sealed file opens as itself exactly up to (2^32-1) MiB |
| Attachments.TotalIsSealedSize | crates/guivault-crypto/src/attachment.rs:24-32 | the total size of the sealed chunks is the one computed from the length |
| Attachments.SealedInFigures | crates/guivault-crypto/src/attachment.rs:34-70 | every chunk but the last holds 1 MiB of the file, the last the rest, each sealed under the attachment, its index and whether it is the last |
| Attachments.OnlyWholeFilesOpen | crates/guivault-crypto/src/attachment.rs:34-87 | among all sequences of sealed chunks of any files, only whole files in order open |
| Attachments.ConsistentMeans | crates/guivault-local/src/lib.rs:661-675 | (size, chunks) is accepted exactly when it comes from some plaintext length, which it determines: as many chunks as that length takes by 1 MiB |
| Backups.DigestedInjective | crates/guivault-server/src/backup.rs:198-210 | rows without line feeds are determined by their number and what is digested |
| Backups.VerifyFile | crates/guivault-server/src/backup.rs:254-344 | accepts exactly the well-formed files: header, rows of the header's tables in its order, one final END that describes them; a refusal says what is wrong with the header, the line it names, or the end |
| Backups.FormatInFull | crates/guivault-server/src/backup.rs:254-344 | the files accepted, written out: the magic word and a header of format 1, `table` tab JSON rows of its tables in its order, and END with the count and digest of each |
| Backups.ReadLines | crates/guivault-server/src/backup.rs:277-312 | the line loop stops exactly where a line keeps the file from being well formed |
| Backups.CompareEnd | crates/guivault-server/src/backup.rs:312-337 | the final comparison succeeds exactly when the trailer describes the rows |
| BackupCycle.OrderMeansGrouped | crates/guivault-server/src/backup.rs:293-305 | rows in the header's order are each table's rows in one piece, table after table |
| BackupCycle.Dump | crates/guivault-server/src/backup.rs:163-225 | writes the dump of exactly the databases that have no unknown table, under a header of format 1 with the version, schema and date, and its checks |
| BackupCycle.SameEntriesIsEqual | crates/guivault-server/src/backup.rs:511-533 | comparing the counts and digests table by table, then their number, is comparing the whole |
| BackupCycle.DumpIsAccepted | crates/guivault-server/src/backup.rs:163-225 | every dump is well formed, and each table reads back as its ordered rows |
| BackupCycle.WrittenBefore | crates/guivault-server/src/backup.rs:47-71 | the rows of a dump come in the order of the list of tables |
| BackupCycle.TrailerTellsRows | crates/guivault-server/src/backup.rs:312-337 | with an injective digest, an accepted file ending like a dump has a table's dumped rows exactly when its header names the table or the table was empty |
| BackupCycle.DistinctHeaderHidesNothing | crates/guivault-server/src/backup.rs:265-337 | such a header names every dumped table exactly when it repeats no name, and then every row is there |
| BackupCycle.RepeatedNameAccepted | crates/guivault-server/src/backup.rs:313-337 | a header that repeats a name is accepted over a dump's trailer without the dump's rows |
| Restores.Target.InsertBatch | crates/guivault-server/src/backup.rs:395-410 | rows are appended to the table, or refused with nothing changed; an empty batch does nothing |
| Restores.Target.Prepare | crates/guivault-server/src/backup.rs:372-393 | a target with rows is refused; otherwise its tables are those of the schema, empty |
| Restores.Target.Load | crates/guivault-server/src/backup.rs:432-454 | the rows are inserted in file order, every batch of one table and of at most 500 rows, only a full one followed by another of its table |
| Restores.Target.Restore | crates/guivault-server/src/backup.rs:416-480 | what is loaded is what the file holds, table by table, in one transaction; a failure loads no row and says whether the file, the version, the target or a row is the cause |
| Restores.Target.RestoreCheck | crates/guivault-server/src/backup.rs:495-533 | passes exactly when the restored database gives the checks expected; a database with tables and no mark is left alone, any other ends up marked |
| Restores.Target.CheckDump | crates/guivault-server/src/backup.rs:484-533 | every dump passes its restore check, and each table holds the dumped rows |
| Restores.RestoredDumpsTheSame | crates/guivault-server/src/backup.rs:495-533 | a dump restored and dumped again gives the same counts and digests |
| Restores.ParentsComeFirst | crates/guivault-server/src/backup.rs:44-71 | every table of the list comes after those the migrations make it refer to |
| Restores.TakesExactly | crates/guivault-server/src/backup.rs:395-454 | loaded over empty tables in whatever batches, rows are refused nowhere exactly when each fits its table, takes no key of an earlier one, and refers to itself or to earlier ones |
| Restores.DumpIsTaken | crates/guivault-server/src/backup.rs:44-71 | so no insertion of the dump of a database that keeps its types, keys and references is refused |
| Recovery.FromBackup | crates/guivault-cli/src/recover.rs:420-552 | the one-pass reader computes the specified outcome, and a failure says what stopped it: the header, the line it names, no END, no account, the password, or a vault that cannot be read |
| Recovery.OnePassIsTheJoin | crates/guivault-cli/src/recover.rs:444-506 | when accounts precede memberships and those precede items and chunks, one pass is the join of the tables, failures included |
| Recovery.OrderMatters | crates/guivault-cli/src/recover.rs:472-479 | with a membership before its account the same rows give another result |
| Recovery.UserMeans | crates/guivault-cli/src/recover.rs:454-468 | with unique addresses, the account selected is exactly that of the address |
| Recovery.VaultsMean | crates/guivault-cli/src/recover.rs:469-471 | the vaults selected are all those there are |
| Recovery.MembersMean | crates/guivault-cli/src/recover.rs:472-479 | the memberships joined are exactly those of the account, each with its key |
| Recovery.ItemsMean | crates/guivault-cli/src/recover.rs:480-494 | the items joined are all those of each vault, in file order |
| Recovery.ChunksMean | crates/guivault-cli/src/recover.rs:495-503 | the chunks joined are exactly those of the account's vaults, each under the index of its row modulo 2^32 |
| Recovery.RecoveryIsTheJoin | crates/guivault-cli/src/recover.rs:420-552 | recovering an account from the dump of any database is that join asked of the database |
| Recovery.RecoveryIsTheAccount | crates/guivault-cli/src/recover.rs:420-552 | it succeeds exactly when the address is that of an account, the password opens its key and the rows that concern it can be read; then what is recovered is, of the database's rows, each vault the account is a member of, under the key of its membership, with all its items in order and all its chunks, and nothing else |
| Recovery.ChunksInPlace | crates/guivault-cli/src/recover.rs:495-503 | the chunks an attachment of the account has under 0, 1 and so on are recovered under 0, 1 and so on |
| Recovery.FileIsRecovered | crates/guivault-cli/src/recover.rs:495-552 | a file sealed by chunks and stored so opens as itself from what was recovered |
| Cbor.HeadReads | web/extension/src/cbor.ts:7-12 | a head is read back with its argument modulo 2^32 |
| Cbor.HeadInFull | web/extension/src/cbor.ts:7-12 | heads on 1, 2, 3 or 5 bytes by the size of the argument, the most significant byte first (section 3 of RFC 8949) |
| Cbor.HeadIsShortest | web/extension/src/cbor.ts:7-12 | no head with the same meaning is shorter |
| Cbor.RoundTrip | web/extension/src/cbor.ts:14-46 | below 2^32, a decoder gets the value and what follows from the encoding and what follows |
| Cbor.RoundTripExactly | web/extension/src/cbor.ts:7-46 | an encoding decodes to its value exactly when every argument is below 2^32 |
| Cbor.TwoToThe32IsZero | web/extension/src/cbor.ts:7-12 | 2^32 is written as 0 |
| Cbor.PrefixFree | web/extension/src/cbor.ts:14-46 | no encoding is a prefix of that of another value |
| Cbor.SameEncodingSameValue | web/extension/src/cbor.ts:14-46 | two values share an encoding exactly when they differ at most by the order of entries |
| Cbor.InsertionOrderDoesNotShow | web/extension/src/cbor.ts:32-41 | maps with the same entries in any insertion order encode identically exactly when entries whose keys are written alike may be written in either order |
| Cbor.OrderHiddenExactly | web/extension/src/cbor.ts:32-41 | for values below 2^32 and keys of any size, exactly when no two entries have the same key bytes and different value bytes |
| Cbor.DistinctKeysHideTheOrder | web/extension/src/cbor.ts:32-41 | so for every map or object whose keys are below 2^32 |
| Cbor.KeysAscend | web/extension/src/cbor.ts:32-51 | keys ascend, shorter first then byte by byte (section 4.2.3 of RFC 8949), strictly exactly when no two keys are written alike |
| Cbor.WideKeysShowTheirOrder | web/extension/src/cbor.ts:7-12 | keys cut to the same bytes betray the insertion order |
| Cbor.CborEncode | web/extension/src/cbor.ts:14-46 | the encoder that pushes on a buffer computes the specified encoding |
| Utf8.CutAtBoundary | app-tauri/src/native_host.rs:156-158 | a boundary cuts a text between two characters |
| Utf8.ValidExactly | app-tauri/src/ssh_agent/protocol.rs:85-87 | a byte string is taken as text exactly when it encodes some text |
| NativeHost.Frames | app-tauri/src/native_host.rs:146-172 | terminates; the parts are non-empty pieces of whole characters that make up the text, of at most 716800 bytes, all but the last within a character of that |
| NativeChannel.Channel.Send | web/extension/src/nativeHost.ts:60-71 | each request waits under a fresh id, or is rejected at once when it cannot be sent |
| NativeChannel.Channel.OnMessage | web/extension/src/nativeHost.ts:38-51 | a part is put in its place; when enough have come, the request is resolved with the value, rejected with the error the answer carries, or rejected when it is no answer |
| NativeChannel.Channel.OnDisconnect | web/extension/src/nativeHost.ts:52-57 | every waiting request is rejected, once |
| NativeChannel.SettledOnce | web/extension/src/nativeHost.ts:35-73 | whatever arrives, each request is waiting or settled, never both, never twice |
| NativeChannel.AnswersArriveWhole | web/extension/src/nativeHost.ts:35-71 | for parts in any order, interleaved or repeated, and channels lost and opened again, a request is settled with what its whole answer says exactly when every part came before its channel ended, rejected when the channel ended before that or was never opened |
| NativeChannel.EveryAnswerIsExact | web/extension/src/nativeHost.ts:35-71 | each time once, by the exact text the host cut |
| SshWire.Reader.Bytes | app-tauri/src/ssh_agent/protocol.rs:75-83 | a length and that many bytes, or a failure that has consumed what the code consumes |
| SshWire.Parse | app-tauri/src/ssh_agent/protocol.rs:100-130 | the reader computes the specified request on every payload, truncated ones included |
| SshWire.ParseInverts | app-tauri/src/ssh_agent/protocol.rs:100-130 | every request a client can send is read back, whatever follows |
| SshWire.SignExactly | app-tauri/src/ssh_agent/protocol.rs:105-110 | exactly the payloads that ask for a signature, missing flags being none |
| SshWire.BindExactly | app-tauri/src/ssh_agent/protocol.rs:111-127 | exactly the payloads that announce a server |
| SshWire.FramesAreSplit | app-tauri/src/ssh_agent/server.rs:45-68 | frames of 1 to MAX_FRAME bytes in a row are split back into their payloads |
| SshWire.FramesInFull | app-tauri/src/ssh_agent/server.rs:45-68 | a frame is taken exactly when four bytes, the most significant first, say a length of 1 to 262144 and that many bytes follow |
| SshWire.PayloadsAreFrames | app-tauri/src/ssh_agent/server.rs:45-68 | what is taken from any stream is its longest run of such frames |
| SshWire.Serve | app-tauri/src/ssh_agent/server.rs:45-68 | the loop answers those payloads in order, the session going from one to the next |
| SshWire.IdentitiesAnswer | app-tauri/src/ssh_agent/protocol.rs:138-146 | the loop writes the type, the number of keys and each key with its comment |
| SshWire.IdentitiesAreRead | app-tauri/src/ssh_agent/protocol.rs:138-146 | a client reads back the keys listed |
| SshPurpose.Describe | app-tauri/src/ssh_agent/purpose.rs:35-69 | the stepping reader computes the specified purpose |
| SshPurpose.LoginExactly | app-tauri/src/ssh_agent/purpose.rs:43-69 | a login is said exactly of the data that is one (section 7 of RFC 4252), with its session, user and host key |
| SshPurpose.NoLoginStartsLikeSshsig | app-tauri/src/ssh_agent/purpose.rs:36-42 | no login that fits in a frame starts like a file signature |
| SshPurpose.EveryLoginIsReported | app-tauri/src/ssh_agent/purpose.rs:35-69 | every login that fits in a frame is reported with exactly its fields |
| SshPurpose.SshsigExactly | app-tauri/src/ssh_agent/purpose.rs:36-42 | a file signature is said exactly of the data that is one, with its namespace |
| SshAgent.Agent.SetKeys | app-tauri/src/ssh_agent/mod.rs:271-294 | without interleaving, the keys are replaced and the agreements forgotten |
| SshAgent.Agent.CheckRequest | app-tauri/src/ssh_agent/mod.rs:369-384 | asks unless an unexpired agreement serves a session that is not forwarded |
| SshAgent.Agent.Conclude | app-tauri/src/ssh_agent/mod.rs:394-400 | signs exactly when a key of that identifier is still lent |
| SshAgent.NoSignatureWithoutConsent | app-tauri/src/ssh_agent/mod.rs:333-400 | over every interleaving, a signature under a key id is for a request that was made, and follows a yes for that id in the same request or, when no forwarding hop was announced in its session, an agreement kept less than 600 seconds before, not forgotten since, when it was checked; the key is there |
| SshAgent.ForwardedExactly | app-tauri/src/ssh_agent/mod.rs:319-323 | a session is forwarded exactly when some binding announced it, whatever bindings came before or after |
| SshAgent.ToldOfForwarding | app-tauri/src/ssh_agent/mod.rs:369-384 | the user is told of forwarding exactly when it was announced before the question |
| SshAgent.ForwardedKeepsNoAgreement | app-tauri/src/ssh_agent/mod.rs:385-391 | once a forwarding hop was announced, no agreement given in that session is kept |
| SshAgent.RefusalIsFinal | app-tauri/src/ssh_agent/mod.rs:369-391 | a request the user refused is over: whatever comes next, it is never signed |
| SshAgent.OneSignatureEach | app-tauri/src/ssh_agent/mod.rs:333-400 | a request gets one signature at most |
| SshAgent.OneRequestASession | app-tauri/src/ssh_agent/server.rs:45-68 | a session has one request in flight at most |
| SshAgent.EveryAgreementWasGiven | app-tauri/src/ssh_agent/mod.rs:385-391 | an agreement in memory was given by the user in a session that announced no forwarding hop, was not forgotten since it was kept, and lasts 600 seconds from then on the clock |
| SshAgent.SurvivesForgetting | app-tauri/src/ssh_agent/mod.rs:292-391 | an agreement given before the agreements are forgotten is kept after that exactly when it waited to be kept at that time, and is kept later |
| SshAgent.ForgottenTooEarly | app-tauri/src/ssh_agent/mod.rs:292-391 | such a run, where the next request is then allowed without a question |
| SshAgent.SignedOnlySo | app-tauri/src/ssh_agent/mod.rs:333-400 | the signatures given are those of such steps and no others |
| SshAgent.LockedSignsNothing | app-tauri/src/ssh_agent/mod.rs:271-294 | with no key lent nothing is signed until keys are lent again |
| SshAgent.SignsWhatWasShown | app-tauri/src/ssh_agent/mod.rs:394-400 | a signature is made with the key the request named exactly when that key is the first of its identifier in the list lent last |
| SshAgent.SignsAsShownExactly | app-tauri/src/ssh_agent/mod.rs:333-400 | every signature of every run is made with the key named exactly when the lists lent are consistent: a key found by its blob is the one found by its identifier, in that list and in later ones that have it |
| SshAgent.StableIdsSignWhatWasAsked | app-tauri/src/ssh_agent/mod.rs:394-400 | so when an identifier always names the same key |
| SshAgent.AnotherKeyMaySign | app-tauri/src/ssh_agent/mod.rs:394-400 | for any lists lent, the run in which a key allowed is signed for with whatever key has its identifier by then |
| SshAgent.ShownOneSignedAnother | app-tauri/src/ssh_agent/mod.rs:394-400 | an identifier lent for another key during the question, or twice in one list, is not consistent |
| LocalBackups.NamesAreRead | crates/guivault-local/src/backup.rs:47-57 | reading a name gives back its date and rank, with and without rank |
| LocalBackups.ReadExactly | crates/guivault-local/src/backup.rs:47-57 | a name is that of a copy exactly when it is coffre-DATE.json, of rank 1, or coffre-DATE-RANK.json with a date of fifteen characters and a rank of 32 bits |
| LocalBackups.DueExactly | crates/guivault-local/src/backup.rs:89-95 | a copy is due exactly when every copy there is as old as the interval, one of the future having no age |
| LocalBackups.Directory.FreeName | crates/guivault-local/src/backup.rs:100-106 | the search for a free name ends, at the first rank whose name is free |
| LocalBackups.Directory.MaybeBackup | crates/guivault-local/src/backup.rs:85-118 | the directory after a call is the one specified, and false means the copy failed |
| LocalBackups.PrunedKeepsTheNewest | crates/guivault-local/src/backup.rs:111-116 | pruning keeps exactly the newest copies and every other file |
| LocalBackups.NoMoreThanKept | crates/guivault-local/src/backup.rs:85-118 | a call that is due leaves no more copies than are kept, even when nothing could be copied |
| LocalBackups.NewCopyIsNewestAndKept | crates/guivault-local/src/backup.rs:85-118 | with an interval longer than what has passed of the second, a second always is, and any clock, a copy written is later than all others by the whole interval, and is kept |
| LocalBackups.RetentionOverRuns | crates/guivault-local/src/backup.rs:85-118 | over any run the directory holds exactly the newest copies made, an interval apart |
| LocalBackups.MadeExactly | crates/guivault-local/src/backup.rs:85-118 | the copies made over a run are those of the calls that had something to save and came late enough after all those made before, each under the date of its call |
| LocalBackups.ReusedRankIsLost | crates/guivault-local/src/backup.rs:100-116 | with a shorter one, for any number of copies kept that a second can hold, a copy is deleted by the call that made it |
| LocalBackups.KeptExactly | crates/guivault-local/src/backup.rs:85-118 | at a given time, the copy made is kept whatever is there exactly when the interval is longer than what has passed of the second |
| LocalBackups.AlwaysKeptExactly | crates/guivault-local/src/backup.rs:85-118 | at any time exactly when the interval is a second or more |
| Sessions.FindIsTheOne | crates/guivault-server/src/sessions.rs:67-78 | at most one session answers to a token, and the SELECT finds it |
| Sessions.AlwaysTraced | crates/guivault-server/src/sessions.rs:17-114 | over any run, who is disabled, which sessions are revoked and when the tokens of each expire are what the events made them |
| Sessions.AcceptedExactly | crates/guivault-server/src/sessions.rs:62-105 | a token is taken up for a session exactly when it is its current or previous one, nothing revoked the session, its account is not disabled, and less than the refresh time passed since it was made or last rotated |
| Sessions.RevokedForever | crates/guivault-server/src/sessions.rs:62-114 | a revoked session is never usable again, whatever was in flight |
| Sessions.NeverCurrentAgain | crates/guivault-server/src/sessions.rs:88-105 | a token that is no longer current never is again |
| Sessions.RedeemedTwice | crates/guivault-server/src/sessions.rs:62-114 | of two rotations of one session in flight together, at most one result is ever current once both are done |
| Sessions.RedeemedAgain | crates/guivault-server/src/sessions.rs:62-114 | a token redeemed again goes unnoticed exactly when its session was not rotated before that SELECT; rotated once, the session is revoked; rotated more, it is refused |
| Sessions.DisplacedTokenRevokes | crates/guivault-server/src/sessions.rs:62-87 | the displaced token presented before the next rotation revokes the session, whatever comes between its two statements |
| Sessions.Server.CreateSession | crates/guivault-server/src/sessions.rs:17-53 | a new session has new tokens |
| Sessions.Server.BeginRefresh | crates/guivault-server/src/sessions.rs:67-78 | the SELECT finds a session exactly when a living one answers to the token; what that means on the events is `Sessions.AcceptedExactly` |
| Sessions.Server.EndRefresh | crates/guivault-server/src/sessions.rs:80-114 | the UPDATE revokes on a replayed token and rotates on the current one |

## Left out

- Real cryptography: sealing, digests, signatures and key derivation are symbolic constructors or parameters.
- Files, locks, SQL, HTTP, gzip, JSON, base64 and date rendering: a save succeeds or fails as one step, a table is a sequence of rows, a date is a number with an injective text of fixed width.
- Crashes: chunks renamed are put back when a write fails, and that renaming is taken to succeed; a crash between the rename and the save is not modelled.
- 64-bit overflow of revisions and counters, and doubles above 2^53 in the CBOR encoder.
- Account material, settings, password changes, vault names beyond their size, and the copy of the coffre that a write may trigger, which `LocalBackups` models on its own.
- Restoring a local copy as a new vault, and the attachments that copy takes along.
- LocalBackups.ReusedRankIsLost: a second holds fewer than 2^32 ranks, so the input is given for fewer copies kept than that.
- LocalBackups.Directory.Prune: a deletion that the file system refuses is not modelled; the code ignores it and tries again at the next call.
- Restores.Target.Restore: resetting the serial counters and the migrations that follow a restore are not modelled; the data of the tables does not depend on them.
- Recovery.FromBackup: which column could not be read is not told apart in the error, and decrypting what was recovered is left to the key parameter.
- The names under which recovered items are written, and their collisions.
- Strings that are not well-formed UTF-16: the extension's strings are taken as sequences of characters.
- The bound of 1 MB on a whole native message: the data is escaped again when it is sent, so only the bound on the piece holds for every text.
- SshAgent.Agent.Conclude: a key that refuses to sign (an RSA request without a SHA-2 flag) is not told apart from one that signs; it only adds refusals.
- The answer that carries a signature, which is one more length-prefixed string.
- What the agent shows about a host, and the verification of a host's signature on a session, which is the condition of a binding.
- Access tokens at the door of each request, and the deletion of old sessions.
- The user interface, the Tauri glue, e-mails, configuration, and the passive message types.
