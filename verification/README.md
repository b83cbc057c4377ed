# RedOps Vault, verified

A Dafny model of the parts of RedOps Vault that do more than store forms, with
proofs of what those parts promise. One module for each file; `dafny verify
dfyconfig.toml` checks them all.

**Encrypted files** (`StreamFormat`, `StreamLayout`, `LargeObjects`,
`CryptoService`, `StorageService`). The chunked format as an encoding and a
decoding function, what both mean in bytes, and the four read loops that produce
and consume it, in memory and through Postgres Large Objects. The cipher is any
pair of functions that undo each other and add sixteen bytes; keys, random nonce
prefixes and digests are parameters. The code relies on struct packing to fail
when the frame counter runs out, so the loops return that error.

**Backup and restore** (`Database`, `Numerals`, `Archive`, `Engagement*`,
`RestorePlan`, `Restore*`, `Sessions`, `BackupService`, `RestoreService`,
`ArchiveContents`, `LootRecovery`, `InspectionTheorems`). A store is a map from
table names to rows under a schema of columns, foreign keys, unique keys and a
predicate for everything the engine decides on one row alone: CHECK constraints,
value types, column widths. A statement runs only if it leaves the store legal,
so a plan that runs has no dangling reference and no clashing key after any
statement. Restoring is a transaction on a session whose connection may fail
after any number of statements. JSON text, base 64, ISO dates and zip
compression are a codec whose two directions undo each other.

Loot files come back under the id parsed from the part of their archive name
after its last slash. Both upload routes store `secure_filename(...)`, which
leaves letters, digits, "_", "-" and ".", and no route renames a loot file, so
every vault filled by uploads makes the round trip (`UploadedVaultRoundTrip`).
Another name can only come in with a foreign or hand-made archive, whose restore
stores the names it holds. For such names the docstring of the restore service,
which promises every loot blob back, is false: `SlashMisfiles` follows two of
them through a restore, `BlobsSurviveIff` and `WellFiledIff` say exactly which
stores survive, and a name whose digits `int` refuses makes the restore raise.

**Rich text** (`HtmlTokens`, `Quill*`, `Markdown*`, `Newlines`). Both HTML
passes over streams of start, self-closing and end tags and data: the list
normaliser against a canonical form, a specification by runs, and the place of
every item by positions in the input; the Markdown stack machine against a
renderer that recurses over the document tree, whose text is spelt out character
by character. The latter holds for every tree; nested links, which lose the
outer target, are part of the renderer rather than excluded.

**ATT&CK** (`AttackBundle`, `AttackSync`, `AttackTheorems`, `AttackEffects`,
`AttackMatrix`, `AttackPage`). The three sync loops against a specification by
the last usable object of each id, which `AttackEffects` reads off the bundle,
the matrix page against its brute-force definition, and both together: what the
page shows of the tables any sequence of syncs leaves.

**The vault** (`Times`, `VaultState`, `VaultSteps`, `VaultMachine`, the `Vault*`
proofs, `VaultRoutes`, `Report`). Users, engagements, deletion requests, nodes,
edges, loot, credentials, IOCs, kill chain entries, findings and technique
mappings as tables, each request as one step, and invariants over every run from
an empty vault. The keys the database assigns are parameters that are only
required to be unused, so a deleted row's key may come back. The two panes of
the graph share their steps, with the pane as a parameter. Role checks read the
current row: a token with an outdated role or of an inactive user is revoked
before the handler runs (app/__init__.py, lines 249 to 257). An attribute that
is None is left out of the insert, so that the column's default applies; this is
how a node created without a status becomes healthy. `VaultUndo` says what
requests mean to each other, `VaultAcceptance` which are carried out,
`VaultEffects` what is on record afterwards, `VaultContracts` what each promises
its caller, and every handler of `VaultRoutes` keeps all invariants of the
vault.

A submitted time is a clock reading with an optional UTC offset. The range of an
entry is checked on instants, and the columns keep clock readings: SQLite drops
the offset, Postgres converts to the zone of its session. So on SQLite an entry
may be stored to end before it starts; `VaultTimes` says exactly when, with the
input that shows it and the condition that rules it out.

**Scheduled backups** (`BackupSchedule`, `BackupContracts`, `SchedulerService`).
Destinations, run logs and jobs over requests, runs that succeed or fail, and
restarts.

**One-time passwords** (`Base32`, `Totp`, `CodeExamples`). Secret decoding down
to the digits, truncation and window arithmetic; HMAC-SHA-1 is any function with
a twenty-byte result.

`Wrappers`, `Sequences`, `ByteStrings` and `Text` hold what the others share.

## Model

| member | source | states |
|---|---|---|
| StreamFormat.RoundTrip | app/services/crypto_service.py:41-104 | every split of a plaintext into at most 2^32 non-empty reads comes back, read by read, and decoding ends normally |
| StreamFormat.CutPoint | app/services/crypto_service.py:79-104 | a file cut after any k bytes yields exactly a prefix of the chunks, and decoding raises if and only if the cut falls inside the magic or strictly inside a frame |
| StreamFormat.NoncesDistinct | app/services/crypto_service.py:37-38 | two frames of one file have the same nonce only if they are the same frame |
| StreamLayout.NonceLayout | app/services/crypto_service.py:37-38 | a nonce is twelve bytes: the eight of the prefix, then the frame number with its high byte first |
| StreamLayout.FileLayout | app/services/crypto_service.py:53-67 | an encoded file byte by byte: 52 56 4C 31, the prefix, and for each chunk, 20 bytes and a chunk further on for each chunk before it, its length plus 16 with the high byte first and the chunk encrypted under prefix and number |
| StreamLayout.DecodeIff | app/services/crypto_service.py:84-104 | which bytes decode to what, for every byte string with magic and prefix: to these plaintexts and this ending exactly when it is made of ciphertexts, each behind its length and authenticating under the prefix and its number, and of what makes the reader stop that way |
| StreamLayout.ShortFiles | app/services/crypto_service.py:79-82 | a file is refused exactly when it does not start with the magic; one that stops inside its prefix is empty |
| StreamFormat.EncodedLength | app/services/crypto_service.py:55-67 | the encoding of n bytes in c chunks is 12 + n + 20c bytes long |
| StreamFormat.UploadCapFitsCounter | config.py:31-33 | with full reads the chunk count is the rounded-up quotient by the chunk size, and the upload cap stays below the 32-bit counter |
| StreamFormat.LawfulCipherExists | app/services/crypto_service.py:46-48 | the laws assumed of the cipher (decrypting undoes encrypting, sixteen bytes longer) are those of some cipher |
| CryptoService.EncryptStream | app/services/crypto_service.py:41-69 | the read loop builds exactly the encoding, laid out byte by byte, and reports the size and digest of the plaintext; it fails exactly when the frame counter runs out |
| CryptoService.DecryptStream | app/services/crypto_service.py:72-104 | the read loop yields and ends exactly as the decoding function says, on every byte string |
| CryptoService.EncryptToLargeObject | app/services/crypto_service.py:107-138 | the Large Object ends up holding byte for byte what the in-memory encoder returns, in the same layout, in an object that was not there, every other object unchanged |
| CryptoService.DecryptFromLargeObject | app/services/crypto_service.py:141-178 | reading an object yields what decoding its bytes in memory yields, or the error of a missing object |
| LargeObjects.PgConn.ReadRaw | app/services/crypto_service.py:181-189 | returns the whole object, wherever it was written |
| LargeObjects.PgConn.WriteRaw | app/services/crypto_service.py:192-203 | the bytes are stored unchanged in a new object whose oid was not in use |
| StorageService.SaveUpload | app/services/storage_service.py:9-23 | exactly one of the two content columns is filled, by dialect; the stored bytes, size and digest do not depend on the dialect |
| StorageService.StreamDownload | app/services/storage_service.py:26-46 | the oid wins over the inline column; a row with neither reads as a file without magic |
| StorageService.UploadThenDownload | app/services/storage_service.py:9-46 | an upload followed by a download yields the uploaded chunks on either dialect |
| Archive.ValueRoundTrip | app/services/restore_service.py:101-110 | reading a value back by its column type undoes writing it as JSON |
| Archive.ArcNameFiling | app/services/backup_service.py:58-59 | an archive name is filed under the row's own id if the file name has no slash, and otherwise as the part after its last slash says: under no id, under some id, or with digits that raise |
| Archive.FiledIff | app/services/restore_service.py:60-66 | an entry is filed under an id exactly when it stands below loot_storage/, is no directory, and the digits between its last slash and the next underscore are those of the id |
| Archive.ReadIsLast | app/services/restore_service.py:66-66 | what is read under a name is the last entry that has it |
| Numerals.IdRoundTrip | app/services/restore_service.py:64-66 | the digits of every id a column can hold are accepted and parse back to it |
| Numerals.DigitExamples | app/services/restore_service.py:65-66 | a superscript two counts as a digit and raises when parsed; an Arabic-Indic five is a five |
| BackupService.AddDatabase | app/services/backup_service.py:38-47 | the export holds every table's rows in order |
| BackupService.ReadLootBlob | app/services/backup_service.py:62-70 | the blob is the Large Object if there is an oid, else the inline bytes; a dangling oid is an error |
| BackupService.AddLootFiles | app/services/backup_service.py:50-59 | one entry for each row with a non-empty blob, in row order, of all engagements or of the one asked for; an error exactly when a Large Object it needs is gone |
| BackupService.AddEngagement | app/services/backup_service.py:73-107 | an existing engagement's row and lists as JSON, nothing for one that is gone or was not given |
| BackupService.BuildArchive | app/services/backup_service.py:15-35 | the archive of each scope, entry by entry: which scopes hold which JSON entry, and one loot entry for each row the scope is about that has contents, in row order, with its name and bytes; an error exactly when such a row names a Large Object that is gone |
| ArchiveContents.ArchiveIs | app/services/backup_service.py:15-59 | every archive told without the functions that build it: the export holds every table column for column, an engagement its row and nine lists of its own rows, loot entries follow the rows of the scope |
| LootRecovery.LootComesBack | app/services/restore_service.py:12-16 | the law of the loot-only scope: reattaching its archive gives every loot file with contents its bytes again, whatever has become of the content columns and objects since, and leaves the others as they are |
| LootRecovery.BackUpLoseAndReattach | app/services/restore_service.py:204-237 | the same as one run of backup, loss and reattaching, which succeeds exactly when there was anything to back up; no other column and no other table changes |
| InspectionTheorems.FullBackupInspected | app/services/restore_service.py:79-83 | the confirmation screen counts, for each table, the rows it had when the backup was made |
| InspectionTheorems.EngagementInspected | app/services/restore_service.py:85-88 | and names the engagement that was backed up |
| EngagementTheorems.ListsReadBack | app/services/backup_service.py:84-95 | each list of an engagement's archive reads back as exactly the rows of that engagement, loot contents aside |
| EngagementTheorems.EngagementIsNotRestored | app/services/restore_service.py:18-22 | the archive of an existing engagement holds no full export, so a full restore of it raises |
| RestoreRoundTrip.ColumnsRoundTrip | app/services/restore_service.py:155-160 | the columns of a row are read back as they were written, the two content columns as null |
| RestoreRoundTrip.ExportReads | app/services/restore_service.py:145-166 | for a well-typed store the whole export reads back, table by table |
| RestoreRoundTrip.ArchiveExtracts | app/services/restore_service.py:55-67 | for every scope: from an archive whose entries are filed under their own ids, exactly the blobs of the scope's rows are extracted |
| Database.EveryStatementLegal | app/services/restore_service.py:137-196 | a run of statements that commits leaves no dangling reference, missing value, repeated id or unique key, and no row a CHECK refuses, after any one of them |
| RestoreSafety.WipeRuns | app/services/restore_service.py:138-143 | emptying the tables in reverse dependency order, or truncating them at once, never breaks a constraint and leaves all of them empty |
| RestoreSafety.PatchUndoesClear | app/services/restore_service.py:161-170 | patching the self references afterwards restores exactly the row that was inserted with nulls |
| RestoreSafety.TableLoads | app/services/restore_service.py:146-171 | a table loads without ever breaking a constraint, whatever the order of its rows and of the references among them |
| RestoreSafety.WipeAndLoadRun | app/services/restore_service.py:137-171 | wiping and loading a legal export over any legal store commits, and leaves exactly the exported rows |
| RestoreContents.AttachRuns | app/services/restore_service.py:180-194 | re-attaching blobs touches no constraint and so always succeeds |
| RestoreContents.AttachRowsPointwise | app/services/restore_service.py:184-194 | each loot row ends with the blob filed under its id, and no other row changes |
| RestoreTheorems.CommitsIffArchiveLegal | app/services/restore_service.py:122-201 | a readable export restores over any legal store if and only if its own rows satisfy every foreign key, NOT NULL, unique key and CHECK, every loot entry's name and id can be used, and, on Postgres, no table's largest id is below 1; the result then does not depend on what was there |
| RestoreTheorems.ArchiveRestores | app/services/restore_service.py:122-201 | an archive built from a sound store restores unless a loot entry's name or id raises, and all tables agree with the source except for the two content columns |
| RestoreTheorems.NextIdsAreFree | app/services/restore_service.py:173-178 | after a restore on Postgres no table's next id is one its rows already have |
| RestoreTheorems.FullVaultRoundTrip | app/services/restore_service.py:122-201 | a full-vault archive of a store whose loot entries are filed under their own ids, restored over any legal store, gives the same rows in every table, and each loot row its bytes in the one column of the target's dialect, on Postgres in an object of its own |
| RestoreTheorems.RestoredContents | app/services/restore_service.py:157-194 | after any restore that commits, whatever the archive: a loot row with a blob filed under its id holds it, on Postgres as the oid of an object no other row names and nothing inline, on SQLite inline and without an oid; a row without one holds nothing |
| RestoreTheorems.UploadsAreWellFiled | app/blueprints/api/loot.py:47-47 | the names the upload routes store, letters, digits, "_", "-" and ".", never misfile an entry |
| RestoreTheorems.UploadedVaultRoundTrip | app/blueprints/loot/routes.py:70-70 | so the round trip holds, without any condition on filing, for every store whose loot files were named by uploads |
| RestoreTheorems.InlineRoundTrip | app/services/restore_service.py:180-194 | where blobs are kept inline, the restored tables are identical to the source |
| RestoreTheorems.MisfiledIsLost | app/services/restore_service.py:60-67 | a blob whose archive name does not parse to its own id does not come back, or the restore raises |
| RestoreTheorems.BlobsSurviveIff | app/services/restore_service.py:55-67 | for stores whose blobs differ, the restore commits with every blob if and only if every entry is filed under its own id and no blob is empty |
| RestoreTheorems.WellFiledIff | app/services/backup_service.py:58-58 | an entry is filed under its own id exactly when its file name has no slash, or its part after the last slash parses to that id, in any script's digits |
| RestoreTheorems.SlashMisfiles | app/services/restore_service.py:63-66 | two concrete file names with a slash, through a whole restore: the file named a/b loses its blob, the one named a/7_x loses it to loot file 7, whose own blob is lost |
| Sessions.Session.Execute | app/services/restore_service.py:143-143 | a statement either runs or leaves the transaction as it was; without a connection failure it raises exactly when a constraint would break |
| Sessions.Session.Rollback | app/services/restore_service.py:197-199 | tables and Large Objects are those of the last commit |
| RestoreService.ExtractLootBlobs | app/services/restore_service.py:55-67 | the entries are read into a map by id, a later entry replacing an earlier one of the same id; raises exactly when some name's digits are no number |
| RestoreService.ClearSelfRefs | app/services/restore_service.py:162-165 | the row inserted and the patches deferred for its non-null self references |
| RestoreService.PrepareRows | app/services/restore_service.py:152-166 | all rows of a table, prepared and deferred in order, or failure at the first unreadable value |
| RestoreService.LoadTable | app/services/restore_service.py:146-178 | one insert, its patches and, on Postgres, the reset of the id sequence, in the transaction; the count is that of the archive's rows |
| RestoreService.ResetSequence | app/services/restore_service.py:173-178 | the sequence moves to the largest id of the table, and a largest id below 1 raises |
| RestoreService.LoadTables | app/services/restore_service.py:145-178 | every table in dependency order, the id sequences, and the row counts of the summary |
| RestoreService.AttachBlobs | app/services/restore_service.py:180-194 | one object or inline value for each blob, and the number of them that matched a row |
| RestoreService.RestoreFullArchive | app/services/restore_service.py:122-201 | commits exactly the outcome of the plan, with the two content columns of every loot row as the dialect wants them and a summary that counts what is there; on any error, a connection lost after any number of statements included, tables, sequences and objects are as they were |
| RestoreService.RestoreLootOnly | app/services/restore_service.py:204-237 | every row with a blob in the archive holds it in the one column of the dialect, on Postgres in a new object of its own; no other row, column, table or object changes; all or nothing |
| RestoreService.InspectArchive | app/services/restore_service.py:70-98 | the whole summary of the confirmation screen, and exactly which archives make it raise |
| QuillSpec.OutputIsCanonical | app/services/sanitize_service.py:42-102 | on every token stream the output has at most one list wrapper open at a time, opened right before an item and closed again |
| QuillSpec.FixpointIff | app/services/sanitize_service.py:42-102 | the normaliser leaves a stream unchanged if and only if it is in that form |
| QuillSpec.NormaliseIdempotent | app/services/sanitize_service.py:42-102 | normalising twice is normalising once, on every token stream |
| QuillSpec.ContentPreserved | app/services/sanitize_service.py:42-102 | apart from list tags, the output is the input outside marker spans, in order |
| QuillFlat.RunsAreMaximal | app/services/sanitize_service.py:52-67 | the runs the specification speaks of: in order, of one kind each, no two neighbours alike |
| QuillFlat.FlatListNormalises | app/services/sanitize_service.py:42-102 | a flat Quill list of bullet, ordered and checklist items becomes one wrapper around each maximal run of items of one kind |
| QuillMeaning.KindIs | app/services/sanitize_service.py:53-61 | an item whose last data-list says bullet goes to a ul, ordered to an ol, anything else to the innermost list around it, or to a ul |
| QuillMeaning.MarkerIs | app/services/sanitize_service.py:48-50 | marker spans are the spans whose last class text has ql-ui in it |
| QuillPlacement.ItemStands | app/services/sanitize_service.py:46-102 | every item of every stream, by positions: if it is not inside a marker span it stands in the output after as many items as before, directly inside a list of the kind it asks for, or of the innermost source list still open, or a ul |
| QuillPlacement.FlatItemStands | app/services/sanitize_service.py:53-67 | item i of a flat list stands directly inside the list its data-list asks for, and its neighbour shares that list exactly when it asks for the same |
| QuillPlacement.OutputIsShown | app/services/sanitize_service.py:46-102 | list tags aside, the output is what stands outside marker spans, by positions, in its order |
| QuillPlacement.HiddenIs | app/services/sanitize_service.py:48-52 | what is skipped is exactly what stands after the start of a marker span that has not ended |
| QuillLists.QuillListNormalizer.HandleStartTag | app/services/sanitize_service.py:42-69 | the handler's effect on the parser's fields |
| QuillLists.QuillListNormalizer.HandleEndTag | app/services/sanitize_service.py:75-92 | the handler's effect on the parser's fields |
| QuillLists.NormalizeQuillLists | app/services/sanitize_service.py:105-109 | the parser class computes the normal form, which is canonical and keeps the content |
| MarkdownRefinement.NodeRefines | app/services/sanitize_service.py:150-209 | from any state, the events of any well-nested tree leave exactly the recursive rendering, the same open lists, their items counted |
| MarkdownRefinement.DocumentRefines | app/services/sanitize_service.py:144-209 | a whole document leaves its recursive rendering, no list open and no link target |
| MarkdownRefinement.LinkKeepsTarget | app/services/sanitize_service.py:192-194 | a link closes with its own target if and only if no link is nested in it or the target is empty |
| MarkdownRefinement.ItemsAreNumbered | app/services/sanitize_service.py:165-173 | the n-th item of a list starts, right after everything before it, with a new line, two blanks for each outer list, and a dash in a ul or the digits of n and a dot in an ol |
| MarkdownText.MarkerIs | app/services/sanitize_service.py:165-173 | an item marker in characters, at any depth and for any number |
| MarkdownRefinement.MarkedElement | app/services/sanitize_service.py:154-206 | the characters before and after bold, italic, struck, quoted and preformatted text and code |
| MarkdownRefinement.HeadingElement | app/services/sanitize_service.py:174-175 | a heading starts with as many # as its digit says |
| MarkdownRefinement.LinkElement | app/services/sanitize_service.py:160-194 | a link is its content in brackets and its last href in parentheses, or no href once a link is nested in it |
| MarkdownRefinement.ImageText | app/services/sanitize_service.py:163-164 | an image is its alt text in brackets, then its source in parentheses |
| MarkdownRefinement.PlainText | app/services/sanitize_service.py:152-209 | text is kept, a break is two blanks and a new line, a paragraph ends with a blank line |
| MarkdownRefinement.OtherElement | app/services/sanitize_service.py:150-206 | any other element, and an item outside every list, adds nothing |
| MarkdownRefinement.EndTagText | app/services/sanitize_service.py:183-206 | an end tag adds its text whether or not anything was opened, from any state |
| Text.JoinKeepsOrder | app/services/sanitize_service.py:212-212 | every chunk stands in the text after the chunks before it |
| Text.StripIs | app/services/sanitize_service.py:214-214 | stripping takes spaces off both ends and nothing else |
| MarkdownLists.ListConverts | app/services/sanitize_service.py:138-227 | end to end: a list of one-line texts converts to one line for each, numbered from 1 or with dashes |
| Newlines.CollapseThins | app/services/sanitize_service.py:213-213 | replacing each longest run of three or more newlines by two keeps a newline exactly when fewer than two stand right before it |
| Newlines.Collapsed | app/services/sanitize_service.py:211-214 | the collapsed text has no three newlines in a row, is unchanged exactly when there were none, and loses nothing but newlines |
| Markdown.MarkdownConverter.HandleStartTag | app/services/sanitize_service.py:150-181 | the handler's effect on chunks, list stack and link target |
| Markdown.MarkdownConverter.HandleEndTag | app/services/sanitize_service.py:183-206 | the handler's effect on chunks, list stack and link target |
| Markdown.MarkdownConverter.Feed | app/services/sanitize_service.py:224-226 | feeding tokens runs the machine, a self-closing tag as its start and its end |
| Markdown.HtmlToMarkdown | app/services/sanitize_service.py:217-227 | the result is the stripped, collapsed text: no three newlines in a row, no blank at either end, empty for empty input |
| Markdown.DocumentMarkdown | app/services/sanitize_service.py:138-227 | end to end: the Markdown of a document is its recursive rendering, collapsed and stripped |
| AttackSync.AttackDatabase.SyncTactics | app/services/attack_sync.py:37-59 | every tactic row is that of the last usable object of its id; short names lead to the tactics of this bundle |
| AttackSync.AttackDatabase.SyncTechniques | app/services/attack_sync.py:61-92 | every technique row is that of the last usable object of its id, tactics by this bundle's short names, parents not yet touched |
| AttackSync.AttackDatabase.LinkParents | app/services/attack_sync.py:95-99 | exactly the dotted sub-techniques of the bundle get their parent re-resolved |
| AttackSync.AttackDatabase.FetchAndSync | app/services/attack_sync.py:28-103 | the three loops together meet the specification by last usable objects, and return the counts of usable objects |
| AttackTheorems.SyncKeeps | app/services/attack_sync.py:28-103 | a sync keeps row ids unique, parents a forest one level deep whose parent ids are the part before the first dot, and tactic links valid; no row goes or changes id |
| AttackTheorems.HistoryKeeps | app/services/attack_sync.py:28-103 | so it is over any sequence of syncs from empty tables |
| AttackTheorems.SyncIsIdempotent | app/services/attack_sync.py:29-32 | syncing a bundle again changes nothing but time stamps, whatever ids it repeats |
| AttackTheorems.SubTechniqueLinked | app/services/attack_sync.py:95-99 | a dotted sub-technique has a parent exactly when the same bundle holds it |
| AttackEffects.UsableIff | app/services/attack_sync.py:10-18 | an object counts exactly when it is of the kind, neither revoked nor deprecated, and its first MITRE reference has a non-empty id |
| AttackEffects.RevokedLeaveNoTrace | app/services/attack_sync.py:40-45 | without its revoked and deprecated objects a bundle allows exactly the same syncs, with the same counts |
| AttackEffects.TacticIsWritten | app/services/attack_sync.py:52-56 | a tactic row in the fields of the last object of its id |
| AttackEffects.TechniqueIsWritten | app/services/attack_sync.py:74-78 | a technique row in the fields of the last object of its id |
| AttackEffects.TechniqueIsUnder | app/services/attack_sync.py:80-87 | a technique is under exactly the tactics of the bundle whose short names its MITRE phases name |
| AttackEffects.UnmentionedStays | app/services/attack_sync.py:68-99 | rows a bundle does not mention stay, and only dotted sub-techniques change parent |
| AttackMatrix.IndexMappings | app/services/attack_service.py:15-22 | the index lists for each technique each engagement once that exists and mapped it |
| AttackMatrix.Cell | app/services/attack_service.py:29-37 | a technique's cell is its brute-force definition: who is listed, directly or not, through which sub-techniques without repeats, in order of name |
| AttackPage.SubsAreDotted | app/models/attack.py:32-42 | in every reachable store the rows under a technique by parent column are the linked rows whose id is the technique's and a dot |
| AttackPage.CellOverHistory | app/services/attack_service.py:24-38 | after any sequence of syncs, a cell lists exactly the engagements that mapped its technique or a linked technique whose id extends it by a dot |
| AttackPage.PageOverHistory | app/services/attack_service.py:24-27 | after any sequence of syncs, the page has a cell for each technique that is top-level and has a tactic, and for no other |
| AttackMatrix.BuildMatrix | app/services/attack_service.py:8-40 | exactly the top-level techniques under some tactic get a cell, each by its definition |
| AttackMatrix.HighlightedIff | app/services/attack_service.py:38-38 | a technique is highlighted exactly when some mapping of an existing engagement names it or a sub-technique of it |
| AttackMatrix.SortIs | app/services/attack_service.py:37-37 | sorting by name orders the same rows |
| AttackMatrix.NameLeqIs | app/services/attack_service.py:37-37 | names are ordered by the code of the first character that differs |
| AttackMatrix.SortIsStable | app/services/attack_service.py:37-37 | rows of the same name keep their order |
| VaultTheorems.StepKeeps | app/blueprints/api/infrastructure.py:41-250 | every request keeps the graph, kill chain, link, user and request invariants together |
| VaultTheorems.RunKeeps | app/blueprints/api/infrastructure.py:41-250 | they hold in every vault any sequence of requests can reach from an empty one, ids being used again included |
| VaultTheorems.EdgesJoinOnePane | app/blueprints/api/infrastructure.py:165-187 | in every reachable vault an edge joins two different existing nodes of its engagement on one pane, and is listed on exactly one pane |
| VaultTheorems.NodeNeverMoves | app/models/infrastructure.py:79-85 | as long as a node exists it stays on its pane and in its engagement |
| VaultTheorems.EntriesFitTheirModel | app/blueprints/api/killchain.py:38-122 | in every reachable vault an entry's stage belongs to its engagement's current model |
| Times.StoredInOrderIff | app/blueprints/api/killchain.py:15-18 | an accepted time range is stored in order always on Postgres, and on SQLite exactly when the end's clock reading is no earlier than the start's |
| Times.RangeAcceptedIff | app/blueprints/api/killchain.py:15-18 | a range is accepted when a time is missing, or both are of one sort and the end is no earlier, offsets considered |
| Times.StoredIs | app/models/killchain.py:149-150 | what is kept of a time with an offset: its clock reading on SQLite, the same instant in the session's zone on Postgres |
| Times.SameOffsetKeepsOrder | app/blueprints/api/killchain.py:15-18 | what a caller can check: an accepted range whose times carry the same UTC offset, or none, is stored in order |
| VaultTimes.TimesTraced | app/blueprints/api/killchain.py:38-122 | every entry of a reachable vault has the times some earlier request saved after accepting their range, and they are in order exactly as StoredInOrderIff says |
| VaultTimes.EntriesStayInOrder | app/blueprints/api/killchain.py:38-122 | over every run whose requests never submit two times with different offsets, no entry ends before it starts |
| VaultTimes.OffsetsLoseOrder | app/models/killchain.py:149-150 | the entry from 10:00+00:00 to 09:00-05:00 is accepted; SQLite stores it reversed, and then refuses any PATCH that leaves both times alone |
| VaultTimes.ReversedIsStuck | app/blueprints/api/killchain.py:103-108 | an entry stored reversed takes no PATCH that leaves both its times alone |
| VaultTimes.MixedPatchRaises | app/blueprints/api/killchain.py:15-18 | a start with an offset next to a stored end is an unhandled error, not a refusal |
| VaultTheorems.FindingsAreIsolated | app/services/findings_service.py:16-35 | in every reachable vault the five collections of a finding hold only rows of its own engagement |
| VaultTheorems.EntryLootIsIsolated | app/blueprints/api/killchain.py:21-29 | in every reachable vault an entry's loot is of its own engagement |
| VaultTheorems.MappingsAreIsolated | app/models/killchain.py:181-195 | in every reachable vault a mapping has exactly one target, of its own engagement |
| VaultTheorems.SomeoneIsInCharge | app/blueprints/admin/routes.py:16-21 | once a vault is set up it always has an active admin |
| VaultGraph.GraphKept | app/blueprints/api/targets.py:37-215 | every step keeps nodes and edges well formed, targets created from loot origins included |
| VaultGraph.NodesStay | app/blueprints/api/infrastructure.py:79-113 | no step moves an existing node to another pane or engagement |
| VaultGraph.PanesPartitionEdges | app/blueprints/api/targets.py:147-152 | the edge lists of the two panes split the edges of an engagement |
| VaultKillChain.KillChainKept | app/blueprints/api/engagements.py:84-88 | every step keeps each entry's stage inside its engagement's model; the model changes only while there are no entries |
| VaultKillChain.ChangeEngagement | app/blueprints/engagements/routes.py:172-176 | why the guard is enough: a changed model concerns no entry |
| VaultLinks.LinksKept | app/services/findings_service.py:16-35 | every step keeps every link inside one engagement |
| VaultLinks.WithoutEngagementLinks | app/blueprints/engagements/routes.py:359-361 | after an engagement is deleted with its rows, no remaining link or mapping leads into it |
| VaultGovernance.UsersKept | app/blueprints/admin/routes.py:37-156 | every step keeps user names unique, roles known and some admin active |
| VaultGovernance.DeletionNeedsTwo | app/blueprints/engagements/routes.py:296-363 | every engagement that disappears in a run does so by the approval of a request pending since an earlier step, made by somebody else who was an active admin then; the approver is an active admin or operator |
| VaultGovernance.ApprovalRemoves | app/blueprints/engagements/routes.py:340-363 | exactly when an approval deletes |
| VaultGovernance.TwoCanDelete | app/blueprints/engagements/routes.py:296-363 | an active admin and any other active admin or operator can delete an engagement in two steps; the requester alone cannot |
| VaultGovernance.RequestStep | app/blueprints/engagements/routes.py:296-337 | a pending request was pending before, or was just made by an active admin |
| VaultGovernance.RemovalStep | app/blueprints/engagements/routes.py:340-363 | only an approval ever removes an engagement |
| VaultUndo.DeleteUndoesCreateNode | app/blueprints/api/targets.py:37-127 | deleting a node right after creating it leaves the vault exactly as it was, edges and finding links included; the new node is found on its pane |
| VaultUndo.NewNodeOnPane | app/blueprints/api/infrastructure.py:41-70 | a new node is found on the pane it was created on and on no other, whatever role it was given |
| VaultUndo.DeleteUndoesCreateEdge | app/blueprints/api/infrastructure.py:190-250 | likewise for an edge |
| VaultUndo.DeleteUndoesCreateEntry | app/blueprints/api/killchain.py:38-131 | likewise for a kill chain entry, mappings and finding links included |
| VaultUndo.DeleteUndoesCreateFinding | app/blueprints/api/findings.py:22-86 | likewise for a finding |
| VaultUndo.DeleteUndoesMapping | app/blueprints/api/attack.py:42-110 | likewise for a technique mapping, whether to a loot file or to an entry |
| VaultUndo.DeleteUndoesCreateCredential | app/blueprints/loot/routes.py:243-324 | likewise for a credential, finding links included |
| VaultUndo.DeleteUndoesCreateIoc | app/blueprints/api/ioc.py:25-88 | likewise for an IOC, finding links included |
| VaultUndo.DeleteUndoesUpload | app/blueprints/api/loot.py:35-131 | an upload that is deleted leaves nothing but the host it was found on, which the graph has learnt |
| VaultUndo.CancelUndoesRequest | app/blueprints/engagements/routes.py:296-337 | cancelling a fresh deletion request leaves no trace of it, whichever admin cancels; meanwhile a second request is refused |
| VaultUndo.OriginIsResolved | app/services/loot_service.py:10-46 | a non-blank origin always ends up as the name of some node of its engagement |
| VaultUndo.ResolveOnce | app/services/loot_service.py:10-46 | resolving the same host again, in any case and with any blanks, adds no second node |
| VaultUndo.SecondUploadAddsNoNode | app/blueprints/api/loot.py:35-72 | two uploads from one host make one node between them |
| VaultUndo.UpdateLootTwice | app/blueprints/api/loot.py:98-120 | changing a file's origin twice to the same host is changing it once |
| VaultUndo.NodesOfAPaneJoin | app/blueprints/api/infrastructure.py:190-210 | any two different nodes of one pane can be joined, and the new edge is listed on that pane and no other |
| VaultUndo.PanesAreNotJoined | app/blueprints/api/targets.py:129-175 | nodes of different panes are joined from neither pane, in neither direction |
| VaultUndo.UnlinkingFreesLoot | app/blueprints/api/loot.py:123-131 | a linked file cannot go and the attempt changes nothing; deleting the one finding that links it frees it |
| VaultUndo.SetUpOnce | app/blueprints/setup/routes.py:14-78 | in any run the setup wizard succeeds at most once |
| VaultUndo.UsernamesAreTakenOnce | app/blueprints/admin/routes.py:37-61 | a user name given out is refused from then on, whoever asks and with whatever blanks around it |
| VaultUndo.NewEngagementTakesItsStages | app/blueprints/api/engagements.py:33-54 | a new engagement takes an entry exactly at the stages of the model it was given, the default one if none |
| VaultEffects.StagesOfModels | app/models/killchain.py:34-76 | which stages the two models have, and that any other model counts as the first |
| VaultEffects.NodePatched | app/blueprints/api/infrastructure.py:79-113 | fields a PATCH does not name stay, named ones take the submitted value |
| VaultEffects.EdgePatched | app/blueprints/api/targets.py:178-204 | the end an edge's PATCH names moves there, the other stays: source and target are not exchanged |
| VaultEffects.EngagementPatched | app/blueprints/api/engagements.py:63-92 | likewise for an engagement |
| VaultEffects.EntryPatched | app/blueprints/api/killchain.py:82-122 | likewise for a kill chain entry, its two times and its loot |
| VaultEffects.FindingPatched | app/blueprints/api/findings.py:53-77 | likewise for a finding; each of its five collections holds exactly the listed rows of its own table and engagement |
| VaultAcceptance.NodeAcceptedIff | app/blueprints/api/infrastructure.py:41-64 | a node is created exactly with a name and a type, role and status its pane takes, all of them listed |
| VaultAcceptance.NodePatchAcceptedIff | app/blueprints/api/targets.py:78-118 | a node is changed exactly when it is found on the pane and every field named would be taken there |
| VaultAcceptance.EdgeAcceptedIff | app/blueprints/api/infrastructure.py:165-204 | an edge is created exactly between two different nodes of the engagement that live on the pane |
| VaultAcceptance.EngagementAcceptedIff | app/blueprints/api/engagements.py:33-56 | an engagement is created exactly with a name, a client and one of the two models or none |
| VaultAcceptance.EntryAcceptedIff | app/blueprints/api/killchain.py:39-72 | an entry is created exactly at a stage of its engagement's model, with a title and a range in order |
| VaultAcceptance.EditAcceptedIff | app/blueprints/admin/routes.py:81-104 | a user is changed exactly when an active admin asks for it and an active admin remains |
| VaultEffects.LootOnRecord | app/services/loot_service.py:10-46 | an uploaded file is kept with its host, and a host the engagement did not know becomes a healthy target of the right type |
| VaultEffects.OnlyAdminsManageUsers | app/auth_utils.py:195-215 | only an active admin manages users; another active user is forbidden to, anyone else has no session |
| VaultEffects.OthersStay | app/blueprints/engagements/routes.py:359-361 | deleting an engagement touches no row of another one in any table |
| VaultRoutes.VaultDb.UpdateNode | app/blueprints/api/infrastructure.py:79-113 | checking field after field and storing at the end is checking all of them first; the node stays on its pane, and a refused request changes nothing |
| VaultRoutes.VaultDb.UpdateEdge | app/blueprints/api/targets.py:178-204 | an edge is found only from its own pane, missing ends keep their old value, and it is listed on that pane alone |
| VaultRoutes.VaultDb.UpdateEngagement | app/blueprints/api/engagements.py:63-92 | naming a model is refused once there are entries, nothing is stored then, and the model of such an engagement never changes |
| VaultRoutes.VaultDb.EditEngagement | app/blueprints/engagements/routes.py:157-180 | the form's model is ignored once there are entries |
| VaultRoutes.VaultDb.CreateEntry | app/blueprints/api/killchain.py:38-73 | stage and time range are checked before anything is stored, offsets included, foreign loot ids are dropped, and deleting the entry takes it all back |
| VaultRoutes.VaultDb.UpdateEntry | app/blueprints/api/killchain.py:82-122 | the range merged from submitted and stored times is what is checked, field after field; what is stored are clock readings |
| VaultRoutes.VaultDb.UpdateFinding | app/blueprints/api/findings.py:53-77 | without id lists the links stay, with one the missing lists clear theirs |
| VaultRoutes.VaultDb.DeactivateUser | app/blueprints/admin/routes.py:144-156 | the last active admin cannot be deactivated: somebody is in charge afterwards |
| VaultRoutes.VaultDb.EditUser | app/blueprints/admin/routes.py:79-115 | the last active admin can be neither demoted nor deactivated |
| VaultRoutes.VaultDb.ApproveDeletion | app/blueprints/engagements/routes.py:340-363 | the checks in turn, then the deletes in an order that still finds the rows they depend on; nothing of the engagement is left in any table |
| VaultRoutes.VaultDb.AdminGate | app/auth_utils.py:195-215 | only an active admin passes; an inactive user has no session, any other role is forbidden |
| VaultRoutes.VaultDb.ResolveEdgeNodes | app/blueprints/api/infrastructure.py:165-179 | five checks in turn accept exactly the resolvable pairs and return the ids |
| VaultRoutes.VaultDb.ApplyCorrelations | app/services/findings_service.py:16-35 | one query for each collection; ids outside the engagement are dropped |
| VaultRoutes.VaultDb.LinkedLoot | app/blueprints/api/killchain.py:21-29 | the listed ids that are loot of the engagement |
| VaultRoutes.VaultDb.CountOtherAdmins | app/blueprints/admin/routes.py:16-21 | counts to more than zero exactly when another active admin exists |
| Report.GroupByStage | app/services/report_service.py:12-22 | the grouping loop: each stage's entries in order, a key for every stage of the model and for no stage without entries beyond it |
| Report.ReportIsComplete | app/services/report_service.py:12-22 | in every reachable vault the groups are exactly the stages of the model, and every entry is in exactly one of them, once, in order of the stored times |
| BackupSchedule.ScheduleAgrees | app/services/scheduler_service.py:34-91 | whatever requests, runs and restarts happen, a running scheduler has exactly the jobs the destinations ask for, and every snapshot is the newest log row |
| BackupSchedule.StepInSync | app/services/scheduler_service.py:55-72 | each step keeps the jobs equal to one job for each active destination with an interval |
| BackupSchedule.JobsAreExact | app/services/scheduler_service.py:79-91 | a destination has a job exactly when it is active and runs hourly, daily, weekly or monthly, every 3600, 86400, 604800 or 2592000 seconds, and there are no other jobs |
| BackupSchedule.StepLogsOk | app/services/scheduler_service.py:94-146 | each step keeps last-run time and status those of the newest log row, and the message that of the newest run the program made itself |
| BackupSchedule.NewestIsLatest | app/models/backup.py:132-137 | while the clock does not run backwards the newest row is the one with the latest time |
| BackupSchedule.JobIdsDiffer | app/services/scheduler_service.py:75-76 | different destinations have different job ids |
| BackupSchedule.SafeNameIs | app/services/scheduler_service.py:152-153 | the name with a dash for each character that is not safe, without the dashes at its ends, or backup when nothing is left |
| SchedulerService.Backups.InitScheduler | app/services/scheduler_service.py:34-52 | the loop over active destinations schedules exactly the wanted jobs, in serving processes only |
| SchedulerService.Backups.SyncJob | app/services/scheduler_service.py:55-64 | removes the old job and adds the new one if the destination is active |
| SchedulerService.Backups.RemoveJob | app/services/scheduler_service.py:67-72 | removes the job if there is one and a scheduler |
| SchedulerService.Backups.CreateBackup | app/blueprints/backups/routes.py:59-112 | the checks, what the form says stored with the defaults for missing choices, its job, and deleting it takes all of that back |
| SchedulerService.Backups.EditBackup | app/blueprints/backups/routes.py:130-181 | missing choices keep what was stored, the engagement is kept only for its scope, snapshot and log stay; the job follows |
| BackupContracts.DeleteUndoesCreate | app/blueprints/backups/routes.py:59-230 | a destination deleted right after it was created leaves no row, no log and no job behind |
| BackupContracts.BackupDeleted | app/blueprints/backups/routes.py:221-230 | a deleted destination has no log row and no job left, and every other one keeps its newest rows |
| BackupContracts.RunRecorded | app/blueprints/backups/routes.py:199-218 | a run recorded by hand becomes the newest row, and the message shown stays that of the last run the program made itself |
| BackupContracts.BackupRan | app/services/scheduler_service.py:94-148 | a run is the newest row and what the snapshot shows, as a success with the uploaded name or a failure with the error; one whose destination is gone changes nothing |
| BackupContracts.TriggerIsLogged | app/services/scheduler_service.py:94-146 | a run is logged as started by hand or by the schedule |
| Base32.RoundTrip | app/services/totp_service.py:9-23 | every byte string comes back from its base 32 encoding (section 6 of RFC 4648) |
| Base32.RepaddingRestores | app/services/totp_service.py:19-19 | dropping the padding of an encoding and padding again restores it |
| CodeExamples.GroupIs | app/services/totp_service.py:9-23 | five bytes are eight characters of the alphabet of table 3 of RFC 4648, five bits each, the highest first |
| CodeExamples.ShortGroupIs | app/services/totp_service.py:9-23 | a last group of one to four bytes is two, four, five or seven characters, filled up with zero bits |
| Totp.CopiesDecode | app/services/totp_service.py:12-23 | a secret copied in groups, in either case or in letters that upper-case into it, with or without padding, decodes to the key |
| Totp.CodesAreTruncations | app/services/totp_service.py:26-46 | every code is six digits whose value is the truncated integer modulo a million |
| Totp.TruncationIs | app/services/totp_service.py:41-42 | the four bytes of section 5.3 of RFC 4226 lie inside the digest and are read from the high end without the top bit |
| CodeExamples.CodeExample | app/services/totp_service.py:41-46 | the worked example of section 5.4 of RFC 4226 gives 872921 |
| Totp.WindowIsExact | app/services/totp_service.py:36-51 | the counter is the number of whole periods of 30 seconds so far, stays the same until seconds_remaining seconds after the current whole second, and is one more for the period after (section 4.2 of RFC 6238) |
| Totp.CodeHoldsUntilTheEnd | app/services/totp_service.py:26-51 | the code does not change before its window ends |
| Totp.CodeIff | app/services/totp_service.py:26-46 | a code is given exactly for a decodable secret, of any characters, and a time whose counter fits eight bytes |

## Left out

- Large Objects orphaned by a restore, which the code leaves behind.
- Zip compression, JSON text and repeated entry names beyond what reading the last of them means; the zip library cuts an entry name at a NUL character, and an entry under a loot name whose bytes are one of the JSON exports counts as empty.
- Archive scopes other than the four of the destination form, for which the code writes an empty archive.
- RestoreTheorems.BlobsSurviveIff: is stated for stores whose blobs differ from each other, because two equal blobs may be exchanged unnoticed; FullVaultRoundTrip and MisfiledIsLost hold without it in their own direction.
- The insides of AES-GCM, SHA-256 and HMAC-SHA-1, key storage, and single-field encryption.
- Transport to cloud providers, temporary files, and the threads of the job scheduler: a run's outcome is a parameter of its step.
- The HTML tokenizer, bleach and character references; text is tokens here. Digits in heading tags are ASCII digits.
- VaultRoutes.VaultDb.ResolveOriginNode: lower-casing is ASCII, and whether the origin is an IP address is a parameter.
- KillChainEntry.infra_node_id, which the code stores unchecked, and free-text fields, services, notes, activity log, todos, assignments of read-only users and threat models: flat records.
- VaultRoutes.VaultDb.EditUser: does not model the engagement assignments of a read-only user, whose foreign keys may refuse the whole edit.
- VaultRoutes.VaultDb.ApproveDeletion: a setting or backup destination that refers to the engagement is a parameter, not a table.
- Times.StoredInOrderIff: the zone of a Postgres session is one fixed offset; a zone that changes with the season is not modelled.
- Identifiers in JSON bodies are integers, bundle fields have the types of the STIX format, and numbers in forms parse.
- AttackSync.AttackDatabase.SyncTechniques: a technique that names one tactic by two short names is linked to it once; the model does not go into what the database says to the second link.
- Restoring a backup does not reschedule jobs and writes the tables directly, so it is no step of the vault or of the schedule.
- BackupSchedule.ScheduleAgrees: retention days, secrets and connection fields of a destination are not kept, since no rule depends on them.
- Time stamps of one-time passwords are reals without floating-point rounding.
- Authentication, CSRF and API keys, templates, command line and MCP tools, migrations, seeds and scripts.
